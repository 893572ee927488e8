/** `resolveTruthModuleName` (`@wxparcel/core/src/share/module.ts`): the
    package a module request names, `@scope/name` for a scoped package and
    the first segment otherwise. */
module ModuleName {
  import opened Strings

  /** `moduleName.split('/')`, then the first two pieces joined back when
      the first starts with `@`, else the first piece. */
  function ResolveTruthModuleName(moduleName: string): string {
    var paths := Split(moduleName, '/');
    if |paths[0]| > 0 && paths[0][0] == '@' then JoinWith(paths[..if |paths| < 2 then |paths| else 2], "/")
    else JoinWith(paths[..1], "/")
  }

  /** The package name is read off the front of the request: up to the
      first `/` for a plain name, up to the second `/` for a scoped one,
      and the whole request when there is no such `/`. */
  lemma TruthModuleNameSpec(moduleName: string)
    ensures var i := FindChar(moduleName, '/');
      !(moduleName != "" && moduleName[0] == '@') ==> ResolveTruthModuleName(moduleName) == moduleName[..i]
    ensures var i := FindChar(moduleName, '/');
      moduleName != "" && moduleName[0] == '@' && i < |moduleName| ==>
        ResolveTruthModuleName(moduleName) == moduleName[..i + 1 + FindChar(moduleName[i + 1..], '/')]
    ensures var i := FindChar(moduleName, '/');
      moduleName != "" && moduleName[0] == '@' && i == |moduleName| ==> ResolveTruthModuleName(moduleName) == moduleName
  {
    var i := FindChar(moduleName, '/');
    if moduleName != "" && moduleName[0] == '@' {
      if i < |moduleName| {
        ScopedCase(moduleName);
      } else {
        ScopedWholeCase(moduleName);
      }
    } else {
      PlainCase(moduleName);
    }
  }

  lemma PlainCase(moduleName: string)
    requires !(moduleName != "" && moduleName[0] == '@')
    ensures ResolveTruthModuleName(moduleName) == moduleName[..FindChar(moduleName, '/')]
  {
    var paths := Split(moduleName, '/');
    JoinWithFew(paths[..1], "/");
  }

  lemma ScopedWholeCase(moduleName: string)
    requires moduleName != "" && moduleName[0] == '@' && FindChar(moduleName, '/') == |moduleName|
    ensures ResolveTruthModuleName(moduleName) == moduleName
  {
    var paths := Split(moduleName, '/');
    assert paths == [moduleName];
    assert paths[..1] == paths;
    JoinWithFew(paths, "/");
  }

  lemma ScopedCase(moduleName: string)
    requires moduleName != "" && moduleName[0] == '@' && FindChar(moduleName, '/') < |moduleName|
    ensures var i := FindChar(moduleName, '/');
      ResolveTruthModuleName(moduleName) == moduleName[..i + 1 + FindChar(moduleName[i + 1..], '/')]
  {
    var i := FindChar(moduleName, '/');
    var paths := Split(moduleName, '/');
    assert i > 0;
    assert paths[0] == moduleName[..i];
    assert paths[0][0] == '@';
    SplitSecond(moduleName, '/');
    var rest := moduleName[i + 1..];
    var j := FindChar(rest, '/');
    var two := paths[..2];
    assert two == [moduleName[..i], rest[..j]];
    assert ResolveTruthModuleName(moduleName) == JoinWith(two, "/");
    JoinWithFew(two, "/");
    PrefixAround(moduleName, i, j);
  }

  /** A prefix reaching past position `i` is the text before `i`, the
      character at `i` and the start of what follows. */
  lemma PrefixAround(s: string, i: nat, n: nat)
    requires i < |s| && n <= |s| - i - 1
    ensures s[..i + 1 + n] == s[..i] + [s[i]] + s[i + 1..][..n]
  {
    var l := s[..i + 1 + n];
    var r := s[..i] + [s[i]] + s[i + 1..][..n];
    assert |l| == |r|;
    forall k | 0 <= k < |l| ensures l[k] == r[k] {
      if k > i {
        assert r[k] == s[i + 1..][..n][k - i - 1];
      }
    }
  }

  /** The result is always a prefix of the request, and a request without
      `/` comes back unchanged. */
  lemma TruthModuleNamePrefix(moduleName: string)
    ensures ResolveTruthModuleName(moduleName) <= moduleName
    ensures '/' !in moduleName ==> ResolveTruthModuleName(moduleName) == moduleName
  {
    TruthModuleNameSpec(moduleName);
    var i := FindChar(moduleName, '/');
    if '/' !in moduleName {
      assert i == |moduleName|;
    }
  }

  /** `@scope/name/...` gives `@scope/name`, and `name/...` gives `name`. */
  lemma TruthModuleNameSegments(scope: string, name: string, rest: string)
    requires '/' !in scope && '/' !in name
    ensures ResolveTruthModuleName("@" + scope + "/" + name + "/" + rest) == "@" + scope + "/" + name
    ensures name != "" && name[0] != '@' ==> ResolveTruthModuleName(name + "/" + rest) == name
  {
    ScopedSegments(scope, name, rest);
    if name != "" && name[0] != '@' {
      var t := name + "/" + rest;
      assert t == name + ("/" + rest);
      PlainCase(t);
      FindCharAt(name, "/" + rest, '/');
      assert t[..|name|] == name;
    }
  }

  lemma ScopedSegments(scope: string, name: string, rest: string)
    requires '/' !in scope && '/' !in name
    ensures ResolveTruthModuleName("@" + scope + "/" + name + "/" + rest) == "@" + scope + "/" + name
  {
    var s := "@" + scope + "/" + name + "/" + rest;
    ScopedShape(scope, name, rest);
    ScopedCase(s);
  }

  /** Where the two separators of `@scope/name/rest` are. */
  lemma ScopedShape(scope: string, name: string, rest: string)
    requires '/' !in scope && '/' !in name
    ensures var s := "@" + scope + "/" + name + "/" + rest;
      s[0] == '@' && FindChar(s, '/') == |scope| + 1 < |s| &&
      FindChar(s[|scope| + 2..], '/') == |name| &&
      s[..|scope| + 2 + |name|] == "@" + scope + "/" + name
  {
    var a := "@" + scope;
    var u := name + ("/" + rest);
    var s := a + ("/" + u);
    assert s == "@" + scope + "/" + name + "/" + rest;
    assert FindChar(s, '/') == |a| by {
      assert '/' !in a;
      FindCharAt(a, "/" + u, '/');
    }
    assert FindChar(s[|a| + 1..], '/') == |name| by {
      assert s[|a| + 1..] == u;
      FindCharAt(name, "/" + rest, '/');
    }
    assert s[..|a| + 1 + |name|] == "@" + scope + "/" + name;
  }
}
