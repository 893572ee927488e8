/** Template tarballs of the project generator
    (`@wxparcel/create-wxapp/src/utils/pm.ts`): the file name `npm pack`
    gives a package, and the choice of that file in the working
    directory. */
module PackageManager {
  import opened Wrappers
  import opened Strings
  import opened Paths
  import opened Typings

  /** `^@(\w+?)\/` matches `dependency`: an `@`, one or more word
      characters, then the first `/`. */
  predicate ScopeMatches(dependency: string) {
    var i := FindChar(dependency, '/');
    dependency != "" && dependency[0] == '@' && 2 <= i < |dependency| &&
    forall j :: 1 <= j < i ==> IsWordChar(dependency[j])
  }

  /** `getTarballName(dependency)`: for a name starting with `@`,
      `@scope/rest` becomes `scope-rest` when the pattern matches (it is
      anchored and not global); any other name is kept. */
  function GetTarballName(dependency: string): (r: string)
    ensures !ScopeMatches(dependency) ==> r == dependency
  {
    if dependency != "" && dependency[0] == '@' && ScopeMatches(dependency) then
      var i := FindChar(dependency, '/');
      dependency[1..i] + "-" + dependency[i + 1..]
    else dependency
  }

  /** A name not starting with `@` is its own tarball name. */
  lemma UnscopedName(dependency: string)
    requires dependency == "" || dependency[0] != '@'
    ensures GetTarballName(dependency) == dependency
  {
  }

  /** A word-character scope is rewritten to `scope-`, and everything after
      the first `/` (later `/` included) is copied as it is. */
  lemma ScopedName(scope: string, rest: string)
    requires scope != [] && forall j :: 0 <= j < |scope| ==> IsWordChar(scope[j])
    ensures GetTarballName("@" + scope + "/" + rest) == scope + "-" + rest
  {
    var d := "@" + scope + "/" + rest;
    assert '/' !in "@" + scope by {
      forall j | 0 <= j < |"@" + scope| ensures ("@" + scope)[j] != '/' {
        if j > 0 {
          assert ("@" + scope)[j] == scope[j - 1];
        }
      }
    }
    assert d == ("@" + scope) + ("/" + rest);
    FindCharAt("@" + scope, "/" + rest, '/');
    var i := |scope| + 1;
    forall j | 1 <= j < i ensures IsWordChar(d[j]) {
      assert d[j] == scope[j - 1];
    }
    assert d[1..i] == scope;
    assert d[i + 1..] == rest;
  }

  /** A scope holding a character outside `\w` (such as `-`) fails the
      pattern, and the name is kept. */
  lemma NonWordScope(scope: string, rest: string, j: nat)
    requires '/' !in scope && j < |scope| && !IsWordChar(scope[j])
    ensures GetTarballName("@" + scope + "/" + rest) == "@" + scope + "/" + rest
  {
    var d := "@" + scope + "/" + rest;
    assert '/' !in "@" + scope by {
      forall k | 0 <= k < |"@" + scope| ensures ("@" + scope)[k] != '/' {
        if k > 0 {
          assert ("@" + scope)[k] == scope[k - 1];
        }
      }
    }
    assert d == ("@" + scope) + ("/" + rest);
    FindCharAt("@" + scope, "/" + rest, '/');
    assert d[j + 1] == scope[j];
  }

  /** `^${tarball}`: the tarball name is put into the pattern unescaped, so
      its regular-expression characters keep their meaning. */
  function TarballPattern(tarball: string): Pattern {
    Pattern("^" + tarball)
  }

  /** `files.find(test)`: the index of the first file the test accepts. */
  function FirstMatching(files: seq<string>, test: string -> bool): (i: int)
    ensures -1 <= i < |files|
    ensures i == -1 <==> forall k :: 0 <= k < |files| ==> !test(files[k])
    ensures i >= 0 ==> test(files[i]) && forall k :: 0 <= k < i ==> !test(files[k])
    decreases |files|
  {
    if files == [] then -1
    else if test(files[0]) then 0
    else
      var j := FirstMatching(files[1..], test);
      if j == -1 then -1 else j + 1
  }

  /** The literal reading of the pattern: the first file that starts with
      the tarball name, ignoring case. */
  function FirstPrefixed(files: seq<string>, tarball: string): (i: int)
    ensures -1 <= i < |files|
    ensures i == -1 <==> forall k :: 0 <= k < |files| ==> !StartsWithIgnoreCase(files[k], tarball)
    ensures i >= 0 ==> StartsWithIgnoreCase(files[i], tarball) &&
                       forall k :: 0 <= k < i ==> !StartsWithIgnoreCase(files[k], tarball)
    decreases |files|
  {
    if files == [] then -1
    else if StartsWithIgnoreCase(files[0], tarball) then 0
    else
      var j := FirstPrefixed(files[1..], tarball);
      if j == -1 then -1 else j + 1
  }

  /** When the compiled pattern means what it reads (a tarball name without
      regular-expression characters), the search is the literal
      case-insensitive prefix search. */
  lemma {:induction false} FirstMatchingLiteral(files: seq<string>, tarball: string, test: string -> bool)
    requires forall f :: test(f) == StartsWithIgnoreCase(f, tarball)
    ensures FirstMatching(files, test) == FirstPrefixed(files, tarball)
    decreases |files|
  {
    if files != [] {
      FirstMatchingLiteral(files[1..], tarball, test);
    }
  }

  const MissingTemplate := "该模板不存在"

  /** The selection step of `getTarball(dependency, cwd)` as written, over
      the directory listing `files`; `regexp` compiles with the `i` flag. The pattern is built for every file
      `find` visits, so an invalid one throws only when the listing is not
      empty; the error for a missing template interpolates `project`, which
      is `undefined` whenever no file was found. */
  function GetTarball(dependency: string, cwd: string, files: seq<string>, regexp: RegExpCompiler): (r: Result<string>)
    ensures files == [] ==> r == Err(MissingTemplate + "undefined")
    ensures var re := regexp(TarballPattern(GetTarballName(dependency)));
      files != [] && re.Err? ==> r == Err(re.error)
    ensures var re := regexp(TarballPattern(GetTarballName(dependency)));
      files != [] && re.Ok? ==>
        var i := FirstMatching(files, re.value);
        (i == -1 ==> r == Err(MissingTemplate + "undefined")) &&
        (i >= 0 && files[i] != "" ==> r == Ok(Join(cwd, files[i])))
  {
    if files == [] then Err(MissingTemplate + "undefined")
    else
      var re := regexp(TarballPattern(GetTarballName(dependency)));
      if re.Err? then Err(re.error)
      else
        var i := FirstMatching(files, re.value);
        if i == -1 then Err(MissingTemplate + "undefined")
        else if files[i] == "" then Err(MissingTemplate)
        else Ok(Join(cwd, files[i]))
  }

  /** A name without regular-expression characters selects the first file
      that starts with it, ignoring case. */
  lemma GetTarballLiteral(dependency: string, cwd: string, files: seq<string>, regexp: RegExpCompiler)
    requires regexp(TarballPattern(GetTarballName(dependency))).Ok?
    requires forall f :: regexp(TarballPattern(GetTarballName(dependency))).value(f) ==
                         StartsWithIgnoreCase(f, GetTarballName(dependency))
    requires files != []
    ensures var i := FirstPrefixed(files, GetTarballName(dependency));
      (i == -1 ==> GetTarball(dependency, cwd, files, regexp) == Err(MissingTemplate + "undefined")) &&
      (i >= 0 && files[i] != "" ==> GetTarball(dependency, cwd, files, regexp) == Ok(Join(cwd, files[i])))
  {
    var t := GetTarballName(dependency);
    FirstMatchingLiteral(files, t, regexp(TarballPattern(t)).value);
  }

  /** The message as written names no template: two different missing
      packages give the very same error. */
  lemma GetTarballMessageUninformative(a: string, b: string, cwd: string, files: seq<string>, regexp: RegExpCompiler)
    requires regexp(TarballPattern(GetTarballName(a))).Ok? && regexp(TarballPattern(GetTarballName(b))).Ok?
    requires forall k :: 0 <= k < |files| ==> !regexp(TarballPattern(GetTarballName(a))).value(files[k])
    requires forall k :: 0 <= k < |files| ==> !regexp(TarballPattern(GetTarballName(b))).value(files[k])
    ensures GetTarball(a, cwd, files, regexp) == GetTarball(b, cwd, files, regexp) == Err(MissingTemplate + "undefined")
  {
  }

  /** The smallest case: `@a/x` in an empty directory fails with a message
      ending in `undefined` rather than in `a-x`. */
  lemma GetTarballEmptyDirectory(regexp: RegExpCompiler)
    ensures GetTarball("@a/x", "/w", [], regexp) == Err(MissingTemplate + "undefined")
    ensures GetTarballName("@a/x") == "a-x"
  {
    ScopedName("a", "x");
  }

  /** The selection step with the error naming the missing template; the
      lookup is the same as written. */
  function GetTarballNamed(dependency: string, cwd: string, files: seq<string>, regexp: RegExpCompiler): (r: Result<string>)
    ensures files == [] ==> r == Err(MissingTemplate + GetTarballName(dependency))
    ensures var re := regexp(TarballPattern(GetTarballName(dependency)));
      files != [] && re.Err? ==> r == Err(re.error)
    ensures var re := regexp(TarballPattern(GetTarballName(dependency)));
      files != [] && re.Ok? ==>
        var i := FirstMatching(files, re.value);
        (i == -1 ==> r == Err(MissingTemplate + GetTarballName(dependency))) &&
        (i >= 0 && files[i] != "" ==> r == Ok(Join(cwd, files[i])))
    ensures r.Ok? ==> GetTarball(dependency, cwd, files, regexp) == r
  {
    var tarball := GetTarballName(dependency);
    if files == [] then Err(MissingTemplate + tarball)
    else
      var re := regexp(TarballPattern(tarball));
      if re.Err? then Err(re.error)
      else
        var i := FirstMatching(files, re.value);
        if i == -1 || files[i] == "" then Err(MissingTemplate + tarball)
        else Ok(Join(cwd, files[i]))
  }

  /** With the corrected message, different missing templates are told
      apart: the tarball name follows the fixed text. */
  lemma GetTarballNamedTellsApart(a: string, b: string, cwd: string, files: seq<string>, regexp: RegExpCompiler)
    requires GetTarballName(a) != GetTarballName(b)
    requires files == [] || (regexp(TarballPattern(GetTarballName(a))).Ok? && regexp(TarballPattern(GetTarballName(b))).Ok?)
    requires GetTarballNamed(a, cwd, files, regexp).Err? && GetTarballNamed(b, cwd, files, regexp).Err?
    ensures GetTarballNamed(a, cwd, files, regexp) != GetTarballNamed(b, cwd, files, regexp)
  {
    var ta, tb := GetTarballName(a), GetTarballName(b);
    assert (MissingTemplate + ta)[|MissingTemplate|..] == ta;
    assert (MissingTemplate + tb)[|MissingTemplate|..] == tb;
  }
}
