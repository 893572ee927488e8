/** The shared helpers (`@wxparcel/core/src/share/utils.ts`): regular
    expression escaping, case-insensitive replacement, BOM stripping,
    matcher search and the same-output-folder test. */
module Utils {
  import opened Wrappers
  import opened Strings
  import opened Typings

  /** The characters `escapeRegExp` escapes: `- [ ] / { } ( ) * + ? . \ ^ $ |`. */
  const RegExpSpecials: string := "-[]/{}()*+?.\\^$|"

  /** `source.replace(/[-[\]/{}()*+?.\\^$|]/g, '\\$&')`. What it produces is
      stated by the lemmas below: `EscapeRegExpChar` (a character is
      preceded by a backslash exactly when it is special),
      `EscapeRegExpRoundTrip` and `EscapeRegExpPlain`. */
  function EscapeRegExp(s: string): (r: string)
    ensures |r| >= |s|
    decreases |s|
  {
    if s == [] then []
    else (if s[0] in RegExpSpecials then ['\\', s[0]] else [s[0]]) + EscapeRegExp(s[1..])
  }

  /** Undoes `EscapeRegExp`: a backslash takes the next character literally. */
  function UnescapeRegExp(t: string): string
    decreases |t|
  {
    if t == [] then []
    else if t[0] == '\\' && |t| >= 2 then [t[1]] + UnescapeRegExp(t[2..])
    else [t[0]] + UnescapeRegExp(t[1..])
  }

  /** Escaping loses nothing: unescaping gives the source back. */
  lemma {:induction false} EscapeRegExpRoundTrip(s: string)
    ensures UnescapeRegExp(EscapeRegExp(s)) == s
    decreases |s|
  {
    if s != [] {
      var rest := EscapeRegExp(s[1..]);
      EscapeRegExpRoundTrip(s[1..]);
      if s[0] in RegExpSpecials {
        var t := ['\\', s[0]] + rest;
        assert t[2..] == rest;
      } else {
        var t := [s[0]] + rest;
        assert t[0] != '\\';
        assert t[1..] == rest;
      }
      assert s == [s[0]] + s[1..];
    }
  }

  /** A string without special characters is left as it is. */
  lemma {:induction false} EscapeRegExpPlain(s: string)
    requires forall k :: 0 <= k < |s| ==> s[k] !in RegExpSpecials
    ensures EscapeRegExp(s) == s
    decreases |s|
  {
    if s != [] {
      EscapeRegExpPlain(s[1..]);
      assert s == [s[0]] + s[1..];
    }
  }

  /** Every special character of the source comes out preceded by a
      backslash: the escape of `c` is `\c` exactly when `c` is special. */
  lemma EscapeRegExpChar(c: char)
    ensures EscapeRegExp([c]) == (if c in RegExpSpecials then ['\\', c] else [c])
  {
    assert [c][1..] == [];
  }

  /** `p` occurs in `s` at `k`, ignoring case. */
  predicate MatchAt(s: string, p: string, k: int) {
    0 <= k && k + |p| <= |s| && EqualsIgnoreCase(s[k..k + |p|], p)
  }

  /** `r` before every character of `s` and after the last: what a global
      replacement of the empty pattern does. */
  function Interleave(s: string, r: string): string
    decreases |s|
  {
    if s == [] then r else r + [s[0]] + Interleave(s[1..], r)
  }

  /** `s.replace(new RegExp(escapeRegExp(p), 'ig'), () => r)`: every
      occurrence of `p`, ignoring case, scanned left to right without
      overlap, becomes `r`. */
  function ReplaceAllIgnoreCase(s: string, p: string, r: string): string
    decreases |s|
  {
    if p == [] then Interleave(s, r)
    else if MatchAt(s, p, 0) then r + ReplaceAllIgnoreCase(s[|p|..], p, r)
    else if s == [] then []
    else [s[0]] + ReplaceAllIgnoreCase(s[1..], p, r)
  }

  lemma MatchAtShift(s: string, p: string, k: int)
    requires s != [] && 0 <= k
    ensures MatchAt(s[1..], p, k) <==> MatchAt(s, p, k + 1)
  {
    if 0 <= k && k + |p| <= |s| - 1 {
      assert s[1..][k..k + |p|] == s[k + 1..k + 1 + |p|];
    }
  }

  /** With no occurrence of a non-empty `p`, the source is unchanged. */
  lemma {:induction false} ReplaceAbsent(s: string, p: string, r: string)
    requires p != []
    requires forall k :: !MatchAt(s, p, k)
    ensures ReplaceAllIgnoreCase(s, p, r) == s
    decreases |s|
  {
    if s != [] {
      forall k | 0 <= k ensures !MatchAt(s[1..], p, k) {
        MatchAtShift(s, p, k);
      }
      ReplaceAbsent(s[1..], p, r);
      assert s == [s[0]] + s[1..];
    }
  }

  /** The leftmost occurrence is replaced first and the scan resumes after
      it: with no occurrence starting inside `x`, an occurrence `m` right
      after `x` becomes `r`. */
  lemma {:induction false} ReplaceLeftmost(x: string, m: string, y: string, p: string, r: string)
    requires p != [] && |m| == |p| && EqualsIgnoreCase(m, p)
    requires forall k :: 0 <= k < |x| ==> !MatchAt(x + m + y, p, k)
    ensures ReplaceAllIgnoreCase(x + m + y, p, r) == x + r + ReplaceAllIgnoreCase(y, p, r)
    decreases |x|
  {
    var s := x + m + y;
    if x == [] {
      assert s == m + y;
      assert s[0..|p|] == m;
      assert MatchAt(s, p, 0);
      assert s[|p|..] == y;
    } else {
      var x' := x[1..];
      assert s[1..] == x' + m + y;
      assert ReplaceAllIgnoreCase(s, p, r) == [s[0]] + ReplaceAllIgnoreCase(x' + m + y, p, r) by {
        assert !MatchAt(s, p, 0);
      }
      var z := ReplaceAllIgnoreCase(y, p, r);
      assert ReplaceAllIgnoreCase(x' + m + y, p, r) == x' + r + z by {
        forall k | 0 <= k < |x'| ensures !MatchAt(x' + m + y, p, k) {
          MatchAtShift(s, p, k);
        }
        ReplaceLeftmost(x', m, y, p, r);
      }
      assert x == [s[0]] + x';
      ConsAssoc(s[0], x', r, z);
    }
  }

  lemma ConsAssoc(c: char, a: string, b: string, d: string)
    ensures [c] + (a + b + d) == [c] + a + b + d
  {
  }

  /** `replacement(source, content, url, regexp)`: every occurrence of
      `content` in `source`, ignoring case, is replaced by what `inner`
      makes of it (`content.replace(regexp, …)` with `url`, which does not
      depend on the text matched). */
  function Replacement(source: string, content: string, url: string, inner: (string, string) -> string): string {
    ReplaceAllIgnoreCase(source, content, inner(content, url))
  }

  /** `replacement` leaves a source without `content` as it is, and turns
      one that is `content` in another case into the rewritten text. */
  lemma ReplacementSpec(source: string, content: string, url: string, inner: (string, string) -> string)
    requires content != []
    ensures (forall k :: !MatchAt(source, content, k)) ==> Replacement(source, content, url, inner) == source
    ensures EqualsIgnoreCase(source, content) ==> Replacement(source, content, url, inner) == inner(content, url)
  {
    var r := inner(content, url);
    if forall k :: !MatchAt(source, content, k) {
      ReplaceAbsent(source, content, r);
    }
    if EqualsIgnoreCase(source, content) {
      ReplaceLeftmost([], source, [], content, r);
      assert [] + source + [] == source;
      assert ReplaceAllIgnoreCase([], content, r) == [];
    }
  }

  /** A byte, `0..255`. */
  type byte = x: int | 0 <= x < 256

  /** The values `stripBOM` distinguishes. */
  datatype Content = Buffer(bytes: seq<byte>) | Text(text: string) | Other

  const ByteOrderMark: char := 0xFEFF as char
  const Utf8Bom: seq<byte> := [0xEF, 0xBB, 0xBF]

  /** `stripBOM` on a buffer: the UTF-8 mark `EF BB BF` is dropped when the
      buffer starts with it. */
  function StripBomBytes(b: seq<byte>): (r: seq<byte>)
    ensures r == b || b == Utf8Bom + r
    ensures b == Utf8Bom + r <==> (|b| >= 3 && b[..3] == Utf8Bom)
  {
    if |b| >= 3 && b[0] == 0xEF && b[1] == 0xBB && b[2] == 0xBF then b[3..] else b
  }

  /** `stripBOM` on a string: one leading U+FEFF is dropped. */
  function StripBomText(s: string): (r: string)
    ensures r == s || s == [ByteOrderMark] + r
    ensures s == [ByteOrderMark] + r <==> (|s| >= 1 && s[0] == ByteOrderMark)
  {
    if |s| >= 1 && s[0] == ByteOrderMark then s[1..] else s
  }

  /** `stripBOM(content)`; anything but a buffer or a string is returned as is. */
  function StripBOM(c: Content): (r: Content)
    ensures c.Buffer? ==> r == Buffer(StripBomBytes(c.bytes))
    ensures c.Text? ==> r == Text(StripBomText(c.text))
    ensures c.Other? ==> r == c
  {
    match c
    case Buffer(b) => Buffer(StripBomBytes(b))
    case Text(s) => Text(StripBomText(s))
    case Other => Other
  }

  /** A mark put in front is taken off again, for both kinds of content. */
  lemma StripBomRoundTrip(b: seq<byte>, s: string)
    ensures StripBomBytes(Utf8Bom + b) == b
    ensures StripBomText([ByteOrderMark] + s) == s
  {
    assert (Utf8Bom + b)[..3] == Utf8Bom;
    assert (Utf8Bom + b)[3..] == b;
    assert ([ByteOrderMark] + s)[1..] == s;
  }

  /** At most one mark is removed: a doubled mark leaves one behind. */
  lemma StripBomOnce(s: string)
    ensures StripBomText([ByteOrderMark, ByteOrderMark] + s) == [ByteOrderMark] + s
    ensures |s| - 1 <= |StripBomText(s)| <= |s|
  {
    assert ([ByteOrderMark, ByteOrderMark] + s)[1..] == [ByteOrderMark] + s;
  }

  /** `inMatches(content, regexps)`: some expression of the list matches. */
  method InMatches(content: string, regexps: seq<Pattern>, test: Tester) returns (b: bool)
    ensures b <==> exists i :: 0 <= i < |regexps| && test(regexps[i], content)
  {
    var i := 0;
    while i < |regexps|
      invariant 0 <= i <= |regexps|
      invariant forall k :: 0 <= k < i ==> !test(regexps[k], content)
    {
      if test(regexps[i], content) {
        return true;
      }
      i := i + 1;
    }
    return false;
  }

  /** The directory expression compiled and found in both paths. */
  predicate SharedDir(a: string, b: string, re: Result<string -> bool>) {
    re.Ok? && re.value(a) && re.value(b)
  }

  /** The directory expression compiled but is missing from a path. */
  predicate PassedDir(a: string, b: string, re: Result<string -> bool>) {
    re.Ok? && !(re.value(a) && re.value(b))
  }

  /** `dirs.findIndex(dir => a.search(dir) !== -1 && b.search(dir) !== -1)`:
      the first directory expression found in both paths, or -1. `search`
      compiles each directory it reaches, so the first one that is not a
      valid pattern throws its `SyntaxError`. */
  function FindSharedDir(a: string, b: string, dirs: seq<string>, regexp: RegExpCompiler): (r: Result<int>)
    ensures r.Ok? ==> -1 <= r.value < |dirs|
    ensures r.Ok? ==> forall k :: 0 <= k < (if r.value == -1 then |dirs| else r.value) ==> PassedDir(a, b, regexp(Pattern(dirs[k])))
    ensures r.Ok? && r.value >= 0 ==> SharedDir(a, b, regexp(Pattern(dirs[r.value])))
    ensures r.Err? ==> exists i :: 0 <= i < |dirs| && regexp(Pattern(dirs[i])) == Err(r.error) &&
                                  forall k :: 0 <= k < i ==> PassedDir(a, b, regexp(Pattern(dirs[k])))
    ensures (forall k :: 0 <= k < |dirs| ==> regexp(Pattern(dirs[k])).Ok?) ==> r.Ok?
    decreases |dirs|
  {
    if dirs == [] then Ok(-1)
    else
      var re := regexp(Pattern(dirs[0]));
      if re.Err? then Err(re.error)
      else if re.value(a) && re.value(b) then Ok(0)
      else
        var j := FindSharedDir(a, b, dirs[1..], regexp);
        assert forall k :: 0 < k < |dirs| ==> dirs[1..][k - 1] == dirs[k];
        if j.Err? then
          assert exists i :: 0 <= i < |dirs[1..]| && regexp(Pattern(dirs[1..][i])) == Err(j.error) &&
                             forall k :: 0 <= k < i ==> PassedDir(a, b, regexp(Pattern(dirs[1..][k])));
          var i :| 0 <= i < |dirs[1..]| && regexp(Pattern(dirs[1..][i])) == Err(j.error) &&
                   forall k :: 0 <= k < i ==> PassedDir(a, b, regexp(Pattern(dirs[1..][k])));
          assert regexp(Pattern(dirs[i + 1])) == Err(j.error);
          Err(j.error)
        else if j.value == -1 then Ok(-1)
        else Ok(j.value + 1)
  }

  const PathMustBeString := "Path must be a string"

  /** `isSameOutPath(pathA, pathB, dirs)`: an error unless both paths are
      strings, or the error of the first invalid directory expression the
      search reaches; otherwise whether some directory occurs in both. */
  function IsSameOutPath(pathA: Option<string>, pathB: Option<string>, dirs: seq<string>, regexp: RegExpCompiler): (r: Result<bool>)
    ensures (pathA.None? || pathB.None?) ==> r == Err(PathMustBeString)
    ensures pathA.Some? && pathB.Some? && FindSharedDir(pathA.value, pathB.value, dirs, regexp).Err? ==>
      r == Err(FindSharedDir(pathA.value, pathB.value, dirs, regexp).error)
    ensures pathA.Some? && pathB.Some? && (forall k :: 0 <= k < |dirs| ==> regexp(Pattern(dirs[k])).Ok?) ==> r.Ok?
    ensures r.Ok? ==> (r.value <==> exists k :: 0 <= k < |dirs| && SharedDir(pathA.value, pathB.value, regexp(Pattern(dirs[k]))))
  {
    if pathA.None? || pathB.None? then Err(PathMustBeString)
    else
      var i := FindSharedDir(pathA.value, pathB.value, dirs, regexp);
      if i.Err? then Err(i.error) else Ok(i.value != -1)
  }
}
