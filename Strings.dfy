/** The JavaScript string operations the build engine relies on, on
    `string` = `seq<char>` (one `char` per UTF-16 code unit). */
module Strings {

  predicate StartsWith(s: string, prefix: string) {
    |prefix| <= |s| && s[..|prefix|] == prefix
  }

  predicate EndsWith(s: string, suffix: string) {
    |suffix| <= |s| && s[|s| - |suffix|..] == suffix
  }

  /** `p` occurs in `s` at position `i`. */
  predicate OccursAt(s: string, p: string, i: int) {
    0 <= i && i + |p| <= |s| && s[i..i + |p|] == p
  }

  /** `s.indexOf(p, from)`: the first occurrence at or after `from`, or -1. */
  function IndexFrom(s: string, p: string, from: nat): (r: int)
    requires from <= |s|
    decreases |s| - from
    ensures r == -1 || from <= r
    ensures r >= 0 ==> OccursAt(s, p, r) && forall k :: from <= k < r ==> !OccursAt(s, p, k)
    ensures r == -1 ==> forall k :: from <= k ==> !OccursAt(s, p, k)
  {
    if OccursAt(s, p, from) then from
    else if from == |s| then -1
    else IndexFrom(s, p, from + 1)
  }

  /** `s.indexOf(p)`. */
  function IndexOf(s: string, p: string): (r: int)
    ensures r == -1 || (0 <= r && OccursAt(s, p, r))
    ensures r >= 0 ==> forall k :: 0 <= k < r ==> !OccursAt(s, p, k)
    ensures r == -1 <==> forall k :: !OccursAt(s, p, k)
  {
    IndexFrom(s, p, 0)
  }

  predicate Contains(s: string, p: string) {
    IndexOf(s, p) != -1
  }

  /** A string starting with `p` finds `p` at 0. */
  lemma IndexOfPrefix(s: string, p: string)
    requires StartsWith(s, p)
    ensures IndexOf(s, p) == 0
  {
    assert OccursAt(s, p, 0);
  }

  /** A pattern holding a character that `s` lacks does not occur in `s`. */
  lemma AbsentCharNotContained(s: string, p: string, j: nat)
    requires j < |p| && p[j] !in s
    ensures !Contains(s, p)
  {

  }

  /** `s.replace(p, r)` with a string pattern: only the first occurrence is
      replaced (`$`-patterns in `r` are not interpreted by this model). */
  function ReplaceFirst(s: string, p: string, r: string): (t: string)
    ensures !Contains(s, p) ==> t == s
    ensures Contains(s, p) ==>
      var i := IndexOf(s, p);
      t == s[..i] + r + s[i + |p|..]
  {
    var i := IndexOf(s, p);
    if i < 0 then s else s[..i] + r + s[i + |p|..]
  }

  /** A string that starts with the pattern has that prefix replaced. */
  lemma ReplaceFirstPrefix(s: string, p: string, r: string)
    requires StartsWith(s, p)
    ensures ReplaceFirst(s, p, r) == r + s[|p|..]
  {
    IndexOfPrefix(s, p);
  }

  /** `s.replace(/c/g, d)` for a single character `c`. */
  function ReplaceAllChar(s: string, c: char, d: char): (t: string)
    ensures |t| == |s|
    ensures forall k :: 0 <= k < |s| ==> t[k] == (if s[k] == c then d else s[k])
  {
    if s == [] then [] else [if s[0] == c then d else s[0]] + ReplaceAllChar(s[1..], c, d)
  }

  /** lodash `trimEnd(s, c)` for a single character `c`. */
  function TrimEnd(s: string, c: char): (t: string)
    ensures t <= s
    ensures t == [] || t[|t| - 1] != c
    ensures forall k :: |t| <= k < |s| ==> s[k] == c
  {
    if s == [] then []
    else if s[|s| - 1] == c then TrimEnd(s[..|s| - 1], c)
    else s
  }

  /** The first index of character `c` in `s`, or `|s|` when it is absent. */
  function FindChar(s: string, c: char): (i: nat)
    ensures i <= |s|
    ensures i < |s| ==> s[i] == c
    ensures forall k :: 0 <= k < i ==> s[k] != c
  {
    if s == [] then 0 else if s[0] == c then 0 else 1 + FindChar(s[1..], c)
  }

  /** The first `c` of `a + b` is the first of `b` when `a` holds none. */
  lemma FindCharAt(a: string, b: string, c: char)
    requires c !in a && b != [] && b[0] == c
    ensures FindChar(a + b, c) == |a|
  {
    assert (a + b)[|a|] == c;
    assert forall k :: 0 <= k < |a| ==> (a + b)[k] == a[k];
  }

  /** `s.split(c)` for a single separator character. */
  function Split(s: string, c: char): (parts: seq<string>)
    ensures |parts| >= 1
    ensures parts[0] == s[..FindChar(s, c)]
    decreases |s|
  {
    var i := FindChar(s, c);
    if i == |s| then [s] else [s[..i]] + Split(s[i + 1..], c)
  }

  /** The second piece of a split is the text between the first and the
      second separator (or the end). */
  lemma SplitSecond(s: string, c: char)
    requires FindChar(s, c) < |s|
    ensures var i := FindChar(s, c);
      |Split(s, c)| >= 2 && Split(s, c)[1] == s[i + 1..][..FindChar(s[i + 1..], c)]
  {
    var i := FindChar(s, c);
    var rest := Split(s[i + 1..], c);
    assert Split(s, c) == [s[..i]] + rest;
    assert rest[0] == s[i + 1..][..FindChar(s[i + 1..], c)];
  }

  /** `parts.join(sep)`. */
  function JoinWith(parts: seq<string>, sep: string): string {
    if parts == [] then ""
    else if |parts| == 1 then parts[0]
    else parts[0] + sep + JoinWith(parts[1..], sep)
  }

  lemma JoinWithFew(parts: seq<string>, sep: string)
    ensures |parts| == 1 ==> JoinWith(parts, sep) == parts[0]
    ensures |parts| == 2 ==> JoinWith(parts, sep) == parts[0] + sep + parts[1]
  {
    if |parts| == 2 {
      assert JoinWith(parts[1..], sep) == parts[1];
    }
  }

  /** Splitting never loses or invents text: joining the pieces back with
      the separator gives the original string, and no piece holds `c`. */
  lemma {:induction false} SplitJoin(s: string, c: char)
    ensures |Split(s, c)| >= 1
    ensures JoinWith(Split(s, c), [c]) == s
    ensures forall k :: 0 <= k < |Split(s, c)| ==> c !in Split(s, c)[k]
  {
    SplitJoinBack(s, c);
    SplitPiecesFree(s, c);
  }

  lemma {:induction false} SplitJoinBack(s: string, c: char)
    ensures JoinWith(Split(s, c), [c]) == s
    decreases |s|
  {
    var i := FindChar(s, c);
    if i < |s| {
      var rest := s[i + 1..];
      SplitJoinBack(rest, c);
      var parts := Split(s, c);
      assert parts == [s[..i]] + Split(rest, c);
      assert parts[1..] == Split(rest, c);
      assert JoinWith(parts, [c]) == s[..i] + [c] + JoinWith(Split(rest, c), [c]);
      assert s == s[..i] + [c] + rest;
    }
  }

  lemma {:induction false} SplitPiecesFree(s: string, c: char)
    ensures forall k :: 0 <= k < |Split(s, c)| ==> c !in Split(s, c)[k]
    decreases |s|
  {
    var i := FindChar(s, c);
    var head := s[..i];
    assert c !in head by {
      assert forall j :: 0 <= j < i ==> head[j] == s[j];
    }
    if i < |s| {
      var rest := Split(s[i + 1..], c);
      SplitPiecesFree(s[i + 1..], c);
      assert Split(s, c) == [head] + rest;
    } else {
      assert Split(s, c) == [head];
    }
  }

  /** Concatenation of a sequence of strings (`codes.join('')`). */
  function Concat(parts: seq<string>): string {
    if parts == [] then "" else parts[0] + Concat(parts[1..])
  }

  lemma {:induction false} ConcatAppend(parts: seq<string>, last: string)
    ensures Concat(parts + [last]) == Concat(parts) + last
  {
    if parts == [] {
      assert parts + [last] == [last];
    } else {
      assert (parts + [last])[1..] == parts[1..] + [last];
      ConcatAppend(parts[1..], last);
    }
  }

  const Digits: string := "0123456789"

  /** `String(n)` for a natural number. */
  function NatToString(n: nat): (s: string)
    ensures |s| >= 1
    ensures forall k :: 0 <= k < |s| ==> s[k] in Digits
  {
    if n < 10 then [Digits[n]] else NatToString(n / 10) + [Digits[n % 10]]
  }

  /** ASCII lower-casing, the part of JavaScript's case folding this model keeps. */
  function LowerChar(c: char): char {
    if 'A' <= c <= 'Z' then (c as int + 32) as char else c
  }

  predicate EqualsIgnoreCase(a: string, b: string) {
    |a| == |b| && forall k :: 0 <= k < |a| ==> LowerChar(a[k]) == LowerChar(b[k])
  }

  predicate StartsWithIgnoreCase(s: string, prefix: string) {
    |prefix| <= |s| && EqualsIgnoreCase(s[..|prefix|], prefix)
  }

  /** Word characters of a regular expression, `\w` = `[A-Za-z0-9_]`. */
  predicate IsWordChar(c: char) {
    ('a' <= c <= 'z') || ('A' <= c <= 'Z') || ('0' <= c <= '9') || c == '_'
  }
}
