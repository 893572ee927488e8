/** Node's POSIX `path` functions as the build engine uses them: `join`,
    `normalize`, `dirname`, `basename`, `extname` and `relative`.
    Separators are `/`; `relative` compares two paths segment by segment
    without consulting the current directory. */
module Paths {
  import opened Strings

  /** `normalizeString`: drop empty and `.` segments, let `..` cancel the
      previous real segment, and keep a leading `..` only for relative paths. */
  function NormalizeSegments(segs: seq<string>, allowAboveRoot: bool, acc: seq<string>): seq<string>
    decreases |segs|
  {
    if segs == [] then acc
    else
      var seg := segs[0];
      var acc' :=
        if seg == "" || seg == "." then acc
        else if seg == ".." then
          (if |acc| > 0 && acc[|acc| - 1] != ".." then acc[..|acc| - 1]
           else if allowAboveRoot then acc + [".."]
           else acc)
        else acc + [seg];
      NormalizeSegments(segs[1..], allowAboveRoot, acc')
  }

  /** `path.normalize(p)`. */
  function Normalize(p: string): (r: string)
    ensures r != ""
  {
    if p == "" then "."
    else
      var absolute := p[0] == '/';
      var trailing := p[|p| - 1] == '/';
      var body := JoinWith(NormalizeSegments(Split(p, '/'), !absolute, []), "/");
      if body == "" then (if absolute then "/" else if trailing then "./" else ".")
      else (if absolute then "/" else "") + body + (if trailing then "/" else "")
  }

  /** The non-empty arguments of `path.join`, glued with `/`. */
  function Glue(parts: seq<string>): string {
    if parts == [] then ""
    else
      var rest := Glue(parts[1..]);
      if parts[0] == "" then rest
      else if rest == "" then parts[0]
      else parts[0] + "/" + rest
  }

  /** `path.join(...parts)`. */
  function JoinAll(parts: seq<string>): (r: string)
    ensures r != ""
  {
    var glued := Glue(parts);
    if glued == "" then "." else Normalize(glued)
  }

  /** `path.join(a, b)`. */
  function Join(a: string, b: string): (r: string)
    ensures r != ""
  {
    JoinAll([a, b])
  }

  /** One ordinary path segment: not empty, not `.` or `..`, and free of
      both separators. */
  predicate PlainSegment(seg: string) {
    seg != "" && seg != "." && seg != ".." && '/' !in seg && '\\' !in seg
  }

  lemma SplitPlain(seg: string)
    requires '/' !in seg
    ensures Split(seg, '/') == [seg]
  {
    assert FindChar(seg, '/') == |seg|;
  }

  /** The arguments `.` and a non-empty `x`, glued. */
  lemma GlueDot(x: string)
    requires x != ""
    ensures Glue([".", x]) == "./" + x
  {
    assert [".", x][1..] == [x];
    assert [x][1..] == [];
    assert Glue([x]) == x;
    assert "." + "/" + x == "./" + x;
  }

  /** `path.join('.', '')`. */
  lemma JoinDotEmpty()
    ensures Join(".", "") == "."
  {
    assert Glue([".", ""]) == "." by { assert [".", ""][1..] == [""]; }
    SplitPlain(".");
    NormalizeSkip(["."], true, []);
    assert ["."][1..] == [];
  }

  /** `path.join('.', '/')`. */
  lemma JoinDotSlash()
    ensures Join(".", "/") == "./"
  {
    GlueDot("/");
    assert "./" + "/" == ".//";
    assert Split(".//", '/') == [".", "", ""] by {
      FindCharAt(".", "//", '/');
      assert ".//"[..1] == "." && ".//"[2..] == "/";
      FindCharAt("", "/", '/');
      assert "/"[1..] == "";
      assert Split("", '/') == [""];
      assert Split("/", '/') == ["", ""];
    }
    assert NormalizeSegments([".", "", ""], true, []) == [] by {
      NormalizeSkip([".", "", ""], true, []);
      assert [".", "", ""][1..] == ["", ""];
      NormalizeSkip(["", ""], true, []);
      assert ["", ""][1..] == [""];
      NormalizeSkip([""], true, []);
      assert [""][1..] == [];
    }
  }

  lemma SplitDotted(seg: string)
    requires '/' !in seg
    ensures Split("./" + seg, '/') == [".", seg]
  {
    FindCharAt(".", "/" + seg, '/');
    assert "." + ("/" + seg) == "./" + seg;
    assert ("./" + seg)[..1] == ".";
    assert ("./" + seg)[2..] == seg;
    SplitPlain(seg);
    assert Split("./" + seg, '/') == ["."] + Split(seg, '/');
  }

  /** `path.join('.', seg)` is the segment itself. */
  lemma JoinDotSegment(seg: string)
    requires PlainSegment(seg)
    ensures Join(".", seg) == seg
  {
    GlueDot(seg);
    SplitDotted(seg);
    assert NormalizeSegments([".", seg], true, []) == [seg] by {
      NormalizeSkip([".", seg], true, []);
      assert [".", seg][1..] == [seg];
      NormalizeOne(seg, true, []);
    }
    JoinWithFew([seg], "/");
  }

  lemma SplitSlashed(seg: string)
    requires '/' !in seg
    ensures Split("/" + seg, '/') == ["", seg]
  {
    var s := "/" + seg;
    assert FindChar(s, '/') == 0;
    assert s[..0] == "" && s[1..] == seg;
    SplitPlain(seg);
  }

  lemma SplitRooted(seg: string)
    requires '/' !in seg
    ensures Split(".//" + seg, '/') == [".", "", seg]
  {
    SplitSlashed(seg);
    FindCharAt(".", "//" + seg, '/');
    assert "." + ("//" + seg) == ".//" + seg;
    assert (".//" + seg)[..1] == "." && (".//" + seg)[2..] == "/" + seg;
    assert Split(".//" + seg, '/') == ["."] + Split("/" + seg, '/');
  }

  /** `path.join('.', '/' + seg)` is the segment itself. */
  lemma JoinDotRootedSegment(seg: string)
    requires PlainSegment(seg)
    ensures Join(".", "/" + seg) == seg
  {
    GlueDot("/" + seg);
    assert "./" + ("/" + seg) == ".//" + seg;
    SplitRooted(seg);
    NormalizeDotEmptySegment(seg);
    JoinWithFew([seg], "/");
  }

  lemma NormalizeDotEmptySegment(seg: string)
    requires PlainSegment(seg)
    ensures NormalizeSegments([".", "", seg], true, []) == [seg]
  {
    NormalizeSkip([".", "", seg], true, []);
    assert [".", "", seg][1..] == ["", seg];
    NormalizeSkip(["", seg], true, []);
    assert ["", seg][1..] == [seg];
    NormalizeOne(seg, true, []);
  }

  /** An empty or `.` segment is dropped. */
  lemma NormalizeSkip(segs: seq<string>, allowAboveRoot: bool, acc: seq<string>)
    requires segs != [] && (segs[0] == "" || segs[0] == ".")
    ensures NormalizeSegments(segs, allowAboveRoot, acc) == NormalizeSegments(segs[1..], allowAboveRoot, acc)
  {
  }

  /** A plain segment is kept. */
  lemma NormalizeOne(seg: string, allowAboveRoot: bool, acc: seq<string>)
    requires PlainSegment(seg)
    ensures NormalizeSegments([seg], allowAboveRoot, acc) == acc + [seg]
  {
    assert [seg][1..] == [];
  }

  /** `p` with every trailing `/` removed. */
  function StripTrailingSlashes(p: string): (t: string)
    ensures t <= p
    ensures t == "" || t[|t| - 1] != '/'
  {
    if p == [] then []
    else if p[|p| - 1] == '/' then StripTrailingSlashes(p[..|p| - 1])
    else p
  }

  /** The last index of `c` in `s` at or after `lo`, or -1. */
  function LastIndexOfChar(s: string, c: char, lo: nat): (k: int)
    ensures k == -1 || (lo <= k < |s| && s[k] == c)
    ensures forall j :: lo <= j < |s| && j > k ==> s[j] != c
    decreases |s|
  {
    if |s| <= lo then -1
    else if s[|s| - 1] == c then |s| - 1
    else LastIndexOfChar(s[..|s| - 1], c, lo)
  }

  /** `path.basename(p)`: the last segment, ignoring trailing slashes. */
  function Basename(p: string): (b: string)
    ensures '/' !in b
  {
    var t := StripTrailingSlashes(p);
    var k := LastIndexOfChar(t, '/', 0);
    assert forall j :: k + 1 <= j < |t| ==> t[j] != '/';
    t[k + 1..]
  }

  /** `path.dirname(p)`. */
  function Dirname(p: string): (d: string)
    ensures d != ""
  {
    if p == "" then "."
    else
      var hasRoot := p[0] == '/';
      var t := StripTrailingSlashes(p);
      var k := LastIndexOfChar(t, '/', 1);
      if k == -1 then (if hasRoot then "/" else ".")
      else if hasRoot && k == 1 then "//"
      else p[..k]
  }

  /** `path.extname(p)`: from the last `.` of the basename, unless that dot
      starts the basename or the basename is `..`. */
  function Extname(p: string): (e: string)
    ensures e == "" || e[0] == '.'
  {
    var b := Basename(p);
    var k := LastIndexOfChar(b, '.', 0);
    if b == ".." || k <= 0 then "" else b[k..]
  }

  /** The non-empty segments of the normalised path. */
  function Segments(p: string): seq<string> {
    NormalizeSegments(Split(Normalize(p), '/'), true, [])
  }

  function CommonPrefix(a: seq<string>, b: seq<string>): (n: nat)
    ensures n <= |a| && n <= |b| && a[..n] == b[..n]
  {
    if a == [] || b == [] || a[0] != b[0] then 0
    else 1 + CommonPrefix(a[1..], b[1..])
  }

  function Ups(n: nat): (r: seq<string>)
    ensures |r| == n && forall k :: 0 <= k < n ==> r[k] == ".."
  {
    if n == 0 then [] else Ups(n - 1) + [".."]
  }

  /** `path.relative(from, to)`: climb out of what `from` does not share with
      `to`, then descend into the rest of `to`. */
  function Relative(from: string, to: string): string {
    var f := Segments(from);
    var t := Segments(to);
    var n := CommonPrefix(f, t);
    JoinWith(Ups(|f| - n) + t[n..], "/")
  }
}
