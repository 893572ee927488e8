/** The JS bundler (`libs/bundler/JSBundler.ts`): gives every destination
    path a base-32 module id in first-seen order, wraps each script chunk
    as an entry of one module table, and emits a stub chunk per entry that
    boots its module from `bundler.js`. Source maps are not modelled. */
module JSBundler {
  import opened Wrappers
  import opened Strings
  import opened Paths
  import opened Typings
  import opened Seqs

  // ---------------------------------------------------------------------
  // Module ids: `Number.prototype.toString(32)`

  /** The base-32 digit for `d`: `0`-`9` then `a`-`v`. */
  function Digit(d: nat): (c: char)
    requires d < 32
  {
    if d < 10 then ('0' as int + d) as char else ('a' as int + d - 10) as char
  }

  function DigitValue(c: char): nat {
    if '0' <= c <= '9' then c as int - '0' as int
    else if 'a' <= c <= 'v' then c as int - 'a' as int + 10
    else 0
  }

  predicate IsDigit(c: char) {
    ('0' <= c <= '9') || ('a' <= c <= 'v')
  }

  /** `n.toString(32)`. */
  function ToBase32(n: nat): (s: string)
    ensures |s| >= 1
    ensures forall k :: 0 <= k < |s| ==> IsDigit(s[k])
  {
    if n < 32 then [Digit(n)] else ToBase32(n / 32) + [Digit(n % 32)]
  }

  /** Reading a base-32 numeral back. */
  function FromBase32(s: string): nat {
    if s == [] then 0 else FromBase32(s[..|s| - 1]) * 32 + DigitValue(s[|s| - 1])
  }

  /** Every id reads back as the counter value it was made from. */
  lemma {:induction false} Base32RoundTrip(n: nat)
    ensures FromBase32(ToBase32(n)) == n
  {
    if n < 32 {
      assert ToBase32(n) == [Digit(n)];
      assert [Digit(n)][..0] == [];
    } else {
      Base32RoundTrip(n / 32);
      var s := ToBase32(n);
      assert s[..|s| - 1] == ToBase32(n / 32);
      assert DigitValue(s[|s| - 1]) == n % 32;
    }
  }

  /** Different counter values give different ids. */
  lemma Base32Injective(m: nat, n: nat)
    requires ToBase32(m) == ToBase32(n)
    ensures m == n
  {
    Base32RoundTrip(m);
    Base32RoundTrip(n);
  }

  /** The first ids handed out: "0" .. "9", "a" .. "v", then "10". */
  lemma Base32Sequence()
    ensures ToBase32(0) == "0" && ToBase32(9) == "9"
    ensures ToBase32(10) == "a" && ToBase32(31) == "v"
    ensures ToBase32(32) == "10" && ToBase32(33) == "11"
  {
    assert ToBase32(1) == "1";
    assert ToBase32(32) == ToBase32(1) + [Digit(0)];
    assert ToBase32(33) == ToBase32(1) + [Digit(1)];
  }

  // ---------------------------------------------------------------------
  // The id table kept by `remember`

  /** The invariant of the `uid` counter and the `fileMap` memo table:
      `order` lists the remembered paths in first-seen order, there are
      `uid` of them, and the k-th one maps to `k.toString(32)`. */
  predicate TableValid(uid: nat, order: seq<string>, fileMap: map<string, string>) {
    uid == |order| && Distinct(order) &&
    fileMap.Keys == (set x | x in order) &&
    (forall k :: 0 <= k < |order| ==> order[k] in fileMap && fileMap[order[k]] == ToBase32(k))
  }

  /** Two different remembered paths never share an id. */
  lemma IdsDistinct(uid: nat, order: seq<string>, fileMap: map<string, string>, x: string, y: string)
    requires TableValid(uid, order, fileMap)
    requires x in fileMap && y in fileMap && x != y
    ensures fileMap[x] != fileMap[y]
  {
    var i :| 0 <= i < |order| && order[i] == x;
    var j :| 0 <= j < |order| && order[j] == y;
    if fileMap[x] == fileMap[y] {
      Base32Injective(i, j);
    }
  }

  /** Every id in a valid table is a base-32 numeral (so it holds no quote
      and is truthy). */
  lemma IdIsNumeral(uid: nat, order: seq<string>, fileMap: map<string, string>, x: string)
    requires TableValid(uid, order, fileMap)
    requires x in fileMap
    ensures fileMap[x] != "" && '"' !in fileMap[x]
    ensures forall k :: 0 <= k < |fileMap[x]| ==> IsDigit(fileMap[x][k])
  {
    var i :| 0 <= i < |order| && order[i] == x;
    assert fileMap[x] == ToBase32(i);
  }

  /** Remembering a new path gives it the next id and keeps the table valid. */
  lemma TableAdd(uid: nat, order: seq<string>, fileMap: map<string, string>, f: string)
    requires TableValid(uid, order, fileMap) && f !in fileMap
    ensures TableValid(uid + 1, order + [f], fileMap[f := ToBase32(uid)])
    ensures f !in order
  {
    var o := order + [f];
    var m := fileMap[f := ToBase32(uid)];
    assert f !in order;
    assert m.Keys == (set x | x in o);
    forall k | 0 <= k < |o| ensures o[k] in m && m[o[k]] == ToBase32(k) {
      if k < |order| {
        assert o[k] == order[k];
      }
    }
    forall i, j | 0 <= i < j < |o| ensures o[i] != o[j] {
      if j < |order| {
        assert o[i] == order[i] && o[j] == order[j];
      }
    }
  }

  /** `order` after remembering `x`. */
  function AddNew(order: seq<string>, x: string): seq<string> {
    if x in order then order else order + [x]
  }

  function DestPath(d: Destination): string {
    if d.Path? then d.path else ""
  }

  /** `order` after remembering every destination of `ds` in turn. */
  function AddAll(order: seq<string>, ds: seq<Destination>): seq<string>
    decreases |ds|
  {
    if ds == [] then order else AddNew(AddAll(order, ds[..|ds| - 1]), DestPath(ds[|ds| - 1]))
  }

  lemma {:induction false} AddAllConcat(o: seq<string>, xs: seq<Destination>, ys: seq<Destination>)
    ensures AddAll(o, xs + ys) == AddAll(AddAll(o, xs), ys)
    decreases |ys|
  {
    if ys == [] {
      assert xs + ys == xs;
    } else {
      assert (xs + ys)[..|xs + ys| - 1] == xs + ys[..|ys| - 1];
      AddAllConcat(o, xs, ys[..|ys| - 1]);
    }
  }

  /** Remembering keeps what was there and adds exactly the new paths. */
  lemma {:induction false} AddAllMembers(o: seq<string>, ds: seq<Destination>)
    ensures o <= AddAll(o, ds)
    ensures forall x :: x in AddAll(o, ds) <==> x in o || exists k :: 0 <= k < |ds| && DestPath(ds[k]) == x
    decreases |ds|
  {
    if ds != [] {
      var init := ds[..|ds| - 1];
      AddAllMembers(o, init);
      forall x ensures x in AddAll(o, ds) <==> x in o || exists k :: 0 <= k < |ds| && DestPath(ds[k]) == x {
        if x in AddAll(o, ds) && x !in o && x != DestPath(ds[|ds| - 1]) {
          var k :| 0 <= k < |init| && DestPath(init[k]) == x;
          assert DestPath(ds[k]) == x;
        }
        if exists k :: 0 <= k < |ds| && DestPath(ds[k]) == x {
          var k :| 0 <= k < |ds| && DestPath(ds[k]) == x;
          if k < |init| {
            assert DestPath(init[k]) == x;
          }
        }
      }
    }
  }

  // ---------------------------------------------------------------------
  // What `wrapModule` visits

  /** `findIndex(this.chunks, chunk => chunk.file === dependency) !== -1`. */
  predicate IsBundled(chunks: seq<Chunk>, file: string) {
    exists k :: 0 <= k < |chunks| && chunks[k].file == file
  }

  function OfOption(o: Option<string>): Destination {
    if o.Some? then Path(o.value) else Unset
  }

  /** The destinations of the dependencies that are themselves bundled. */
  function DepTargets(deps: seq<Dependency>, chunks: seq<Chunk>): seq<Destination>
    decreases |deps|
  {
    if deps == [] then []
    else
      var last := deps[|deps| - 1];
      DepTargets(deps[..|deps| - 1], chunks) +
      (if IsBundled(chunks, last.dependency) then [OfOption(last.destination)] else [])
  }

  lemma {:induction false} DepTargetsPrefix(deps: seq<Dependency>, chunks: seq<Chunk>, n: nat)
    requires n <= |deps|
    ensures DepTargets(deps[..n], chunks) <= DepTargets(deps, chunks)
    decreases |deps|
  {
    if n < |deps| {
      var init := deps[..|deps| - 1];
      assert init[..n] == deps[..n];
      DepTargetsPrefix(init, chunks, n);
    } else {
      assert deps[..n] == deps;
    }
  }

  /** One more dependency: its destination joins the targets exactly when
      it is bundled, and the dependency map follows. */
  lemma DepStep(deps: seq<Dependency>, chunks: seq<Chunk>, i: nat)
    requires i < |deps|
    ensures deps[..i + 1][..i] == deps[..i]
    ensures DepTargets(deps[..i + 1], chunks) ==
      DepTargets(deps[..i], chunks) + (if IsBundled(chunks, deps[i].dependency) then [OfOption(deps[i].destination)] else [])
    ensures forall fm :: (DepMapOf(deps[..i + 1], chunks, fm) ==
      (if IsBundled(chunks, deps[i].dependency)
       then SetProp(DepMapOf(deps[..i], chunks, fm), deps[i].required, Lookup(fm, DestPath(OfOption(deps[i].destination))))
       else DepMapOf(deps[..i], chunks, fm)))
  {
    assert deps[..i + 1][..i] == deps[..i];
  }

  lemma DepFailure(deps: seq<Dependency>, chunks: seq<Chunk>, i: nat)
    requires i < |deps| && IsBundled(chunks, deps[i].dependency)
    requires !OfOption(deps[i].destination).Path?
    ensures !AllPaths(DepTargets(deps, chunks))
  {
    DepTargetsPrefix(deps, chunks, i + 1);
    DepStep(deps, chunks, i);
    var before := DepTargets(deps[..i], chunks);
    assert DepTargets(deps, chunks)[|before|] == OfOption(deps[i].destination);
  }

  /** The values `wrapModule` hands to `remember`, in call order. */
  function Visits(c: Chunk, chunks: seq<Chunk>): seq<Destination> {
    [c.destination] + DepTargets(c.dependencies, chunks)
  }

  function AllVisits(cs: seq<Chunk>, chunks: seq<Chunk>): seq<Destination>
    decreases |cs|
  {
    if cs == [] then [] else AllVisits(cs[..|cs| - 1], chunks) + Visits(cs[|cs| - 1], chunks)
  }

  predicate AllPaths(ds: seq<Destination>) {
    forall k :: 0 <= k < |ds| ==> ds[k].Path?
  }

  lemma {:induction false} AllVisitsHasOwn(cs: seq<Chunk>, chunks: seq<Chunk>, k: nat)
    requires k < |cs|
    ensures exists j :: 0 <= j < |AllVisits(cs, chunks)| && AllVisits(cs, chunks)[j] == cs[k].destination
    decreases |cs|
  {
    var init := cs[..|cs| - 1];
    var vs := AllVisits(cs, chunks);
    assert vs == AllVisits(init, chunks) + Visits(cs[|cs| - 1], chunks);
    if k == |cs| - 1 {
      assert vs[|AllVisits(init, chunks)|] == cs[k].destination;
    } else {
      AllVisitsHasOwn(init, chunks, k);
      var j :| 0 <= j < |AllVisits(init, chunks)| && AllVisits(init, chunks)[j] == init[k].destination;
      assert vs[j] == cs[k].destination;
    }
  }

  // ---------------------------------------------------------------------
  // The text of one wrapped module

  /** `"` + `s` + `"` (no escaping, as `wrapQuote` does). */
  function WrapQuote(s: string): string {
    "\"" + s + "\""
  }

  function HexDigit(d: nat): char
    requires d < 16
  {
    if d < 10 then ('0' as int + d) as char else ('a' as int + d - 10) as char
  }

  const Backspace: char := 8 as char
  const FormFeed: char := 12 as char

  /** How `JSON.stringify` writes one character inside a string literal. */
  function JsonEscapeChar(c: char): string {
    if c == '"' then "\\\""
    else if c == '\\' then "\\\\"
    else if c == Backspace then "\\b"
    else if c == FormFeed then "\\f"
    else if c == '\n' then "\\n"
    else if c == '\r' then "\\r"
    else if c == '\t' then "\\t"
    else if (c as int) < 0x20 then "\\u00" + [HexDigit(c as int / 16), HexDigit(c as int % 16)]
    else [c]
  }

  function JsonEscape(s: string): string {
    if s == [] then "" else JsonEscapeChar(s[0]) + JsonEscape(s[1..])
  }

  function HexValue(c: char): nat {
    if '0' <= c <= '9' then c as int - '0' as int
    else if 'a' <= c <= 'f' then c as int - 'a' as int + 10
    else 0
  }

  /** Reading a JSON string body back (the escapes `JsonEscapeChar` writes). */
  function JsonUnescape(s: string): string
    decreases |s|
  {
    if s == [] then ""
    else if s[0] == '\\' && |s| >= 2 then
      var e := s[1];
      if e == 'u' && |s| >= 6 then
        [(HexValue(s[4]) * 16 + HexValue(s[5])) as char] + JsonUnescape(s[6..])
      else
        [if e == 'b' then Backspace else if e == 'f' then FormFeed else if e == 'n' then '\n'
         else if e == 'r' then '\r' else if e == 't' then '\t' else e] + JsonUnescape(s[2..])
    else [s[0]] + JsonUnescape(s[1..])
  }

  lemma UnescapeOne(c: char, rest: string)
    ensures JsonUnescape(JsonEscapeChar(c) + rest) == [c] + JsonUnescape(rest)
  {
    if (c as int) < 0x20 && c != Backspace && c != FormFeed && c != '\n' && c != '\r' && c != '\t' {
      UnescapeControl(c, rest);
    } else if c == '"' || c == '\\' || c == Backspace || c == FormFeed || c == '\n' || c == '\r' || c == '\t' {
      var s := JsonEscapeChar(c) + rest;
      assert |JsonEscapeChar(c)| == 2;
      assert s[2..] == rest;
    } else {
      var s := JsonEscapeChar(c) + rest;
      assert s[1..] == rest;
    }
  }

  /** A control character without a short escape comes back from `\u00XY`. */
  lemma UnescapeControl(c: char, rest: string)
    requires (c as int) < 0x20 && c != Backspace && c != FormFeed && c != '\n' && c != '\r' && c != '\t'
    ensures JsonUnescape(JsonEscapeChar(c) + rest) == [c] + JsonUnescape(rest)
  {
    var e := "\\u00" + [HexDigit(c as int / 16), HexDigit(c as int % 16)];
    assert JsonEscapeChar(c) == e;
    var s := e + rest;
    assert s[0] == '\\' && s[1] == 'u' && s[4] == HexDigit(c as int / 16) && s[5] == HexDigit(c as int % 16);
    assert s[6..] == rest;
  }

  /** `JSON.stringify` of a string loses nothing: unescaping gives it back. */
  lemma {:induction false} JsonEscapeRoundTrip(s: string)
    ensures JsonUnescape(JsonEscape(s)) == s
  {
    if s != [] {
      JsonEscapeRoundTrip(s[1..]);
      UnescapeOne(s[0], JsonEscape(s[1..]));
    }
  }

  /** A JavaScript object from specifier to id, in property order. Assigning
      an existing key keeps its position (`dependencies[required] = id`). */
  type DepMap = seq<(string, string)>

  function SetProp(m: DepMap, key: string, value: string): DepMap {
    if m == [] then [(key, value)]
    else if m[0].0 == key then [(key, value)] + m[1..]
    else [m[0]] + SetProp(m[1..], key, value)
  }

  /** `object[key]`: the value of the first property named `key`. */
  function PropValue(m: DepMap, key: string): Option<string> {
    if m == [] then None else if m[0].0 == key then Some(m[0].1) else PropValue(m[1..], key)
  }

  /** The property names in order. */
  function PropNames(m: DepMap): seq<string> {
    if m == [] then [] else [m[0].0] + PropNames(m[1..])
  }

  /** Property assignment: the key now reads as the new value, every other
      key reads as before, and a new key is appended after the old ones
      while an existing key keeps its place. */
  lemma {:induction false} SetPropSemantics(m: DepMap, key: string, value: string)
    ensures PropValue(SetProp(m, key, value), key) == Some(value)
    ensures forall other :: other != key ==> PropValue(SetProp(m, key, value), other) == PropValue(m, other)
    ensures PropNames(SetProp(m, key, value)) == if key in PropNames(m) then PropNames(m) else PropNames(m) + [key]
  {
    if m != [] && m[0].0 != key {
      SetPropSemantics(m[1..], key, value);
    }
  }

  function JsonEntries(m: DepMap): seq<string> {
    if m == [] then [] else [JsonEscapeQuote(m[0].0) + ":" + JsonEscapeQuote(m[0].1)] + JsonEntries(m[1..])
  }

  function JsonEscapeQuote(s: string): string {
    "\"" + JsonEscape(s) + "\""
  }

  /** `JSON.stringify(dependencies)`. */
  function JsonObject(m: DepMap): string {
    "{" + JoinWith(JsonEntries(m), ",") + "}"
  }

  const ModuleOpen: string := ": [function(require,module,exports) {\n"

  /** `wrapCode(name, code, dependencies)`: one property of the module table. */
  function WrapCode(name: string, code: string, deps: DepMap): string {
    WrapQuote(name) + ModuleOpen + code + "\n}, " + JsonObject(deps) + "],\n"
  }

  /** Everything `wrapCode` writes around the code: the quoted name, the
      function header, the code itself, then the JSON map and `],\n`. */
  lemma WrapCodeShape(name: string, code: string, deps: DepMap)
    ensures var w := WrapCode(name, code, deps);
      var head := "\"" + name + "\"" + ModuleOpen;
      StartsWith(w, head) &&
      w[|head|..|head| + |code|] == code &&
      w[|head| + |code|..] == "\n}, " + JsonObject(deps) + "],\n" &&
      EndsWith(w, "],\n")
  {
    var w := WrapCode(name, code, deps);
    var head := "\"" + name + "\"" + ModuleOpen;
    var json := JsonObject(deps);
    var tail := "\n}, " + json + "],\n";
    assert w == head + code + tail;
    ThreeParts(head, code, tail);
    assert tail == ("\n}, " + json) + "],\n";
    ThreeParts("\n}, " + json, "],\n", "");
    assert EndsWith(tail, "],\n");
  }

  /** The parts of `a + b + c` are found back at their offsets. */
  lemma ThreeParts(a: string, b: string, c: string)
    ensures var w := a + b + c;
      w[..|a|] == a && w[|a|..|a| + |b|] == b && w[|a| + |b|..] == c &&
      (forall t :: EndsWith(c, t) ==> EndsWith(w, t))
  {
  }

  /** The module name at the front of a wrapped module: the text between
      the first two double quotes. */
  function ModuleName(w: string): Option<string> {
    if |w| == 0 || w[0] != '"' then None
    else
      var rest := w[1..];
      var i := FindChar(rest, '"');
      if i == |rest| then None else Some(rest[..i])
  }

  lemma ModuleNameOfWrapCode(name: string, code: string, deps: DepMap)
    requires '"' !in name
    ensures ModuleName(WrapCode(name, code, deps)) == Some(name)
  {
    var w := WrapCode(name, code, deps);
    var q := WrapQuote(name);
    var tail := "\n}, " + JsonObject(deps) + "],\n";
    assert w == q + (ModuleOpen + code + tail);
    QuotedName(name, ModuleOpen + code + tail);
  }

  /** A text that starts with a quoted name free of quotes names that module. */
  lemma QuotedName(name: string, after: string)
    requires '"' !in name
    ensures ModuleName(WrapQuote(name) + after) == Some(name)
  {
    var w := WrapQuote(name) + after;
    var rest := name + ("\"" + after);
    assert w == "\"" + rest;
    assert w[1..] == rest;
    FindCharAt(name, "\"" + after, '"');
    assert rest[..|name|] == name;
  }

  // ---------------------------------------------------------------------
  // The module table and the bundle text

  /** `{` + entries with trailing `,` trimmed + `}` (`wrapModules`). */
  function ModuleTable(codes: seq<string>): string {
    "{" + TrimEnd(Concat(codes), ',') + "}"
  }

  /** `(` + table + `, {})` (`wrapBundler`). */
  function WrapBundlerCode(table: string): string {
    "(" + table + ", {})"
  }

  function Lookup(fm: map<string, string>, x: string): string {
    if x in fm then fm[x] else ""
  }

  /** The dependency map of a module, from the ids the table holds. */
  function DepMapOf(deps: seq<Dependency>, chunks: seq<Chunk>, fm: map<string, string>): DepMap
    decreases |deps|
  {
    if deps == [] then []
    else
      var last := deps[|deps| - 1];
      var m := DepMapOf(deps[..|deps| - 1], chunks, fm);
      if IsBundled(chunks, last.dependency) then SetProp(m, last.required, Lookup(fm, DestPath(OfOption(last.destination))))
      else m
  }

  /** The wrapped text of one chunk. */
  function ModuleCode(c: Chunk, chunks: seq<Chunk>, fm: map<string, string>): string {
    WrapCode(Lookup(fm, DestPath(c.destination)), c.content, DepMapOf(c.dependencies, chunks, fm))
  }

  function ModuleCodes(cs: seq<Chunk>, chunks: seq<Chunk>, fm: map<string, string>): (r: seq<string>)
    ensures |r| == |cs|
    ensures forall k :: 0 <= k < |cs| ==> r[k] == ModuleCode(cs[k], chunks, fm)
    decreases |cs|
  {
    if cs == [] then [] else ModuleCodes(cs[..|cs| - 1], chunks, fm) + [ModuleCode(cs[|cs| - 1], chunks, fm)]
  }

  /** Every wrapped module ends in `],\n`, so the `trimEnd(…, ',')` of
      `wrapModules` never removes anything: the table keeps the trailing
      comma of its last entry. */
  lemma {:induction false} TrimEndIsNoOp(cs: seq<Chunk>, chunks: seq<Chunk>, fm: map<string, string>)
    ensures ModuleTable(ModuleCodes(cs, chunks, fm)) == "{" + Concat(ModuleCodes(cs, chunks, fm)) + "}"
    decreases |cs|
  {
    var codes := ModuleCodes(cs, chunks, fm);
    if cs != [] {
      var c := cs[|cs| - 1];
      var init := ModuleCodes(cs[..|cs| - 1], chunks, fm);
      assert codes == init + [ModuleCode(c, chunks, fm)];
      ConcatAppend(init, ModuleCode(c, chunks, fm));
      var w := ModuleCode(c, chunks, fm);
      WrapCodeShape(Lookup(fm, DestPath(c.destination)), c.content, DepMapOf(c.dependencies, chunks, fm));
      var all := Concat(codes);
      assert all == Concat(init) + w;
      assert all[|all| - 1] == w[|w| - 1] == '\n';
      assert TrimEnd(all, ',') == all;
    }
  }

  // ---------------------------------------------------------------------
  // Entry stubs

  /** The path from an entry's folder to the bundle: `path.relative`, with
      `\` turned into `/`, then the first occurrence of its extension
      (`.js`) replaced by nothing. */
  function RequiredPath(destination: string, bundleDestination: string): string {
    var rel := ReplaceAllChar(Relative(Dirname(destination), bundleDestination), '\\', '/');
    ReplaceFirst(rel, Extname(rel), "")
  }

  /** `require("<required>")("<id>")`. */
  function EntryStub(required: string, id: string): string {
    "require(" + WrapQuote(required) + ")(" + WrapQuote(id) + ")"
  }

  /** The module id a stub boots: the quoted text just before the final `)`. */
  function StubModuleId(stub: string): Option<string> {
    if |stub| < 2 || stub[|stub| - 2..] != "\")" then None
    else
      var body := stub[..|stub| - 2];
      var k := LastIndexOfChar(body, '"', 0);
      if k < 0 then None else Some(body[k + 1..])
  }

  lemma StubModuleIdOfEntryStub(required: string, id: string)
    requires '"' !in id
    ensures StubModuleId(EntryStub(required, id)) == Some(id)
  {
    var stub := EntryStub(required, id);
    var body := "require(" + WrapQuote(required) + ")(\"" + id;
    assert stub == body + "\")";
    assert stub[..|stub| - 2] == body;
    var q := |body| - |id| - 1;
    assert body[q] == '"';
    assert body[q + 1..] == id;
    assert forall j :: q < j < |body| ==> body[j] == id[j - q - 1];
    var k := LastIndexOfChar(body, '"', 0);
    assert k == q;
  }

  /** `destination[0]` for an array destination, as the entry loop does. */
  function EntryDestination(d: Destination): Destination {
    if d.Paths? then (if |d.paths| > 0 then Path(d.paths[0]) else Unset) else d
  }

  /** What `bundle` hands to the asset collector: a file and its state. */
  datatype NewChunk = NewChunk(file: string, state: ChunkState)

  const BundleFilename: string := "bundler.js"

  function BundleDestination(outDir: string): string {
    Join(outDir, BundleFilename)
  }

  function BundlerChunk(outDir: string, code: string): NewChunk {
    NewChunk(BundleFilename, ChunkState(Some(Bundler), Some(code), None, None, Some(Path(BundleDestination(outDir)))))
  }

  /** The stub chunk for `c`: type ENTRY, the stub as content, and the
      chunk's other state (its dependencies and source map) kept; its
      destination is not passed on. */
  function EntryChunk(c: Chunk, fm: map<string, string>, bundleDestination: string): NewChunk {
    var dest := DestPath(EntryDestination(c.destination));
    var stub := EntryStub(RequiredPath(dest, bundleDestination), Lookup(fm, dest));
    NewChunk(c.file, ChunkState(Some(Entry), Some(stub), Some(c.dependencies), c.sourceMap, None))
  }

  /** `filter(chunks, chunk => chunk.type !== BUNDLE)`. */
  function NonBundle(cs: seq<Chunk>): (r: seq<Chunk>)
    ensures |r| <= |cs|
    decreases |cs|
  {
    if cs == [] then []
    else
      var init := NonBundle(cs[..|cs| - 1]);
      var last := cs[|cs| - 1];
      if last.chunkType != Bundle then init + [last] else init
  }

  /** The filter keeps exactly the chunks whose type is not BUNDLE. */
  lemma {:induction false} NonBundleMembers(cs: seq<Chunk>)
    ensures forall k :: 0 <= k < |NonBundle(cs)| ==> NonBundle(cs)[k].chunkType != Bundle
    ensures forall c :: c in NonBundle(cs) <==> c in cs && c.chunkType != Bundle
    decreases |cs|
  {
    if cs != [] {
      var init := cs[..|cs| - 1];
      NonBundleMembers(init);
      assert cs == init + [cs[|cs| - 1]];
    }
  }

  function MapSeq<A, B>(f: A -> B, xs: seq<A>): (r: seq<B>)
    ensures |r| == |xs| && forall k :: 0 <= k < |xs| ==> r[k] == f(xs[k])
  {
    if xs == [] then [] else MapSeq(f, xs[..|xs| - 1]) + [f(xs[|xs| - 1])]
  }

  function EntryChunks(cs: seq<Chunk>, fm: map<string, string>, bundleDestination: string): seq<NewChunk> {
    MapSeq((c: Chunk) => EntryChunk(c, fm, bundleDestination), cs)
  }

  /** Entry id = module id: for every chunk that gets an entry, once
      bundling succeeded, the id its stub boots is exactly the name of that
      chunk's module in the table, and it is the chunk's id in the table. */
  lemma EntryBootsItsModule(uid: nat, order: seq<string>, fm: map<string, string>,
                            chunks: seq<Chunk>, c: Chunk, bundleDestination: string)
    requires TableValid(uid, order, fm)
    requires c.destination.Path? && c.destination.path in fm
    ensures EntryChunk(c, fm, bundleDestination).state.content ==
            Some(EntryStub(RequiredPath(c.destination.path, bundleDestination), fm[c.destination.path]))
    ensures StubModuleId(EntryChunk(c, fm, bundleDestination).state.content.value) == Some(fm[c.destination.path])
    ensures ModuleName(ModuleCode(c, chunks, fm)) == Some(fm[c.destination.path])
  {
    var id := fm[c.destination.path];
    IdIsNumeral(uid, order, fm, c.destination.path);
    StubModuleIdOfEntryStub(RequiredPath(c.destination.path, bundleDestination), id);
    ModuleNameOfWrapCode(id, c.content, DepMapOf(c.dependencies, chunks, fm));
  }

  /** N chunks with N different destinations give N modules with N
      different names. */
  lemma ModuleNamesDistinct(uid: nat, order: seq<string>, fm: map<string, string>,
                            cs: seq<Chunk>, chunks: seq<Chunk>, i: nat, j: nat)
    requires TableValid(uid, order, fm)
    requires i < j < |cs|
    requires cs[i].destination.Path? && cs[i].destination.path in fm
    requires cs[j].destination.Path? && cs[j].destination.path in fm
    requires cs[i].destination != cs[j].destination
    ensures ModuleName(ModuleCodes(cs, chunks, fm)[i]) != ModuleName(ModuleCodes(cs, chunks, fm)[j])
  {
    var x, y := cs[i].destination.path, cs[j].destination.path;
    IdsDistinct(uid, order, fm, x, y);
    IdIsNumeral(uid, order, fm, x);
    IdIsNumeral(uid, order, fm, y);
    ModuleNameOfWrapCode(fm[x], cs[i].content, DepMapOf(cs[i].dependencies, chunks, fm));
    ModuleNameOfWrapCode(fm[y], cs[j].content, DepMapOf(cs[j].dependencies, chunks, fm));
  }

  // ---------------------------------------------------------------------
  // Stability: ids, once given, never change

  predicate Extends(fm: map<string, string>, fm': map<string, string>) {
    forall x :: x in fm ==> x in fm' && fm'[x] == fm[x]
  }

  predicate Covers(fm: map<string, string>, ds: seq<Destination>) {
    forall k :: 0 <= k < |ds| ==> DestPath(ds[k]) in fm
  }

  lemma {:induction false} DepMapStable(deps: seq<Dependency>, chunks: seq<Chunk>, fm: map<string, string>, fm': map<string, string>)
    requires Extends(fm, fm') && Covers(fm, DepTargets(deps, chunks))
    ensures DepMapOf(deps, chunks, fm) == DepMapOf(deps, chunks, fm')
    decreases |deps|
  {
    if deps != [] {
      var init := deps[..|deps| - 1];
      var ts := DepTargets(deps, chunks);
      assert DepTargets(init, chunks) <= ts;
      assert Covers(fm, DepTargets(init, chunks)) by {
        forall k | 0 <= k < |DepTargets(init, chunks)| ensures DestPath(DepTargets(init, chunks)[k]) in fm {
          assert DepTargets(init, chunks)[k] == ts[k];
        }
      }
      DepMapStable(init, chunks, fm, fm');
      var last := deps[|deps| - 1];
      if IsBundled(chunks, last.dependency) {
        assert ts[|ts| - 1] == OfOption(last.destination);
      }
    }
  }

  /** After remembering the i-th (bundled) dependency, the map built so far
      with the new table is that map extended by the new id. */
  lemma DepMapStep(deps: seq<Dependency>, chunks: seq<Chunk>, i: nat, fm: map<string, string>, fm': map<string, string>)
    requires i < |deps| && IsBundled(chunks, deps[i].dependency)
    requires Extends(fm, fm') && Covers(fm, DepTargets(deps[..i], chunks))
    ensures DepMapOf(deps[..i + 1], chunks, fm') ==
      SetProp(DepMapOf(deps[..i], chunks, fm), deps[i].required, Lookup(fm', DestPath(OfOption(deps[i].destination))))
  {
    DepMapStable(deps[..i], chunks, fm, fm');
    DepStep(deps, chunks, i);
  }

  /** A remembered path joins the covered targets. */
  lemma TargetStep(ts: seq<Destination>, t: Destination, fm: map<string, string>, fm': map<string, string>)
    requires AllPaths(ts) && Covers(fm, ts) && Extends(fm, fm')
    requires t.Path? && t.path in fm'
    ensures AllPaths(ts + [t]) && Covers(fm', ts + [t])
  {
    assert forall k :: 0 <= k < |ts| ==> (ts + [t])[k] == ts[k];
  }

  lemma ModuleCodeStable(c: Chunk, chunks: seq<Chunk>, fm: map<string, string>, fm': map<string, string>)
    requires Extends(fm, fm') && Covers(fm, Visits(c, chunks))
    ensures ModuleCode(c, chunks, fm) == ModuleCode(c, chunks, fm')
  {
    var vs := Visits(c, chunks);
    assert vs[0] == c.destination;
    assert Covers(fm, DepTargets(c.dependencies, chunks)) by {
      forall k | 0 <= k < |DepTargets(c.dependencies, chunks)|
        ensures DestPath(DepTargets(c.dependencies, chunks)[k]) in fm
      {
        assert DepTargets(c.dependencies, chunks)[k] == vs[k + 1];
      }
    }
    DepMapStable(c.dependencies, chunks, fm, fm');
  }

  lemma {:induction false} ModuleCodesStable(cs: seq<Chunk>, chunks: seq<Chunk>, fm: map<string, string>, fm': map<string, string>)
    requires Extends(fm, fm') && Covers(fm, AllVisits(cs, chunks))
    ensures ModuleCodes(cs, chunks, fm) == ModuleCodes(cs, chunks, fm')
    decreases |cs|
  {
    if cs != [] {
      var init := cs[..|cs| - 1];
      var last := cs[|cs| - 1];
      var all := AllVisits(cs, chunks);
      var a := AllVisits(init, chunks);
      assert all == a + Visits(last, chunks);
      assert Covers(fm, a) by {
        forall k | 0 <= k < |a| ensures DestPath(a[k]) in fm { assert a[k] == all[k]; }
      }
      assert Covers(fm, Visits(last, chunks)) by {
        forall k | 0 <= k < |Visits(last, chunks)| ensures DestPath(Visits(last, chunks)[k]) in fm {
          assert Visits(last, chunks)[k] == all[|a| + k];
        }
      }
      ModuleCodesStable(init, chunks, fm, fm');
      ModuleCodeStable(last, chunks, fm, fm');
    }
  }

  lemma CoversAddAll(uid: nat, o0: seq<string>, ds: seq<Destination>, fm: map<string, string>)
    requires TableValid(uid, AddAll(o0, ds), fm)
    ensures Covers(fm, ds)
  {
    AddAllMembers(o0, ds);
    forall k | 0 <= k < |ds| ensures DestPath(ds[k]) in fm {
      assert DestPath(ds[k]) in AddAll(o0, ds);
    }
  }

  // ---------------------------------------------------------------------
  // The bundler object

  class JSBundler {
    /** The chunks to bundle, fixed at construction. */
    const chunks: seq<Chunk>
    /** The next id to hand out. */
    var uid: nat
    /** Destination path to module id. */
    var fileMap: map<string, string>
    /** The remembered paths in first-seen order. */
    ghost var order: seq<string>

    ghost predicate Valid()
      reads this
    {
      TableValid(uid, order, fileMap)
    }

    constructor (chunks: seq<Chunk>)
      ensures Valid() && this.chunks == chunks
      ensures uid == 0 && fileMap == map[] && order == []
    {
      this.chunks := chunks;
      uid := 0;
      fileMap := map[];
      order := [];
    }

    /** `genUid`: the counter in base 32, then the counter advances. */
    method GenUid() returns (id: string)
      modifies this`uid
      ensures id == ToBase32(old(uid)) && uid == old(uid) + 1
    {
      id := ToBase32(uid);
      uid := uid + 1;
    }

    /** `remember`: the memoised id of a destination path; anything that is
        not a single path throws. */
    method Remember(file: Destination) returns (r: Result<string>)
      requires Valid()
      modifies this`uid, this`fileMap, this`order
      ensures Valid() && Extends(old(fileMap), fileMap)
      ensures r.Ok? <==> file.Path?
      ensures r.Err? ==> r.error == "File is a invalid string or not be provided"
      ensures !file.Path? ==> uid == old(uid) && fileMap == old(fileMap) && order == old(order)
      ensures file.Path? ==> order == AddNew(old(order), file.path) && r.value == fileMap[file.path]
      ensures file.Path? && file.path in old(fileMap) ==>
        r.value == old(fileMap)[file.path] && uid == old(uid) && fileMap == old(fileMap)
      ensures file.Path? && file.path !in old(fileMap) ==>
        r.value == ToBase32(old(uid)) && uid == old(uid) + 1 && fileMap == old(fileMap)[file.path := r.value]
    {
      if !file.Path? {
        return Err("File is a invalid string or not be provided");
      }
      var f := file.path;
      var found: Option<string> := if f in fileMap then Some(fileMap[f]) else None;
      if found.Some? {
        IdIsNumeral(uid, order, fileMap, f);
      }
      var id: string;
      if found.None? || found.value == "" {
        assert f !in fileMap;
        TableAdd(uid, order, fileMap, f);
        id := GenUid();
        fileMap := fileMap[f := id];
        order := order + [f];
      } else {
        id := found.value;
        assert f in order;
      }
      return Ok(id);
    }

    /** `wrapModule`: the id of the chunk's own destination, then the ids of
        its bundled dependencies, then the wrapped text. */
    method WrapModule(c: Chunk) returns (r: Result<string>)
      requires Valid()
      modifies this`uid, this`fileMap, this`order
      ensures Valid() && Extends(old(fileMap), fileMap)
      ensures r.Ok? <==> AllPaths(Visits(c, chunks))
      ensures r.Err? ==> r.error == "File is a invalid string or not be provided"
      ensures r.Ok? ==> order == AddAll(old(order), Visits(c, chunks)) && r.value == ModuleCode(c, chunks, fileMap)
    {
      var own := Remember(c.destination);
      if own.Err? {
        assert !Visits(c, chunks)[0].Path?;
        return Err(own.error);
      }
      var id := own.value;
      assert [c.destination][..0] == [];
      ghost var order1 := order;
      assert order1 == AddAll(old(order), [c.destination]);
      var deps := WrapDependencies(c.dependencies);
      AllPathsSplit([c.destination], DepTargets(c.dependencies, chunks));
      if deps.Err? {
        return Err(deps.error);
      }
      AddAllConcat(old(order), [c.destination], DepTargets(c.dependencies, chunks));
      return Ok(WrapCode(id, c.content, deps.value));
    }

    /** The dependency loop of `wrapModule`: the id of every bundled
        dependency, stored under its specifier. */
    method WrapDependencies(deps: seq<Dependency>) returns (r: Result<DepMap>)
      requires Valid()
      modifies this`uid, this`fileMap, this`order
      ensures Valid() && Extends(old(fileMap), fileMap)
      ensures r.Ok? <==> AllPaths(DepTargets(deps, chunks))
      ensures r.Err? ==> r.error == "File is a invalid string or not be provided"
      ensures r.Ok? ==> order == AddAll(old(order), DepTargets(deps, chunks)) && r.value == DepMapOf(deps, chunks, fileMap)
    {
      var m: DepMap := [];
      ghost var targets: seq<Destination> := [];
      var i := 0;
      assert deps[..0] == [];
      while i < |deps|
        invariant 0 <= i <= |deps|
        invariant Valid() && Extends(old(fileMap), fileMap)
        invariant targets == DepTargets(deps[..i], chunks)
        invariant AllPaths(targets) && Covers(fileMap, targets)
        invariant order == AddAll(old(order), targets)
        invariant m == DepMapOf(deps[..i], chunks, fileMap)
      {
        var d := deps[i];
        DepStep(deps, chunks, i);
        if IsBundled(chunks, d.dependency) {
          var fmBefore := fileMap;
          var dep := Remember(OfOption(d.destination));
          if dep.Err? {
            DepFailure(deps, chunks, i);
            return Err(dep.error);
          }
          DepMapStep(deps, chunks, i, fmBefore, fileMap);
          TargetStep(targets, OfOption(d.destination), fmBefore, fileMap);
          AddAllConcat(old(order), targets, [OfOption(d.destination)]);
          m := SetProp(m, d.required, dep.value);
          targets := targets + [OfOption(d.destination)];
        }
        i := i + 1;
      }
      assert deps[..i] == deps;
      return Ok(m);
    }

    /** `wrapModules`: every chunk wrapped in order, inside `{` … `}`. */
    method WrapModules(cs: seq<Chunk>) returns (r: Result<string>)
      requires Valid()
      modifies this`uid, this`fileMap, this`order
      ensures Valid() && Extends(old(fileMap), fileMap)
      ensures r.Ok? <==> AllPaths(AllVisits(cs, chunks))
      ensures r.Err? ==> r.error == "File is a invalid string or not be provided"
      ensures r.Ok? ==> order == AddAll(old(order), AllVisits(cs, chunks))
      ensures r.Ok? ==> r.value == ModuleTable(ModuleCodes(cs, chunks, fileMap))
    {
      var codes: seq<string> := [];
      var i := 0;
      while i < |cs|
        invariant 0 <= i <= |cs|
        invariant Valid() && Extends(old(fileMap), fileMap)
        invariant AllPaths(AllVisits(cs[..i], chunks))
        invariant order == AddAll(old(order), AllVisits(cs[..i], chunks))
        invariant codes == ModuleCodes(cs[..i], chunks, fileMap)
      {
        var fmBefore := fileMap;
        var prefix := AllVisits(cs[..i], chunks);
        ModulesStep(cs, i, chunks, fileMap);
        CoversAddAll(uid, old(order), prefix, fileMap);
        var w := WrapModule(cs[i]);
        if w.Err? {
          AllPathsSplit(prefix, Visits(cs[i], chunks));
          AllVisitsPrefix(cs, chunks, i + 1);
          return Err(w.error);
        }
        ModuleCodesStable(cs[..i], chunks, fmBefore, fileMap);
        ModulesStep(cs, i, chunks, fileMap);
        AllPathsSplit(prefix, Visits(cs[i], chunks));
        AddAllConcat(old(order), prefix, Visits(cs[i], chunks));
        codes := codes + [w.value];
        i := i + 1;
      }
      assert cs[..i] == cs;
      return Ok(ModuleTable(codes));
    }

    /** `wrapBundler`: the table wrapped as `(` … `, {})`. */
    method WrapBundler(cs: seq<Chunk>) returns (r: Result<string>)
      requires Valid()
      modifies this`uid, this`fileMap, this`order
      ensures Valid() && Extends(old(fileMap), fileMap)
      ensures r.Ok? <==> AllPaths(AllVisits(cs, chunks))
      ensures r.Err? ==> r.error == "File is a invalid string or not be provided"
      ensures r.Ok? ==> order == AddAll(old(order), AllVisits(cs, chunks))
      ensures r.Ok? ==> r.value == WrapBundlerCode(ModuleTable(ModuleCodes(cs, chunks, fileMap)))
    {
      var table := WrapModules(cs);
      if table.Err? {
        return Err(table.error);
      }
      return Ok(WrapBundlerCode(table.value));
    }

    /** `bundle`: the bundler chunk at `outDir/bundler.js` (the prelude
        followed by the wrapped table), then one entry chunk per chunk whose
        type is not BUNDLE, in input order. */
    method Bundle(outDir: string, prelude: string) returns (r: Result<seq<NewChunk>>)
      requires Valid()
      modifies this`uid, this`fileMap, this`order
      ensures Valid() && Extends(old(fileMap), fileMap)
      ensures r.Ok? <==> AllPaths(AllVisits(chunks, chunks))
      ensures r.Err? ==> r.error == "File is a invalid string or not be provided"
      ensures r.Ok? ==> order == AddAll(old(order), AllVisits(chunks, chunks))
      ensures r.Ok? ==> (r.value ==
        [BundlerChunk(outDir, prelude + WrapBundlerCode(ModuleTable(ModuleCodes(chunks, chunks, fileMap))))] +
        EntryChunks(NonBundle(chunks), fileMap, BundleDestination(outDir)))
    {
      var bundle := WrapBundler(chunks);
      if bundle.Err? {
        return Err(bundle.error);
      }
      var bundlerChunk := BundlerChunk(outDir, prelude + bundle.value);
      CoversAddAll(uid, old(order), AllVisits(chunks, chunks), fileMap);
      forall k | 0 <= k < |chunks| ensures chunks[k].destination.Path? && chunks[k].destination.path in fileMap {
        AllVisitsHasOwn(chunks, chunks, k);
      }
      var entries := WrapEntries(chunks, BundleDestination(outDir));
      return Ok([bundlerChunk] + entries);
    }

    /** The entry loop of `bundle`: every destination is already
        remembered, so it hands out no new id. */
    method WrapEntries(cs: seq<Chunk>, bundleDestination: string) returns (entries: seq<NewChunk>)
      requires Valid()
      requires forall k :: 0 <= k < |cs| ==> cs[k].destination.Path? && cs[k].destination.path in fileMap
      modifies this`uid, this`fileMap, this`order
      ensures Valid() && uid == old(uid) && fileMap == old(fileMap) && order == old(order)
      ensures entries == EntryChunks(NonBundle(cs), fileMap, bundleDestination)
    {
      entries := [];
      var fm := fileMap;
      var i := 0;
      assert cs[..0] == [];
      assert EntryChunks(NonBundle([]), fm, bundleDestination) == [];
      while i < |cs|
        invariant 0 <= i <= |cs|
        invariant Valid() && uid == old(uid) && fileMap == fm && order == old(order)
        invariant entries == EntryChunks(NonBundle(cs[..i]), fm, bundleDestination)
      {
        var c := cs[i];
        EntryChunksStep(cs, i, fm, bundleDestination);
        if !c.chunkType.Bundle? {
          var entry := WrapEntry(c, bundleDestination);
          entries := entries + [entry];
        }
        i := i + 1;
      }
      assert cs[..i] == cs;
    }

    /** The entry chunk of one non-bundle chunk whose destination is
        already in the table. */
    method WrapEntry(c: Chunk, bundleDestination: string) returns (entry: NewChunk)
      requires Valid()
      requires c.destination.Path? && c.destination.path in fileMap
      modifies this`uid, this`fileMap, this`order
      ensures Valid() && uid == old(uid) && fileMap == old(fileMap) && order == old(order)
      ensures entry == EntryChunk(c, fileMap, bundleDestination)
    {
      var id := Remember(EntryDestination(c.destination));
      var dest := DestPath(EntryDestination(c.destination));
      var stub := EntryStub(RequiredPath(dest, bundleDestination), id.value);
      entry := NewChunk(c.file, ChunkState(Some(Entry), Some(stub), Some(c.dependencies), c.sourceMap, None));
    }
  }

  /** One more chunk adds its visits and its wrapped code at the end. */
  lemma ModulesStep(cs: seq<Chunk>, i: nat, chunks: seq<Chunk>, fm: map<string, string>)
    requires i < |cs|
    ensures AllVisits(cs[..i + 1], chunks) == AllVisits(cs[..i], chunks) + Visits(cs[i], chunks)
    ensures ModuleCodes(cs[..i + 1], chunks, fm) == ModuleCodes(cs[..i], chunks, fm) + [ModuleCode(cs[i], chunks, fm)]
  {
    assert cs[..i + 1][..i] == cs[..i];
  }

  /** One more chunk adds its entry unless it is a bundle chunk. */
  lemma EntryChunksStep(cs: seq<Chunk>, i: nat, fm: map<string, string>, bundleDestination: string)
    requires i < |cs|
    ensures EntryChunks(NonBundle(cs[..i + 1]), fm, bundleDestination) ==
      EntryChunks(NonBundle(cs[..i]), fm, bundleDestination) +
      (if cs[i].chunkType.Bundle? then [] else [EntryChunk(cs[i], fm, bundleDestination)])
  {
    assert cs[..i + 1][..i] == cs[..i];
    if !cs[i].chunkType.Bundle? {
      assert NonBundle(cs[..i + 1]) == NonBundle(cs[..i]) + [cs[i]];
      EntryChunksAppend(NonBundle(cs[..i]), cs[i], fm, bundleDestination);
    } else {
      assert NonBundle(cs[..i + 1]) == NonBundle(cs[..i]);
    }
  }

  lemma EntryChunksAppend(cs: seq<Chunk>, c: Chunk, fm: map<string, string>, bundleDestination: string)
    ensures EntryChunks(cs + [c], fm, bundleDestination) == EntryChunks(cs, fm, bundleDestination) + [EntryChunk(c, fm, bundleDestination)]
  {
    assert (cs + [c])[..|cs|] == cs;
  }

  lemma AllPathsSplit(a: seq<Destination>, b: seq<Destination>)
    ensures AllPaths(a + b) <==> AllPaths(a) && AllPaths(b)
  {
    if AllPaths(a) && AllPaths(b) {
      forall k | 0 <= k < |a + b| ensures (a + b)[k].Path? {
        if k >= |a| { assert (a + b)[k] == b[k - |a|]; }
      }
    }
    if AllPaths(a + b) {
      forall k | 0 <= k < |b| ensures b[k].Path? { assert (a + b)[|a| + k] == b[k]; }
      forall k | 0 <= k < |a| ensures a[k].Path? { assert (a + b)[k] == a[k]; }
    }
  }

  /** A failure in the first `n` chunks is a failure of the whole list. */
  lemma {:induction false} AllVisitsPrefix(cs: seq<Chunk>, chunks: seq<Chunk>, n: nat)
    requires n <= |cs|
    ensures AllPaths(AllVisits(cs, chunks)) ==> AllPaths(AllVisits(cs[..n], chunks))
    decreases |cs|
  {
    if n < |cs| {
      var init := cs[..|cs| - 1];
      AllPathsSplit(AllVisits(init, chunks), Visits(cs[|cs| - 1], chunks));
      assert init[..n] == cs[..n];
      AllVisitsPrefix(init, chunks, n);
    } else {
      assert cs[..n] == cs;
    }
  }
}
