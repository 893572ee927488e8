/** The build orchestrator (`@wxparcel/core/src/libs/Parcel.ts`): the
    `running` guard of a build, the order of a build's steps, how the watcher
    classifies a changed or removed file, what `flush` writes, and which
    files are the entries. */
module Parcel {
  import opened Wrappers
  import opened Paths
  import opened Seqs
  import opened Typings
  import Utils
  import JR = JsonResolver

  const RunningMessage := "WXParcel is running"
  const NotChunksMessage := "Chunks is not a array or not be provided or be empty"
  const SourceMapPrefix := "//# sourceMappingURL=data:application/json;base64,"
  /** What writing to an absent destination fails with (Node's own error,
      not given word for word). */
  const NoPathMessage := "The \"path\" argument must be of type string"

  /** One written file: where, and the text. */
  datatype Write = Write(destination: string, content: string)

  /** One entry of the stats a flush resolves to: `{ assets, size }`. */
  datatype Stat = Stat(assets: string, size: nat)

  /** How a build ends: rejected by the guard, resolved with the stats, or
      failed with an error that is logged (the promise then resolves to
      `undefined`). */
  datatype RunOutcome = Rejected(message: string) | Finished(stats: seq<Stat>) | Failed(logged: string)

  /** `path.join(rootDir, './project.config.json')`. */
  function ProjectConfigFile(rootDir: string): string {
    Join(rootDir, "./project.config.json")
  }

  /** Only bundler and scatter chunks carry a source map. */
  predicate SourceMapped(chunk: Chunk, sourceMapOn: bool) {
    sourceMapOn && (chunk.chunkType == Bundler || chunk.chunkType == Scatter) && chunk.sourceMap.Some?
  }

  /** The text `flush` writes for `chunk`: its content without a byte order
      mark, followed, when `SourceMapped`, by a newline and the inline map
      comment (`encode` stands for `JSON.stringify` and base 64). */
  function OutputContent(chunk: Chunk, sourceMapOn: bool, encode: string -> string): (r: string)
    ensures Utils.StripBomText(chunk.content) <= r
    ensures r == Utils.StripBomText(chunk.content) <==> !SourceMapped(chunk, sourceMapOn)
    ensures SourceMapped(chunk, sourceMapOn) ==>
      r == Utils.StripBomText(chunk.content) + "\n" + SourceMapPrefix + encode(chunk.sourceMap.value)
  {
    var content := Utils.StripBomText(chunk.content);
    if SourceMapped(chunk, sourceMapOn) then content + "\n" + SourceMapPrefix + encode(chunk.sourceMap.value)
    else content
  }

  /** `Array.isArray(destination) ? destination : [destination]`; writing
      to an absent destination fails. */
  function Destinations(d: Destination): Result<seq<string>> {
    match d
    case Path(p) => Ok([p])
    case Paths(ps) => Ok(ps)
    case Unset => Err(NoPathMessage)
  }

  /** The same text to every destination of one chunk. */
  function ChunkWrites(chunk: Chunk, sourceMapOn: bool, encode: string -> string): (r: Result<seq<Write>>)
    ensures r.Ok? <==> Destinations(chunk.destination).Ok?
    ensures r.Ok? ==> |r.value| == |Destinations(chunk.destination).value|
    ensures r.Ok? ==> forall k :: 0 <= k < |r.value| ==>
      r.value[k] == Write(Destinations(chunk.destination).value[k], OutputContent(chunk, sourceMapOn, encode))
  {
    var ds :- Destinations(chunk.destination);
    var content := OutputContent(chunk, sourceMapOn, encode);
    Ok(seq(|ds|, k requires 0 <= k < |ds| => Write(ds[k], content)))
  }

  /** Every chunk's writes, flattened in chunk order; the first chunk that
      fails fails the whole. */
  function AllWrites(chunks: seq<Chunk>, sourceMapOn: bool, encode: string -> string): Result<seq<Write>>
    decreases |chunks|
  {
    if chunks == [] then Ok([])
    else
      var first :- ChunkWrites(chunks[0], sourceMapOn, encode);
      var rest :- AllWrites(chunks[1..], sourceMapOn, encode);
      Ok(first + rest)
  }

  /** `{ assets: destination, size: content.length }` for each write. */
  function StatsOf(writes: seq<Write>): (r: seq<Stat>)
    ensures |r| == |writes|
    ensures forall k :: 0 <= k < |r| ==> r[k] == Stat(writes[k].destination, |writes[k].content|)
  {
    seq(|writes|, k requires 0 <= k < |writes| => Stat(writes[k].destination, |writes[k].content|))
  }

  /** `flush(chunks)`: `None` stands for a value that is not an array. */
  function Flush(chunks: Option<seq<Chunk>>, sourceMapOn: bool, encode: string -> string): (r: Result<seq<Write>>)
    ensures (chunks.None? || chunks.value == []) ==> r == Err(NotChunksMessage)
  {
    if chunks.None? || chunks.value == [] then Err(NotChunksMessage)
    else AllWrites(chunks.value, sourceMapOn, encode)
  }

  /** A flush of chunks that all have a destination succeeds, and writes,
      chunk after chunk, each chunk's one text to each of its destinations. */
  lemma {:induction false} AllWritesSpec(chunks: seq<Chunk>, sourceMapOn: bool, encode: string -> string)
    requires forall k :: 0 <= k < |chunks| ==> !chunks[k].destination.Unset?
    ensures AllWrites(chunks, sourceMapOn, encode).Ok?
    ensures AllWrites(chunks, sourceMapOn, encode).value ==
      Flatten(seq(|chunks|, k requires 0 <= k < |chunks| => ChunkWrites(chunks[k], sourceMapOn, encode).value))
    decreases |chunks|
  {
    var per := seq(|chunks|, k requires 0 <= k < |chunks| => ChunkWrites(chunks[k], sourceMapOn, encode).value);
    if chunks != [] {
      assert ChunkWrites(chunks[0], sourceMapOn, encode).Ok?;
      AllWritesSpec(chunks[1..], sourceMapOn, encode);
      var per' := seq(|chunks[1..]|, k requires 0 <= k < |chunks[1..]| => ChunkWrites(chunks[1..][k], sourceMapOn, encode).value);
      assert per[1..] == per';
    }
  }

  /** A chunk with no destination fails the flush. */
  lemma {:induction false} AllWritesUnset(chunks: seq<Chunk>, i: nat, sourceMapOn: bool, encode: string -> string)
    requires i < |chunks| && chunks[i].destination.Unset?
    ensures AllWrites(chunks, sourceMapOn, encode).Err?
    decreases i
  {
    if i > 0 {
      AllWritesUnset(chunks[1..], i - 1, sourceMapOn, encode);
    }
  }

  /** Every write of a flush is one destination of one chunk, and it holds
      that chunk's output text; the stats give each write's size. */
  lemma FlushContents(chunks: seq<Chunk>, sourceMapOn: bool, encode: string -> string)
    requires chunks != [] && forall k :: 0 <= k < |chunks| ==> !chunks[k].destination.Unset?
    ensures var r := Flush(Some(chunks), sourceMapOn, encode);
      r.Ok? &&
      (forall w :: w in r.value <==> exists k :: 0 <= k < |chunks| && w in ChunkWrites(chunks[k], sourceMapOn, encode).value) &&
      (forall w :: w in r.value ==> exists k :: 0 <= k < |chunks| && w.content == OutputContent(chunks[k], sourceMapOn, encode))
  {
    AllWritesSpec(chunks, sourceMapOn, encode);
    var per := seq(|chunks|, k requires 0 <= k < |chunks| => ChunkWrites(chunks[k], sourceMapOn, encode).value);
    FlattenMembers(per);
    forall k | 0 <= k < |chunks| ensures per[k] == ChunkWrites(chunks[k], sourceMapOn, encode).value {
    }
    forall w | w in Flush(Some(chunks), sourceMapOn, encode).value
      ensures exists k :: 0 <= k < |chunks| && w.content == OutputContent(chunks[k], sourceMapOn, encode)
    {
      var k :| 0 <= k < |per| && w in per[k];
      var j :| 0 <= j < |per[k]| && per[k][j] == w;
      assert w.content == OutputContent(chunks[k], sourceMapOn, encode);
    }
  }

  /** Chunks that are not bundler or scatter chunks are written as their
      content without the mark, whatever the source-map option says. */
  lemma PlainChunkNoSourceMap(chunk: Chunk, sourceMapOn: bool, encode: string -> string)
    requires chunk.chunkType == Bundle || chunk.chunkType == Entry
    ensures OutputContent(chunk, sourceMapOn, encode) == Utils.StripBomText(chunk.content)
  {
  }

  /** `minimatch(file, pattern)` for some pattern of the ignore list. */
  predicate IsIgnored(file: string, ignoreFiles: seq<Pattern>, minimatch: Tester) {
    exists k :: 0 <= k < |ignoreFiles| && minimatch(ignoreFiles[k], file)
  }

  /** What `handleFileChanged` does with a changed or added file. */
  datatype ChangeAction =
    | Ignored
    | ReloadAppConfig
    | Recompile
    | RecompileDependents(involved: seq<string>)
    | Untracked

  /** The second argument `options.change` is called with, if called. */
  function ChangeNotice(a: ChangeAction): Option<bool> {
    match a
    case Ignored => None
    case Untracked => Some(false)
    case _ => Some(true)
  }

  /** The files a change makes `compile` refresh and transform:
      `involvedFiles.length > 0 ? involvedFiles : file`. */
  function TransformInputs(file: string, involved: seq<string>): (r: seq<string>)
    ensures r != []
    ensures |involved| > 0 ==> r == involved
    ensures involved == [] ==> r == [file]
  {
    if |involved| > 0 then involved else [file]
  }

  /** Some chunk of the registry is for `file` (`GlobalAssets.exists`). */
  predicate Tracked(chunks: seq<Chunk>, file: string) {
    exists k :: 0 <= k < |chunks| && chunks[k].file == file
  }

  /** The cascade of `handleFileChanged`: `dependents` are the files of
      the chunks depending on `file` (`findChunkByDependent`). */
  function Classify(ignored: bool, isAppConfig: bool, tracked: bool, dependents: seq<string>): ChangeAction {
    if ignored then Ignored
    else if isAppConfig then ReloadAppConfig
    else if tracked then Recompile
    else if |dependents| > 0 then RecompileDependents(dependents)
    else Untracked
  }

  /** Each outcome in terms of the tests that lead to it: a test wins over
      every later one, and `change(file, true)` is reported exactly when a
      compilation is started. */
  lemma ClassifySpec(ignored: bool, isAppConfig: bool, tracked: bool, dependents: seq<string>)
    ensures var a := Classify(ignored, isAppConfig, tracked, dependents);
      (a == Ignored <==> ignored) &&
      (a == ReloadAppConfig <==> !ignored && isAppConfig) &&
      (a == Recompile <==> !ignored && !isAppConfig && tracked) &&
      (a.RecompileDependents? <==> !ignored && !isAppConfig && !tracked && dependents != []) &&
      (a.RecompileDependents? ==> a.involved == dependents) &&
      (a == Untracked <==> !ignored && !isAppConfig && !tracked && dependents == []) &&
      (ChangeNotice(a) == Some(true) <==> a.ReloadAppConfig? || a.Recompile? || a.RecompileDependents?)
  {
  }

  /** The registry without the first chunk for `file` (`GlobalAssets.del`). */
  function RemoveChunk(chunks: seq<Chunk>, file: string): (r: seq<Chunk>)
    ensures |r| <= |chunks|
    decreases |chunks|
  {
    if chunks == [] then []
    else if chunks[0].file == file then chunks[1..]
    else [chunks[0]] + RemoveChunk(chunks[1..], file)
  }

  /** The number of chunks for `file`. */
  function CountFile(chunks: seq<Chunk>, file: string): nat
    decreases |chunks|
  {
    if chunks == [] then 0 else (if chunks[0].file == file then 1 else 0) + CountFile(chunks[1..], file)
  }

  /** Removing takes away one chunk for the file when there is one, and no
      chunk for another file. */
  lemma {:induction false} RemoveChunkSpec(chunks: seq<Chunk>, file: string, other: string)
    requires other != file
    ensures CountFile(RemoveChunk(chunks, file), other) == CountFile(chunks, other)
    ensures Tracked(chunks, file) ==> CountFile(RemoveChunk(chunks, file), file) == CountFile(chunks, file) - 1
    ensures !Tracked(chunks, file) ==> RemoveChunk(chunks, file) == chunks
    decreases |chunks|
  {
    if chunks != [] {
      RemoveChunkSpec(chunks[1..], file, other);
      if chunks[0].file != file {
        var r' := RemoveChunk(chunks[1..], file);
        assert ([chunks[0]] + r')[1..] == r';
        if Tracked(chunks, file) {
          var k :| 0 <= k < |chunks| && chunks[k].file == file;
          assert chunks[1..][k - 1].file == file;
        }
        if !Tracked(chunks, file) {
          forall k | 0 <= k < |chunks[1..]| ensures chunks[1..][k].file != file {
            assert chunks[1..][k] == chunks[k + 1];
          }
          assert chunks == [chunks[0]] + chunks[1..];
        }
      }
    }
  }

  lemma {:induction false} CountTracked(chunks: seq<Chunk>, file: string)
    ensures Tracked(chunks, file) <==> CountFile(chunks, file) > 0
    decreases |chunks|
  {
    if chunks != [] {
      CountTracked(chunks[1..], file);
      if Tracked(chunks[1..], file) {
        var k :| 0 <= k < |chunks[1..]| && chunks[1..][k].file == file;
        assert chunks[k + 1].file == file;
      }
      if Tracked(chunks, file) && chunks[0].file != file {
        var k :| 0 <= k < |chunks| && chunks[k].file == file;
        assert chunks[1..][k - 1].file == file;
      }
    }
  }

  /** A file held once is no longer tracked after it is removed. */
  lemma UnlinkForgets(chunks: seq<Chunk>, file: string)
    requires CountFile(chunks, file) == 1
    ensures !Tracked(RemoveChunk(chunks, file), file)
  {
    CountTracked(chunks, file);
    RemoveChunkSpec(chunks, file, file + "/");
    CountTracked(RemoveChunk(chunks, file), file);
  }

  /** `chunk.update({ content: readFile(chunk.file) })` on the first chunk
      for each tracked file of `files`, in order. */
  function Refreshed(chunks: seq<Chunk>, files: seq<string>, readFile: string -> string): seq<Chunk>
    decreases |files|
  {
    if files == [] then chunks
    else Refreshed(RefreshOne(chunks, files[0], readFile), files[1..], readFile)
  }

  function RefreshOne(chunks: seq<Chunk>, file: string, readFile: string -> string): seq<Chunk>
    decreases |chunks|
  {
    if chunks == [] then []
    else if chunks[0].file == file then [chunks[0].(content := readFile(chunks[0].file))] + chunks[1..]
    else [chunks[0]] + RefreshOne(chunks[1..], file, readFile)
  }

  /** Refreshing keeps the registry's chunks, their order and everything
      but their content; a content that changes is the file as read. */
  predicate SameButContent(a: seq<Chunk>, b: seq<Chunk>, readFile: string -> string) {
    |a| == |b| &&
    forall k :: 0 <= k < |a| ==> b[k] == a[k] || b[k] == a[k].(content := readFile(a[k].file))
  }

  lemma {:induction false} RefreshOneSpec(chunks: seq<Chunk>, file: string, readFile: string -> string)
    ensures SameButContent(chunks, RefreshOne(chunks, file, readFile), readFile)
    decreases |chunks|
  {
    if chunks != [] && chunks[0].file != file {
      RefreshOneSpec(chunks[1..], file, readFile);
      var r := RefreshOne(chunks, file, readFile);
      forall k | 0 <= k < |chunks|
        ensures r[k] == chunks[k] || r[k] == chunks[k].(content := readFile(chunks[k].file))
      {
        if k > 0 {
          assert r[k] == RefreshOne(chunks[1..], file, readFile)[k - 1];
        }
      }
    }
  }

  lemma {:induction false} RefreshedSpec(chunks: seq<Chunk>, files: seq<string>, readFile: string -> string)
    ensures SameButContent(chunks, Refreshed(chunks, files, readFile), readFile)
    decreases |files|
  {
    if files != [] {
      var c1 := RefreshOne(chunks, files[0], readFile);
      RefreshOneSpec(chunks, files[0], readFile);
      RefreshedSpec(c1, files[1..], readFile);
      var r := Refreshed(chunks, files, readFile);
      forall k | 0 <= k < |chunks|
        ensures r[k] == chunks[k] || r[k] == chunks[k].(content := readFile(chunks[k].file))
      {
        assert c1[k].file == chunks[k].file;
      }
    }
  }

  /** `flattenDeep`, then `filter(chunk => chunk)`: the chunks of every
      group that is there (`None` is a bundler that had nothing to bundle). */
  function Present(groups: seq<Option<seq<Chunk>>>): seq<Chunk>
    decreases |groups|
  {
    if groups == [] then []
    else (if groups[0].Some? then groups[0].value else []) + Present(groups[1..])
  }

  /** `uniqBy(chunks, 'file')` with the files of `seen` already taken. */
  function UniqByFile(chunks: seq<Chunk>, seen: set<string>): seq<Chunk>
    decreases |chunks|
  {
    if chunks == [] then []
    else if chunks[0].file in seen then UniqByFile(chunks[1..], seen)
    else [chunks[0]] + UniqByFile(chunks[1..], seen + {chunks[0].file})
  }

  /** What `transform` resolves to. */
  function Dedupe(groups: seq<Option<seq<Chunk>>>): seq<Chunk> {
    UniqByFile(Present(groups), {})
  }

  /** `uniqBy` keeps at most one chunk per file, and none whose file was
      already taken. */
  lemma {:induction false} UniqByFileDistinct(chunks: seq<Chunk>, seen: set<string>)
    ensures forall j :: 0 <= j < |UniqByFile(chunks, seen)| ==> UniqByFile(chunks, seen)[j].file !in seen
    ensures forall i, j :: 0 <= i < j < |UniqByFile(chunks, seen)| ==> UniqByFile(chunks, seen)[i].file != UniqByFile(chunks, seen)[j].file
    decreases |chunks|
  {
    if chunks != [] {
      if chunks[0].file in seen {
        UniqByFileDistinct(chunks[1..], seen);
        assert UniqByFile(chunks, seen) == UniqByFile(chunks[1..], seen);
      } else {
        UniqByFileDistinct(chunks[1..], seen + {chunks[0].file});
        var r' := UniqByFile(chunks[1..], seen + {chunks[0].file});
        var r := [chunks[0]] + r';
        assert UniqByFile(chunks, seen) == r;
        assert forall j :: 0 < j < |r| ==> r[j] == r'[j - 1];
      }
    }
  }

  /** No file is lost: every file not already taken has a chunk. */
  lemma {:induction false} UniqByFileCovers(chunks: seq<Chunk>, seen: set<string>)
    ensures forall k :: 0 <= k < |chunks| && chunks[k].file !in seen ==>
      exists j :: 0 <= j < |UniqByFile(chunks, seen)| && UniqByFile(chunks, seen)[j].file == chunks[k].file
    decreases |chunks|
  {
    if chunks != [] {
      var c, rest := chunks[0], chunks[1..];
      if c.file in seen {
        UniqByFileCovers(rest, seen);
        assert UniqByFile(chunks, seen) == UniqByFile(rest, seen);
        forall k | 0 <= k < |chunks| && chunks[k].file !in seen
          ensures exists j :: 0 <= j < |UniqByFile(rest, seen)| && UniqByFile(rest, seen)[j].file == chunks[k].file
        {
          assert rest[k - 1] == chunks[k];
        }
      } else {
        var seen' := seen + {c.file};
        UniqByFileCovers(rest, seen');
        var r' := UniqByFile(rest, seen');
        var r := [c] + r';
        assert UniqByFile(chunks, seen) == r;
        forall k | 0 <= k < |chunks| && chunks[k].file !in seen
          ensures exists j :: 0 <= j < |r| && r[j].file == chunks[k].file
        {
          if chunks[k].file == c.file {
            assert r[0].file == chunks[k].file;
          } else {
            assert rest[k - 1] == chunks[k];
            var j :| 0 <= j < |r'| && r'[j].file == chunks[k].file;
            assert r[j + 1].file == chunks[k].file;
          }
        }
      }
    }
  }

  /** The chunk kept for a file is the first chunk for that file. */
  predicate FirstFor(chunks: seq<Chunk>, c: Chunk) {
    exists k :: 0 <= k < |chunks| && chunks[k] == c && forall m :: 0 <= m < k ==> chunks[m].file != c.file
  }

  lemma FirstForCons(c: Chunk, rest: seq<Chunk>, x: Chunk)
    requires FirstFor(rest, x) && x.file != c.file
    ensures FirstFor([c] + rest, x)
  {
    var chunks := [c] + rest;
    var k :| 0 <= k < |rest| && rest[k] == x && forall m :: 0 <= m < k ==> rest[m].file != x.file;
    assert chunks[k + 1] == x;
    forall m | 0 <= m < k + 1 ensures chunks[m].file != x.file {
      if m > 0 {
        assert chunks[m] == rest[m - 1];
      }
    }
  }

  /** `uniqBy` keeps the first chunk of each file. */
  lemma {:induction false} UniqByFileFirst(chunks: seq<Chunk>, seen: set<string>)
    ensures forall j :: 0 <= j < |UniqByFile(chunks, seen)| ==> FirstFor(chunks, UniqByFile(chunks, seen)[j])
    decreases |chunks|
  {
    if chunks != [] {
      var c, rest := chunks[0], chunks[1..];
      assert chunks == [c] + rest;
      if c.file in seen {
        UniqByFileFirst(rest, seen);
        UniqByFileDistinct(rest, seen);
        var r := UniqByFile(rest, seen);
        assert UniqByFile(chunks, seen) == r;
        forall j | 0 <= j < |r| ensures FirstFor(chunks, r[j]) {
          assert FirstFor(rest, r[j]) && r[j].file !in seen;
          FirstForCons(c, rest, r[j]);
        }
      } else {
        var seen' := seen + {c.file};
        UniqByFileFirst(rest, seen');
        UniqByFileDistinct(rest, seen');
        var r' := UniqByFile(rest, seen');
        var r := [c] + r';
        assert UniqByFile(chunks, seen) == r;
        forall j | 0 <= j < |r| ensures FirstFor(chunks, r[j]) {
          if j == 0 {
            assert chunks[0] == r[0];
          } else {
            assert r[j] == r'[j - 1];
            assert FirstFor(rest, r'[j - 1]) && r'[j - 1].file !in seen';
            FirstForCons(c, rest, r'[j - 1]);
          }
        }
      }
    }
  }

  /** What `transform` resolves to has one chunk per file, the first one
      any group gave, and every file of every group. */
  lemma DedupeSpec(groups: seq<Option<seq<Chunk>>>)
    ensures var r := Dedupe(groups);
      var all := Present(groups);
      (forall i, j :: 0 <= i < j < |r| ==> r[i].file != r[j].file) &&
      (forall k :: 0 <= k < |all| ==> exists j :: 0 <= j < |r| && r[j].file == all[k].file) &&
      (forall j :: 0 <= j < |r| ==> FirstFor(all, r[j]))
  {
    UniqByFileDistinct(Present(groups), {});
    UniqByFileCovers(Present(groups), {});
    UniqByFileFirst(Present(groups), {});
  }

  /** The entry list of `run`: the app module's files, then the plugin's
      manifest and script when `pluginRoot` is set. */
  function EntryList(appFiles: seq<string>, pluginRoot: Option<string>): (r: seq<string>)
    ensures appFiles <= r
    ensures Truthy(pluginRoot) ==> r == appFiles + [Join(pluginRoot.value, "plugin.json"), Join(pluginRoot.value, "index.js")]
    ensures !Truthy(pluginRoot) ==> r == appFiles
  {
    if Truthy(pluginRoot) then appFiles + [Join(pluginRoot.value, "plugin.json"), Join(pluginRoot.value, "index.js")]
    else appFiles
  }

  /** `findEntries()`: the `app` module of `miniprogramRoot` (an unset root
      is `""`); the search throws for a missing folder. */
  method FindEntries(miniprogramRoot: string, pluginRoot: Option<string>, env: JR.Env) returns (r: Result<seq<string>>)
    ensures var m := JR.FindModule("app", miniprogramRoot, env);
      (m.Err? ==> r == Err(m.error)) && (m.Ok? ==> r == Ok(EntryList(m.value.files, pluginRoot)))
  {
    var entryModule := JR.FindModule("app", miniprogramRoot, env);
    if entryModule.Err? {
      return Err(entryModule.error);
    }
    var entries := entryModule.value.files;
    if Truthy(pluginRoot) {
      entries := entries + [Join(pluginRoot.value, "plugin.json")];
      entries := entries + [Join(pluginRoot.value, "index.js")];
      assert entries == entryModule.value.files + [Join(pluginRoot.value, "plugin.json"), Join(pluginRoot.value, "index.js")];
    }
    return Ok(entries);
  }

  /** An entry is one of the app module's files or one of the plugin's two
      files. */
  lemma EntriesFrom(appFiles: seq<string>, pluginRoot: Option<string>, f: string)
    ensures f in EntryList(appFiles, pluginRoot) <==>
      f in appFiles || (Truthy(pluginRoot) && (f == Join(pluginRoot.value, "plugin.json") || f == Join(pluginRoot.value, "index.js")))
  {
  }

  /** The build after the guard, as a function of what the steps give:
      `entries` is what `findEntries` gave, `compile` what
      `multiCompile` leaves in the registry, `bundle` the bundler. */
  function RunResult(rootDir: string, entries: Result<seq<string>>, existing: set<string>, registry: seq<Chunk>,
                     compile: (seq<Chunk>, seq<string>) -> seq<Chunk>, useBundle: bool,
                     bundle: seq<Chunk> -> seq<Chunk>, sourceMapOn: bool, encode: string -> string): RunOutcome
  {
    if entries.Err? then Failed(entries.error)
    else if ProjectConfigFile(rootDir) !in existing then Failed(ProjectConfigFile(rootDir) + " is not provided")
    else
      var chunks := compile(registry, [ProjectConfigFile(rootDir)] + entries.value);
      var flushed := Flush(Some(if useBundle then bundle(chunks) else chunks), sourceMapOn, encode);
      if flushed.Err? then Failed(flushed.error) else Finished(StatsOf(flushed.value))
  }

  /** The registry after the build. */
  function RunRegistry(rootDir: string, entries: Result<seq<string>>, existing: set<string>, registry: seq<Chunk>,
                       compile: (seq<Chunk>, seq<string>) -> seq<Chunk>): seq<Chunk>
  {
    if entries.Err? || ProjectConfigFile(rootDir) !in existing then registry
    else compile(registry, [ProjectConfigFile(rootDir)] + entries.value)
  }

  /** A build never rejects past the guard; without a project file it fails
      naming that file and compiles nothing; otherwise the project file is
      compiled first, then the entries, and an empty result fails the
      flush. */
  lemma RunResultSpec(rootDir: string, entries: Result<seq<string>>, existing: set<string>, registry: seq<Chunk>,
                      compile: (seq<Chunk>, seq<string>) -> seq<Chunk>, useBundle: bool,
                      bundle: seq<Chunk> -> seq<Chunk>, sourceMapOn: bool, encode: string -> string)
    ensures var r := RunResult(rootDir, entries, existing, registry, compile, useBundle, bundle, sourceMapOn, encode);
      !r.Rejected? &&
      (entries.Ok? && ProjectConfigFile(rootDir) !in existing ==>
         r == Failed(ProjectConfigFile(rootDir) + " is not provided") &&
         RunRegistry(rootDir, entries, existing, registry, compile) == registry) &&
      ((entries.Ok? && ProjectConfigFile(rootDir) in existing && !useBundle &&
        compile(registry, [ProjectConfigFile(rootDir)] + entries.value) == []) ==> r == Failed(NotChunksMessage))
  {
  }

  /** The orchestrator: the `running` flag and the chunk registry it
      builds into. */
  class Parcel {
    var running: bool
    var chunks: seq<Chunk>

    constructor (registry: seq<Chunk>)
      ensures !running && chunks == registry
    {
      running := false;
      chunks := registry;
    }

    /** `run()`: rejected while another build runs; otherwise the steps
        run with `running` set, and `running` is cleared however they end. */
    method Run(rootDir: string, miniprogramRoot: string, pluginRoot: Option<string>, env: JR.Env, existing: set<string>,
               compile: (seq<Chunk>, seq<string>) -> seq<Chunk>, useBundle: bool,
               bundle: seq<Chunk> -> seq<Chunk>, sourceMapOn: bool, encode: string -> string)
      returns (outcome: RunOutcome)
      modifies this
      ensures old(running) ==> outcome == Rejected(RunningMessage) && running && chunks == old(chunks)
      ensures !old(running) ==> !running
      ensures !old(running) ==>
        var m := JR.FindModule("app", miniprogramRoot, env);
        var entries := if m.Err? then Err(m.error) else Ok(EntryList(m.value.files, pluginRoot));
        outcome == RunResult(rootDir, entries, existing, old(chunks), compile, useBundle, bundle, sourceMapOn, encode) &&
        chunks == RunRegistry(rootDir, entries, existing, old(chunks), compile)
    {
      if running {
        return Rejected(RunningMessage);
      }
      running := true;
      var entries := FindEntries(miniprogramRoot, pluginRoot, env);
      if entries.Err? {
        outcome := Failed(entries.error);
      } else {
        var projectConfigFile := ProjectConfigFile(rootDir);
        if projectConfigFile !in existing {
          outcome := Failed(projectConfigFile + " is not provided");
        } else {
          var list := [projectConfigFile] + entries.value;
          chunks := compile(chunks, list);
          var flushed := Flush(Some(if useBundle then bundle(chunks) else chunks), sourceMapOn, encode);
          outcome := if flushed.Err? then Failed(flushed.error) else Finished(StatsOf(flushed.value));
        }
      }
      running := false;
    }

    /** `handleFileChanged(file)`: `appConfigFile` is the manifest file
        read when `watch` was called. */
    method HandleFileChanged(file: string, ignoreFiles: seq<Pattern>, minimatch: Tester, appConfigFile: Option<string>,
                             dependents: string -> seq<string>) returns (action: ChangeAction)
      ensures action == Classify(IsIgnored(file, ignoreFiles, minimatch), appConfigFile == Some(file),
                                 Tracked(chunks, file), dependents(file))
    {
      var ignored := false;
      for k := 0 to |ignoreFiles|
        invariant ignored <==> exists j :: 0 <= j < k && minimatch(ignoreFiles[j], file)
      {
        if minimatch(ignoreFiles[k], file) {
          ignored := true;
        }
      }
      if ignored {
        return Ignored;
      }
      if appConfigFile == Some(file) {
        return ReloadAppConfig;
      }
      if Tracked(chunks, file) {
        return Recompile;
      }
      var involved := dependents(file);
      if |involved| > 0 {
        return RecompileDependents(involved);
      }
      return Untracked;
    }

    /** `handleFileUnlink(file)`: a tracked file that is not ignored is
        reported to `options.unlink` and its chunk is removed. */
    method HandleFileUnlink(file: string, ignoreFiles: seq<Pattern>, minimatch: Tester) returns (notified: Option<string>)
      modifies this
      ensures running == old(running)
      ensures !IsIgnored(file, ignoreFiles, minimatch) && Tracked(old(chunks), file) ==>
        notified == Some(file) && chunks == RemoveChunk(old(chunks), file)
      ensures IsIgnored(file, ignoreFiles, minimatch) || !Tracked(old(chunks), file) ==>
        notified.None? && chunks == old(chunks)
    {
      notified := None;
      if IsIgnored(file, ignoreFiles, minimatch) {
        return;
      }
      if Tracked(chunks, file) {
        notified := Some(file);
        chunks := RemoveChunk(chunks, file);
      }
    }

    /** The start of `compile(file, involvedFiles)`: the chunk of `file`,
        then those of the involved files, are reloaded from disk, and the
        files to transform are chosen; `running` is set meanwhile and
        cleared at the end. */
    method Compile(file: string, involved: seq<string>, readFile: string -> string) returns (toTransform: seq<string>)
      modifies this
      ensures !running
      ensures chunks == Refreshed(old(chunks), [file] + involved, readFile)
      ensures toTransform == TransformInputs(file, involved)
    {
      running := true;
      chunks := RefreshOne(chunks, file, readFile);
      ghost var start := chunks;
      for k := 0 to |involved|
        invariant chunks == Refreshed(start, involved[..k], readFile)
      {
        RefreshedSnoc(start, involved[..k], involved[k], readFile);
        assert involved[..k + 1] == involved[..k] + [involved[k]];
        chunks := RefreshOne(chunks, involved[k], readFile);
      }
      assert involved[..|involved|] == involved;
      assert ([file] + involved)[1..] == involved;
      toTransform := TransformInputs(file, involved);
      running := false;
    }
  }

  lemma {:induction false} RefreshedSnoc(chunks: seq<Chunk>, files: seq<string>, f: string, readFile: string -> string)
    ensures Refreshed(chunks, files + [f], readFile) == RefreshOne(Refreshed(chunks, files, readFile), f, readFile)
    decreases |files|
  {
    if files == [] {
      assert files + [f] == [f];
    } else {
      assert (files + [f])[1..] == files[1..] + [f];
      RefreshedSnoc(RefreshOne(chunks, files[0], readFile), files[1..], f, readFile);
    }
  }
}
