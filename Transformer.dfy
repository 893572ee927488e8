/** The base transformer (`@wxparcel-transformer/base/src/Transformer.ts`):
    the identity transform, alias lookup, the reverse basename search over
    glob results, and the rewriting of source paths into output paths. */
module Transformer {
  import opened Wrappers
  import opened Strings
  import opened Paths
  import opened Typings

  /** The option manager's directories the transformer reads. */
  datatype Directories = Directories(rootDir: string, srcDir: string, outDir: string, npmDir: string)

  /** A transformer: the file it works on, its source and its options. */
  datatype Transformer = Transformer(file: string, source: string, options: Directories)

  /** `{ code, map, ast, dependencies }` (`map` is `sourceMap` here). */
  datatype TransformResult = TransformResult(code: string, sourceMap: Option<string>, ast: Option<string>, dependencies: seq<string>)

  /** An alias table `{ [glob]: candidates }`, in key order. */
  type Alias = seq<(string, seq<string>)>

  /** `transform()`: the source comes back unchanged, with no map, no AST
      and no dependencies. */
  function Transform(t: Transformer): (r: TransformResult)
    ensures r.code == t.source
    ensures r.sourceMap.None? && r.ast.None? && r.dependencies == []
  {
    TransformResult(t.source, None, None, [])
  }

  /** `Object.keys(alias).find(name => minimatch(pattern, name))`: the index
      of the first key whose glob matches, or -1. */
  function FindKey(pattern: string, alias: Alias, minimatch: Tester): (i: int)
    ensures -1 <= i < |alias|
    ensures i == -1 <==> forall k :: 0 <= k < |alias| ==> !minimatch(Pattern(alias[k].0), pattern)
    ensures i >= 0 ==> minimatch(Pattern(alias[i].0), pattern) &&
                       forall k :: 0 <= k < i ==> !minimatch(Pattern(alias[k].0), pattern)
    decreases |alias|
  {
    if alias == [] then -1
    else if minimatch(Pattern(alias[0].0), pattern) then 0
    else
      var j := FindKey(pattern, alias[1..], minimatch);
      if j == -1 then -1 else j + 1
  }

  /** `matchAlias(pattern, alias)`: the candidates of the first matching key;
      `[]` when no key matches (or the key found is the falsy `''`). */
  function MatchAlias(pattern: string, alias: Alias, minimatch: Tester): (r: seq<string>)
    ensures (forall k :: 0 <= k < |alias| ==> !minimatch(Pattern(alias[k].0), pattern)) ==> r == []
    ensures forall i :: (0 <= i < |alias| && minimatch(Pattern(alias[i].0), pattern) && alias[i].0 != "" &&
                         (forall k :: 0 <= k < i ==> !minimatch(Pattern(alias[k].0), pattern))) ==> r == alias[i].1
    ensures forall i :: (0 <= i < |alias| && minimatch(Pattern(alias[i].0), pattern) && alias[i].0 == "" &&
                         (forall k :: 0 <= k < i ==> !minimatch(Pattern(alias[k].0), pattern))) ==> r == []
  {
    var i := FindKey(pattern, alias, minimatch);
    if i == -1 || alias[i].0 == "" then [] else alias[i].1
  }

  /** The unit test's one-key table (key `@/` plus a wildcard, one candidate
      `src/` plus a wildcard) answers `@/index` and not `@notfound/index`. */
  lemma MatchAliasExample(minimatch: Tester)
    requires minimatch(Pattern("@/*"), "@/index")
    requires !minimatch(Pattern("@/*"), "@notfound/index")
    ensures MatchAlias("@/index", [("@/*", ["src/*"])], minimatch) == ["src/*"]
    ensures MatchAlias("@notfound/index", [("@/*", ["src/*"])], minimatch) == []
  {
  }

  /** The reference for `findFile`'s loop: the LAST listed file that
      `keep` accepts. */
  function LastWhere(files: seq<string>, keep: string -> bool): Option<string>
    decreases |files|
  {
    if files == [] then None
    else if keep(files[|files| - 1]) then Some(files[|files| - 1])
    else LastWhere(files[..|files| - 1], keep)
  }

  /** `LastWhere` finds an accepted file, scanning from the end: every later
      file is rejected; it finds nothing exactly when every file is
      rejected. */
  lemma {:induction false} LastWhereSpec(files: seq<string>, keep: string -> bool)
    ensures LastWhere(files, keep).None? <==> forall k :: 0 <= k < |files| ==> !keep(files[k])
    ensures LastWhere(files, keep).Some? ==>
      exists i :: 0 <= i < |files| && files[i] == LastWhere(files, keep).value && keep(files[i]) &&
        (forall k :: i < k < |files| ==> !keep(files[k]))
    decreases |files|
  {
    if files != [] {
      var n := |files| - 1;
      var init := files[..n];
      if !keep(files[n]) {
        LastWhereSpec(init, keep);
        assert forall k :: 0 <= k < n ==> files[k] == init[k];
        if LastWhere(init, keep).Some? {
          var i :| 0 <= i < |init| && init[i] == LastWhere(init, keep).value && keep(init[i]) &&
            (forall k :: i < k < |init| ==> !keep(init[k]));
          assert files[i] == init[i];
        }
      }
    }
  }

  /** `path.basename(file) === path.basename(filename)`. */
  function SameBasename(filename: string): string -> bool {
    f => Basename(f) == Basename(filename)
  }

  /** `findFile(filename, pattern)`: glob `join(cwd, pattern)` (the glob
      result, or its error, is given by `glob`), then scan the files from
      last to first for one with the requested basename. */
  method FindFile(filename: string, pattern: string, cwd: string, glob: string -> Result<seq<string>>)
    returns (r: Result<Option<string>>)
    ensures glob(Join(cwd, pattern)).Err? ==> r == Err(glob(Join(cwd, pattern)).error)
    ensures glob(Join(cwd, pattern)).Ok? ==> r == Ok(LastWhere(glob(Join(cwd, pattern)).value, SameBasename(filename)))
  {
    var listed := glob(Join(cwd, pattern));
    if listed.Err? {
      return Err(listed.error);
    }
    var files := listed.value;
    var i := |files|;
    assert files[..i] == files;
    while i > 0
      invariant 0 <= i <= |files|
      invariant LastWhere(files, SameBasename(filename)) == LastWhere(files[..i], SameBasename(filename))
    {
      assert files[..i][..i - 1] == files[..i - 1];
      i := i - 1;
      if SameBasename(filename)(files[i]) {
        return Ok(Some(files[i]));
      }
    }
    return Ok(None);
  }

  /** What `findFile` yields for one pattern, as a function. */
  function FindFileResult(filename: string, pattern: string, cwd: string, glob: string -> Result<seq<string>>): Result<Option<string>> {
    var listed := glob(Join(cwd, pattern));
    if listed.Err? then Err(listed.error) else Ok(LastWhere(listed.value, SameBasename(filename)))
  }

  /** The task chain of `findFileByAlias` as evidently intended (and as the
      rest of the model uses it): try the patterns in order, stop at the
      first error or the first file found. */
  function AliasChain(filename: string, patterns: seq<string>, cwd: string, glob: string -> Result<seq<string>>): Result<Option<string>>
    decreases |patterns|
  {
    if patterns == [] then Ok(None)
    else
      var found := FindFileResult(filename, patterns[0], cwd, glob);
      if found.Err? || found.value.Some? then found
      else AliasChain(filename, patterns[1..], cwd, glob)
  }

  /** Once a pattern yields a file (or an error), no later pattern matters:
      the chain's result does not change when more patterns follow. */
  lemma {:induction false} AliasChainStops(filename: string, patterns: seq<string>, more: seq<string>, cwd: string,
                                           glob: string -> Result<seq<string>>)
    requires AliasChain(filename, patterns, cwd, glob) != Ok(None)
    ensures AliasChain(filename, patterns + more, cwd, glob) == AliasChain(filename, patterns, cwd, glob)
    decreases |patterns|
  {
    assert patterns != [];
    assert (patterns + more)[0] == patterns[0];
    assert (patterns + more)[1..] == patterns[1..] + more;
    var found := FindFileResult(filename, patterns[0], cwd, glob);
    if !(found.Err? || found.value.Some?) {
      AliasChainStops(filename, patterns[1..], more, cwd, glob);
    }
  }

  /** A file found by the chain is the find of some pattern, every earlier
      pattern having found nothing. */
  lemma {:induction false} AliasChainFound(filename: string, patterns: seq<string>, cwd: string,
                                           glob: string -> Result<seq<string>>)
    requires AliasChain(filename, patterns, cwd, glob).Ok? && AliasChain(filename, patterns, cwd, glob).value.Some?
    ensures exists i :: (0 <= i < |patterns| &&
      FindFileResult(filename, patterns[i], cwd, glob) == AliasChain(filename, patterns, cwd, glob) &&
      forall k :: 0 <= k < i ==> FindFileResult(filename, patterns[k], cwd, glob) == Ok(None))
    decreases |patterns|
  {
    var found := FindFileResult(filename, patterns[0], cwd, glob);
    if !(found.Err? || found.value.Some?) {
      var rest := patterns[1..];
      AliasChainFound(filename, rest, cwd, glob);
      var i :| 0 <= i < |rest| &&
        FindFileResult(filename, rest[i], cwd, glob) == AliasChain(filename, rest, cwd, glob) &&
        forall k :: 0 <= k < i ==> FindFileResult(filename, rest[k], cwd, glob) == Ok(None);
      assert patterns[i + 1] == rest[i];
      forall k | 0 <= k < i + 1
        ensures FindFileResult(filename, patterns[k], cwd, glob) == Ok(None)
      {
        if k > 0 {
          assert patterns[k] == rest[k - 1];
        }
      }
    }
  }

  /** How the `waterfall` of `findFileByAlias` ends: with a value or an
      error passed to its final callback, or never. */
  datatype AliasOutcome = Settled(result: Result<Option<string>>) | Stuck

  /** The chain as written. `waterfall` calls the first task with its
      continuation, and every later task with the previous task's result
      followed by the continuation; each task takes the first argument as its
      callback. The first task settles the chain when it finds a file
      (`callback(true, file)`) or fails (`callback(error)`); a miss passes
      `undefined` on, so a second task calls `undefined` as a function, the
      resulting `TypeError` escapes its handler, and the final callback is
      never reached. With a single pattern a miss ends the waterfall with
      nothing found; with no pattern it ends at once. */
  function AliasChainAsWritten(filename: string, patterns: seq<string>, cwd: string,
                               glob: string -> Result<seq<string>>): (r: AliasOutcome)
    ensures r.Settled? ==> r.result == AliasChain(filename, patterns, cwd, glob)
  {
    if patterns == [] then Settled(Ok(None))
    else
      var found := FindFileResult(filename, patterns[0], cwd, glob);
      assert AliasChain(filename, patterns, cwd, glob) ==
        (if found.Err? || found.value.Some? then found else AliasChain(filename, patterns[1..], cwd, glob));
      if found.Err? || found.value.Some? then Settled(found)
      else if |patterns| == 1 then Settled(Ok(None))
      else Stuck
  }

  /** The chain as written never settles exactly when the first pattern finds
      nothing and another pattern follows; whenever it settles it agrees
      with the intended chain. */
  lemma AliasChainAsWrittenStuck(filename: string, patterns: seq<string>, cwd: string,
                                 glob: string -> Result<seq<string>>)
    ensures AliasChainAsWritten(filename, patterns, cwd, glob) == Stuck <==>
      |patterns| >= 2 && FindFileResult(filename, patterns[0], cwd, glob) == Ok(None)
    ensures |patterns| <= 1 ==>
      AliasChainAsWritten(filename, patterns, cwd, glob) == Settled(AliasChain(filename, patterns, cwd, glob))
  {
  }

  /** The input that shows it: two candidate patterns, the file only under
      the second. The intended chain finds it; the chain as written hangs. */
  lemma AliasChainSecondPattern(filename: string, first: string, second: string, found: string, cwd: string,
                                glob: string -> Result<seq<string>>)
    requires glob(Join(cwd, first)) == Ok([])
    requires glob(Join(cwd, second)) == Ok([found]) && Basename(found) == Basename(filename)
    ensures AliasChainAsWritten(filename, [first, second], cwd, glob) == Stuck
    ensures AliasChain(filename, [first, second], cwd, glob) == Ok(Some(found))
  {
    assert LastWhere([], SameBasename(filename)) == None;
    assert LastWhere([found], SameBasename(filename)) == Some(found) by {
      assert [found][..0] == [];
    }
    assert [first, second][1..] == [second];
    assert [second][1..] == [];
  }

  /** `findFileByAlias(filename, alias)` as evidently intended: nothing
      without an alias table; otherwise the candidates of the matching key
      are searched in order (`AliasChainAsWritten` is the chain as the
      source runs it). */
  method FindFileByAlias(filename: string, alias: Option<Alias>, cwd: string, glob: string -> Result<seq<string>>,
                         minimatch: Tester) returns (r: Result<Option<string>>)
    ensures alias.None? ==> r == Ok(None)
    ensures alias.Some? ==> r == AliasChain(filename, MatchAlias(filename, alias.value, minimatch), cwd, glob)
  {
    if alias.None? {
      return Ok(None);
    }
    var patterns := MatchAlias(filename, alias.value, minimatch);
    var i := 0;
    while i < |patterns|
      invariant 0 <= i <= |patterns|
      invariant AliasChain(filename, patterns, cwd, glob) == AliasChain(filename, patterns[i..], cwd, glob)
    {
      var found := FindFile(filename, patterns[i], cwd, glob);
      assert patterns[i..][1..] == patterns[i + 1..];
      if found.Err? || found.value.Some? {
        return found;
      }
      i := i + 1;
    }
    return Ok(None);
  }

  /** `convertOutput(file, destination)`: the first occurrence of `srcDir`
      is replaced when the path contains it, otherwise the first occurrence
      of `rootDir`. */
  function ConvertOutput(file: string, destination: string, options: Directories): (r: string)
    ensures Contains(file, options.srcDir) ==>
      var i := IndexOf(file, options.srcDir);
      r == file[..i] + destination + file[i + |options.srcDir|..]
    ensures !Contains(file, options.srcDir) && Contains(file, options.rootDir) ==>
      var i := IndexOf(file, options.rootDir);
      r == file[..i] + destination + file[i + |options.rootDir|..]
    ensures !Contains(file, options.srcDir) && !Contains(file, options.rootDir) ==> r == file
  {
    if IndexOf(file, options.srcDir) != -1 then ReplaceFirst(file, options.srcDir, destination)
    else ReplaceFirst(file, options.rootDir, destination)
  }

  /** A file under `srcDir` keeps its path below `srcDir`, now below the
      destination. */
  lemma ConvertOutputPrefix(file: string, destination: string, options: Directories)
    requires StartsWith(file, options.srcDir)
    ensures ConvertOutput(file, destination, options) == destination + file[|options.srcDir|..]
  {
    IndexOfPrefix(file, options.srcDir);
  }

  /** A file outside `srcDir` but under `rootDir` keeps its path below
      `rootDir`, now below the destination. */
  lemma ConvertOutputRoot(file: string, destination: string, options: Directories)
    requires !Contains(file, options.srcDir) && StartsWith(file, options.rootDir)
    ensures ConvertOutput(file, destination, options) == destination + file[|options.rootDir|..]
  {
    IndexOfPrefix(file, options.rootDir);
  }

  /** `convertApp(file)`: `convertOutput(file, outDir)`. */
  function ConvertApp(file: string, options: Directories): (r: string)
    ensures StartsWith(file, options.srcDir) ==> r == options.outDir + file[|options.srcDir|..]
  {
    ConvertOutputPrefix2(file, options.outDir, options);
    ConvertOutput(file, options.outDir, options)
  }

  lemma ConvertOutputPrefix2(file: string, destination: string, options: Directories)
    ensures StartsWith(file, options.srcDir) ==> ConvertOutput(file, destination, options) == destination + file[|options.srcDir|..]
  {
    if StartsWith(file, options.srcDir) {
      ConvertOutputPrefix(file, destination, options);
    }
  }

  predicate IsSeparator(c: char) {
    c == '/' || c == '\\'
  }

  /** The regular expression `[\\/]node_modules[\\/]` matches at `i`. */
  predicate NpmSegmentAt(s: string, i: int) {
    0 <= i && i + 14 <= |s| && IsSeparator(s[i]) && s[i + 1..i + 13] == "node_modules" && IsSeparator(s[i + 13])
  }

  /** The first match of `[\\/]node_modules[\\/]` at or after `from`, or -1. */
  function FindNpmSegment(s: string, from: nat): (i: int)
    ensures i == -1 || (from <= i && NpmSegmentAt(s, i))
    ensures i == -1 ==> forall k :: from <= k ==> !NpmSegmentAt(s, k)
    ensures i >= 0 ==> forall k :: from <= k < i ==> !NpmSegmentAt(s, k)
    decreases |s| - from
  {
    if from + 14 > |s| then -1
    else if NpmSegmentAt(s, from) then from
    else FindNpmSegment(s, from + 1)
  }

  /** `convertNPM(file)`: a path with no `node_modules` segment goes to
      `convertApp`; otherwise its first such segment becomes `/` and the
      result is mapped into `npmDir`. */
  function ConvertNPM(file: string, options: Directories): string {
    var i := FindNpmSegment(file, 0);
    if i == -1 then ConvertApp(file, options)
    else ConvertOutput(file[..i] + "/" + file[i + 14..], options.npmDir, options)
  }

  /** A path with no `node_modules` segment is converted as an app file;
      otherwise the first segment, and only that one, is cut out and the
      rest placed under `npmDir`. */
  lemma ConvertNPMSpec(file: string, options: Directories)
    ensures (forall k :: !NpmSegmentAt(file, k)) ==> ConvertNPM(file, options) == ConvertApp(file, options)
    ensures forall i :: NpmSegmentAt(file, i) && (forall k :: 0 <= k < i ==> !NpmSegmentAt(file, k)) ==>
      ConvertNPM(file, options) == ConvertOutput(file[..i] + "/" + file[i + 14..], options.npmDir, options)
  {
    var j := FindNpmSegment(file, 0);
    forall i | NpmSegmentAt(file, i) && (forall k :: 0 <= k < i ==> !NpmSegmentAt(file, k))
      ensures ConvertNPM(file, options) == ConvertOutput(file[..i] + "/" + file[i + 14..], options.npmDir, options)
    {
      assert j == i;
    }
  }

  /** The unit test's case: a package file `root/node_modules/rest` (with no
      earlier `node_modules` segment, and outside `srcDir`) lands at
      `npmDir/rest`. */
  lemma ConvertNPMUnderRoot(rest: string, options: Directories)
    requires forall k :: 0 <= k < |options.rootDir| ==> !NpmSegmentAt(options.rootDir + "/node_modules/" + rest, k)
    requires !Contains(options.rootDir + "/" + rest, options.srcDir)
    ensures ConvertNPM(options.rootDir + "/node_modules/" + rest, options) == options.npmDir + "/" + rest
  {
    var root := options.rootDir;
    var file := root + "/node_modules/" + rest;
    var moved := root + "/" + rest;
    NpmRootShape(root, rest);
    assert FindNpmSegment(file, 0) == |root|;
    ConvertOutputRoot(moved, options.npmDir, options);
  }

  /** `root/node_modules/rest` has a segment right after `root`, and cutting
      it out leaves `root/rest`. */
  lemma NpmRootShape(root: string, rest: string)
    ensures var file := root + "/node_modules/" + rest;
      NpmSegmentAt(file, |root|) &&
      file[..|root|] + "/" + file[|root| + 14..] == root + "/" + rest
    ensures StartsWith(root + "/" + rest, root) && (root + "/" + rest)[|root|..] == "/" + rest
  {
    var file := root + "/node_modules/" + rest;
    var i := |root|;
    assert file == root + ("/" + "node_modules" + "/") + rest;
    assert file[i + 1..i + 13] == "node_modules";
    assert file[..i] == root && file[i + 14..] == rest;
    assert (root + "/" + rest)[..|root|] == root;
  }
}
