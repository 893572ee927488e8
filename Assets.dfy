/** The chunk registry (`src/assets.js`): an ordered list of chunks, looked
    up by file name. Lookups go to the FIRST chunk with that file; nothing
    stops two chunks from sharing a file. */
module Assets {
  import opened Wrappers
  import opened Typings

  /** A stored chunk: its file and its current state. */
  datatype AssetChunk = AssetChunk(file: string, state: ChunkState)

  /** `chunks.findIndex(chunk => chunk.file === file)`. */
  function FirstIndex(cs: seq<AssetChunk>, file: string): (i: int)
    ensures -1 <= i < |cs|
    ensures i == -1 <==> forall k :: 0 <= k < |cs| ==> cs[k].file != file
    ensures i >= 0 ==> cs[i].file == file && forall k :: 0 <= k < i ==> cs[k].file != file
    decreases |cs|
  {
    if cs == [] then -1
    else if cs[0].file == file then 0
    else
      var j := FirstIndex(cs[1..], file);
      if j == -1 then -1 else j + 1
  }

  predicate Present(cs: seq<AssetChunk>, file: string) {
    exists k :: 0 <= k < |cs| && cs[k].file == file
  }

  /** `splice(index, 1)` guarded by `index !== -1`. */
  function RemoveFirst(cs: seq<AssetChunk>, file: string): seq<AssetChunk> {
    var i := FirstIndex(cs, file);
    if i == -1 then cs else cs[..i] + cs[i + 1..]
  }

  /** How many chunks carry `file`. */
  function Count(cs: seq<AssetChunk>, file: string): nat
    decreases |cs|
  {
    if cs == [] then 0 else (if cs[0].file == file then 1 else 0) + Count(cs[1..], file)
  }

  lemma {:induction false} CountPositive(cs: seq<AssetChunk>, file: string)
    ensures Count(cs, file) > 0 <==> Present(cs, file)
    decreases |cs|
  {
    if cs != [] {
      CountPositive(cs[1..], file);
      if Present(cs, file) && cs[0].file != file {
        var k :| 0 <= k < |cs| && cs[k].file == file;
        assert cs[1..][k - 1].file == file;
      }
      if Present(cs[1..], file) {
        var k :| 0 <= k < |cs[1..]| && cs[1..][k].file == file;
        assert cs[k + 1].file == file;
      }
    }
  }

  lemma {:induction false} CountConcat(a: seq<AssetChunk>, b: seq<AssetChunk>, file: string)
    ensures Count(a + b, file) == Count(a, file) + Count(b, file)
    decreases |a|
  {
    if a == [] {
      assert a + b == b;
    } else {
      assert (a + b)[1..] == a[1..] + b;
      CountConcat(a[1..], b, file);
    }
  }

  /** `del` removes exactly one chunk, the first with that file, and keeps
      the others in their order; with no such chunk it changes nothing. */
  lemma RemoveFirstSpec(cs: seq<AssetChunk>, file: string)
    ensures !Present(cs, file) ==> RemoveFirst(cs, file) == cs
    ensures Present(cs, file) ==>
      var i := FirstIndex(cs, file);
      |RemoveFirst(cs, file)| == |cs| - 1 &&
      (forall k :: 0 <= k < i ==> RemoveFirst(cs, file)[k] == cs[k]) &&
      (forall k :: i <= k < |cs| - 1 ==> RemoveFirst(cs, file)[k] == cs[k + 1]) &&
      multiset(RemoveFirst(cs, file)) + multiset{cs[i]} == multiset(cs)
  {
    if Present(cs, file) {
      var i := FirstIndex(cs, file);
      assert cs == cs[..i] + [cs[i]] + cs[i + 1..];
    }
  }

  /** `del(file)` takes away exactly one of the chunks carrying `file`. */
  lemma CountRemoveFirst(cs: seq<AssetChunk>, file: string)
    requires Present(cs, file)
    ensures Count(RemoveFirst(cs, file), file) == Count(cs, file) - 1
  {
    var i := FirstIndex(cs, file);
    var pre, post := cs[..i], cs[i + 1..];
    assert cs == pre + ([cs[i]] + post);
    CountConcat(pre, [cs[i]] + post, file);
    CountConcat([cs[i]], post, file);
    CountConcat(pre, post, file);
    assert !Present(pre, file) by {
      forall k | 0 <= k < i ensures pre[k].file != file { }
    }
    CountPositive(pre, file);
    assert Count([cs[i]], file) == 1 by {
      assert [cs[i]][1..] == [];
    }
  }

  /** After `del(file)` the file still exists exactly when it was stored
      more than once. */
  lemma DelThenExists(cs: seq<AssetChunk>, file: string)
    ensures Present(RemoveFirst(cs, file), file) <==> Count(cs, file) >= 2
  {
    CountPositive(cs, file);
    CountPositive(RemoveFirst(cs, file), file);
    if Present(cs, file) {
      CountRemoveFirst(cs, file);
    }
  }

  /** After `add(file, …)`, `get(file)` finds the new chunk exactly when no
      chunk with that file was stored before; otherwise it still finds the
      old first one. */
  lemma AddThenGet(cs: seq<AssetChunk>, c: AssetChunk)
    ensures FirstIndex(cs + [c], c.file) ==
      (if Present(cs, c.file) then FirstIndex(cs, c.file) else |cs|)
  {
    var cs' := cs + [c];
    var i := FirstIndex(cs, c.file);
    if i >= 0 {
      assert cs'[i] == cs[i];
      assert forall k :: 0 <= k < i ==> cs'[k] == cs[k];
    } else {
      assert cs'[|cs|] == c;
      assert forall k :: 0 <= k < |cs| ==> cs'[k] == cs[k];
    }
  }

  class Assets {
    var chunks: seq<AssetChunk>

    constructor ()
      ensures chunks == []
    {
      chunks := [];
    }

    /** `size`. */
    function Size(): nat
      reads this
    {
      |chunks|
    }

    /** `index(file)`: the first position holding that file, or -1. */
    method Index(file: string) returns (i: int)
      ensures i == FirstIndex(chunks, file)
      ensures i == -1 <==> !Present(chunks, file)
    {
      i := 0;
      while i < |chunks|
        invariant 0 <= i <= |chunks|
        invariant forall k :: 0 <= k < i ==> chunks[k].file != file
      {
        if chunks[i].file == file {
          return;
        }
        i := i + 1;
      }
      i := -1;
    }

    /** `add(file, state)`: a new chunk at the end, returned; no check for
        an existing chunk with the same file. */
    method Add(file: string, state: ChunkState) returns (c: AssetChunk)
      modifies this
      ensures c == AssetChunk(file, state)
      ensures chunks == old(chunks) + [c]
      ensures Size() == old(Size()) + 1
    {
      c := AssetChunk(file, state);
      chunks := chunks + [c];
    }

    /** `get(file)`: the first chunk with that file, or `null`. */
    method Get(file: string) returns (r: Option<AssetChunk>)
      ensures r.Some? <==> Present(chunks, file)
      ensures r.Some? ==> r.value == chunks[FirstIndex(chunks, file)] && r.value.file == file
    {
      var i := Index(file);
      if i == -1 {
        r := None;
      } else {
        r := Some(chunks[i]);
      }
    }

    /** `update(file, state)`: `chunk.update(state)` on the first chunk with
        that file (`apply` stands for the unseen `Chunk#update`); every
        other chunk, and the order, stay as they are. */
    method Update(file: string, state: ChunkState, apply: (ChunkState, ChunkState) -> ChunkState)
      modifies this
      ensures !Present(old(chunks), file) ==> chunks == old(chunks)
      ensures Present(old(chunks), file) ==>
        var i := FirstIndex(old(chunks), file);
        chunks == old(chunks)[i := AssetChunk(file, apply(old(chunks)[i].state, state))]
    {
      var i := Index(file);
      if i != -1 {
        chunks := chunks[i := AssetChunk(file, apply(chunks[i].state, state))];
      }
    }

    /** `del(file)`. */
    method Del(file: string)
      modifies this
      ensures chunks == RemoveFirst(old(chunks), file)
    {
      var i := Index(file);
      if i != -1 {
        chunks := chunks[..i] + chunks[i + 1..];
      }
    }

    /** `exists(file)`. */
    method Exists(file: string) returns (b: bool)
      ensures b <==> Present(chunks, file)
    {
      var i := Index(file);
      b := i != -1;
    }

    /** `clean()`: the registry is emptied, and every chunk it held is
        destroyed, in order; `destroyed` lists them. */
    method Clean() returns (destroyed: seq<AssetChunk>)
      modifies this
      ensures chunks == [] && destroyed == old(chunks)
    {
      destroyed := chunks;
      chunks := [];
    }
  }
}
