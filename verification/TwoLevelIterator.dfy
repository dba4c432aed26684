/**
 TwoLevelIterator (table/two_level_iterator.cc): an index whose entries lead to blocks, opened one at a time.  It is a
 cursor on the blocks read one after the other, whatever blocks are empty.
 */
module TwoLevelIterators {
  import opened InternalKeys
  import opened Cursors
  import opened MergingIterators

  /** The block that an index entry leads to. */
  function BlockAt(index: seq<Entry>, open: Bytes -> seq<Entry>, i: nat): (r: seq<Entry>)
    requires i < |index|
  {
    open(index[i].value)
  }

  /** The first n blocks, one after the other. */
  function Joined(index: seq<Entry>, open: Bytes -> seq<Entry>, n: nat): (r: seq<Entry>)
    requires n <= |index|
  {
    if n == 0 then [] else Joined(index, open, n - 1) + BlockAt(index, open, n - 1)
  }

  /** Every index key is at or after the entries of its block and before those of the blocks that follow. */
  ghost predicate Separates(index: seq<Entry>, open: Bytes -> seq<Entry>) {
    && Sorted(index)
    && (forall i | 0 <= i < |index| :: Sorted(BlockAt(index, open, i)))
    && (forall i, e | 0 <= i < |index| && e in BlockAt(index, open, i) :: AtMost(e.key, index[i].key))
    && (forall i, j, e | 0 <= i < j < |index| && e in BlockAt(index, open, j) :: Less(index[i].key, e.key))
  }

  lemma {:induction false} JoinedEnds(index: seq<Entry>, open: Bytes -> seq<Entry>, n: nat, e: Entry)
    requires Separates(index, open) && n <= |index| && e in Joined(index, open, n)
    ensures n > 0 && AtMost(e.key, index[n - 1].key)
  {
    if e !in BlockAt(index, open, n - 1) {
      JoinedEnds(index, open, n - 1, e);
    }
  }

  lemma {:induction false} JoinedSorted(index: seq<Entry>, open: Bytes -> seq<Entry>, n: nat)
    requires Separates(index, open) && n <= |index|
    ensures Sorted(Joined(index, open, n))
  {
    if n > 0 {
      JoinedSorted(index, open, n - 1);
      var front, block := Joined(index, open, n - 1), BlockAt(index, open, n - 1);
      forall x, y | x in front && y in block ensures Less(x.key, y.key) {
        JoinedEnds(index, open, n - 1, x);
      }
    }
  }

  /** Every block has its place in the whole. */
  lemma {:induction false} BlockInJoined(index: seq<Entry>, open: Bytes -> seq<Entry>, i: nat, n: nat)
    requires i < n <= |index|
    ensures var start, block := |Joined(index, open, i)|, BlockAt(index, open, i);
      && start + |block| == |Joined(index, open, i + 1)| <= |Joined(index, open, n)|
      && Joined(index, open, n)[..start] == Joined(index, open, i)
      && Joined(index, open, n)[start..start + |block|] == block
  {
    if i + 1 < n {
      BlockInJoined(index, open, i, n - 1);
      var front := Joined(index, open, n - 1);
      var start, block := |Joined(index, open, i)|, BlockAt(index, open, i);
      assert Joined(index, open, n)[..start] == front[..start];
      assert Joined(index, open, n)[start..start + |block|] == front[start..start + |block|];
    }
  }

  class TwoLevelIterator {
    const index: seq<Entry>
    /** What the block function opens for a handle. */
    const open: Bytes -> seq<Entry>

    var indexAt: Position
    var data: Option<Child>
    /** The handle that `data` was opened for. */
    var dataBlockHandle: Bytes

    ghost function All(): (r: seq<Entry>) {
      Joined(index, open, |index|)
    }

    /** The number of entries in the blocks in front of block i. */
    ghost function Start(i: nat): (r: nat)
      requires i <= |index|
    {
      |Joined(index, open, i)|
    }

    ghost predicate Valid()
      reads this
    {
      && Separates(index, open) && InRun(index, indexAt)
      && (data.Some? ==> data.value.run == open(dataBlockHandle) && InRun(data.value.run, data.value.at))
      && (IsValid() ==> indexAt.Some? && dataBlockHandle == index[indexAt.value].value)
    }

    predicate IsValid()
      reads this
    {
      data.Some? && data.value.Valid()
    }

    /** Where the cursor stands in the blocks read one after the other. */
    ghost function At(): (p: Position)
      requires Valid()
      reads this
      ensures p.Some? <==> IsValid()
      ensures InRun(All(), p)
    {
      if IsValid() then
        BlockInJoined(index, open, indexAt.value, |index|);
        Some(Start(indexAt.value) + data.value.at.value)
      else None
    }

    constructor (index: seq<Entry>, open: Bytes -> seq<Entry>)
      requires Separates(index, open)
      ensures Valid() && At() == None && this.index == index
      ensures this.open == open
    {
      this.index, this.open := index, open;
      indexAt, data, dataBlockHandle := None, None, [];
    }

    function Current(): (e: Entry)
      requires Valid() && IsValid()
      reads this
      ensures At().Some? && e == All()[At().value]
    {
      BlockInJoined(index, open, indexAt.value, |index|);
      var c := data.value;
      assert c.run[c.at.value] == All()[Start(indexAt.value)..Start(indexAt.value) + |c.run|][c.at.value];
      c.run[c.at.value]
    }

    // ----- blocks -----

    /** Opens the block that the index leads to, unless it is open already. */
    method InitDataBlock()
      requires Separates(index, open) && InRun(index, indexAt)
      requires data.Some? ==> data.value.run == open(dataBlockHandle)
      modifies `data, `dataBlockHandle
      ensures data.Some? <==> indexAt.Some?
      ensures data.Some? ==> dataBlockHandle == index[indexAt.value].value && data.value.run == open(dataBlockHandle)
    {
      if indexAt.None? {
        data := None;
      } else {
        var handle := index[indexAt.value].value;
        if data.Some? && handle == dataBlockHandle {
        } else {
          data := Some(Child(open(handle), None));
          dataBlockHandle := handle;
        }
      }
    }

    method PlaceData(at: Position)
      requires data.Some? ==> InRun(data.value.run, at)
      modifies `data
      ensures data == if old(data).Some? then Some(old(data).value.(at := at)) else None
    {
      if data.Some? {
        data := Some(data.value.(at := at));
      }
    }

    /** From here on the next entry is the one with `n` entries in front of it. */
    ghost predicate Facing(n: nat)
      requires Valid()
      reads this
    {
      if IsValid() then At() == Some(n)
      else n == if indexAt.Some? then Start(indexAt.value + 1) else |All()|
    }

    /** And in the other direction: the previous entry is the last of the first `n`. */
    ghost predicate FacingBack(n: nat)
      requires Valid()
      reads this
    {
      if IsValid() then n > 0 && At() == Some(n - 1)
      else n == if indexAt.Some? then Start(indexAt.value) else 0
    }

    method SkipEmptyDataBlocksForward(ghost n: nat)
      requires Valid() && Facing(n)
      modifies this
      ensures Valid() && At() == if n < |All()| then Some(n) else None
    {
      while !IsValid()
        invariant Valid() && Facing(n)
        decreases !IsValid(), if indexAt.Some? then |index| - indexAt.value else 0
      {
        if indexAt.None? {
          data := None;
          return;
        }
        indexAt := ToNext(index, indexAt.value);
        InitDataBlock();
        PlaceData(if data.Some? then ToFirst(data.value.run) else None);
      }
    }

    method SkipEmptyDataBlocksBackward(ghost n: nat)
      requires Valid() && FacingBack(n)
      modifies this
      ensures Valid() && At() == ToPrev(n)
    {
      while !IsValid()
        invariant Valid() && FacingBack(n)
        decreases !IsValid(), if indexAt.Some? then indexAt.value + 1 else 0
      {
        if indexAt.None? {
          data := None;
          return;
        }
        indexAt := ToPrev(indexAt.value);
        InitDataBlock();
        PlaceData(if data.Some? then ToLast(data.value.run) else None);
      }
    }

    // ----- moves -----

    method Seek(target: InternalKey)
      requires Valid()
      modifies this
      ensures Valid() && At() == ToSeek(All(), target)
    {
      indexAt := ToSeek(index, target);
      InitDataBlock();
      PlaceData(if data.Some? then ToSeek(data.value.run, target) else None);
      ghost var n := SoughtRank(target);
      SkipEmptyDataBlocksForward(n);
    }

    /** The first entry at or after the target is in the block that the index seek leads to, or it is the next one. */
    lemma SoughtRank(target: InternalKey) returns (n: nat)
      requires Separates(index, open) && indexAt == ToSeek(index, target)
      requires data.Some? <==> indexAt.Some?
      requires data.Some? ==> (dataBlockHandle == index[indexAt.value].value
        && data.value == Child(open(dataBlockHandle), ToSeek(open(dataBlockHandle), target)))
      ensures Valid() && Facing(n) && n == SeekIndex(All(), target)
    {
      hide Separates;
      hide Joined;
      hide SeekIndex;
      JoinedSorted(index, open, |index|);
      if indexAt.None? {
        n := |All()|;
        SoughtPastEnd(target);
      } else {
        var i := indexAt.value;
        var k := SeekIndex(BlockAt(index, open, i), target);
        n := Start(i) + k;
        BlockInJoined(index, open, i, |index|);
        SoughtInBlock(target, i, k);
        SeekIndexIs(All(), target, n);
      }
    }

    lemma SoughtPastEnd(target: InternalKey)
      requires Separates(index, open) && SeekIndex(index, target) == |index|
      ensures SeekIndex(All(), target) == |All()|
    {
      hide Separates;
      JoinedSorted(index, open, |index|);
      var n := |All()|;
      if n > 0 {
        assert All()[n - 1] in All();
        JoinedEnds(index, open, |index|, All()[n - 1]);
      }
      SeekIndexIs(All(), target, n);
    }

    lemma SoughtInBlock(target: InternalKey, i: nat, k: nat)
      requires Separates(index, open) && i < |index| && SeekIndex(index, target) == i
      requires SeekIndex(BlockAt(index, open, i), target) == k
      ensures Start(i) + k <= |All()|
      ensures Start(i) + k > 0 ==> Less(All()[Start(i) + k - 1].key, target)
      ensures Start(i) + k < |All()| ==> AtMost(target, All()[Start(i) + k].key)
    {
      hide Separates;
      hide Joined;
      var n, block := Start(i) + k, BlockAt(index, open, i);
      BlockInJoined(index, open, i, |index|);
      if k > 0 {
        EntryAt(i, k - 1);
      } else if n > 0 {
        assert All()[..Start(i)][n - 1] in Joined(index, open, i);
        JoinedEnds(index, open, i, All()[n - 1]);
      }
      if k < |block| {
        EntryAt(i, k);
      } else if n < |All()| {
        AfterBlock(i, n);
      }
    }

    lemma EntryAt(i: nat, k: nat)
      requires i < |index| && k < |BlockAt(index, open, i)|
      ensures Start(i) + k < |All()| && All()[Start(i) + k] == BlockAt(index, open, i)[k]
    {
      var block := BlockAt(index, open, i);
      BlockInJoined(index, open, i, |index|);
      assert All()[Start(i)..Start(i) + |block|][k] == All()[Start(i) + k];
    }

    /** What follows a block is after its index key. */
    lemma AfterBlock(i: nat, n: nat)
      requires Separates(index, open) && i < |index| && Start(i + 1) <= n < |All()|
      ensures Less(index[i].key, All()[n].key)
    {
      hide Separates;
      hide Joined;
      var j := BlockOf(n, |index|);
      if j <= i { StartsAscend(j + 1, i + 1); }
      BlockInJoined(index, open, j, j + 1);
      EntryAt(j, n - Start(j));
      EntryAfter(i, j, n - Start(j));
    }

    lemma EntryAfter(i: nat, j: nat, k: nat)
      requires Separates(index, open) && i < j < |index| && k < |BlockAt(index, open, j)|
      ensures Less(index[i].key, BlockAt(index, open, j)[k].key)
    {
      assert BlockAt(index, open, j)[k] in BlockAt(index, open, j);
    }

    lemma {:induction false} StartsAscend(i: nat, j: nat)
      requires i <= j <= |index|
      ensures Start(i) <= Start(j)
    {
      if i < j { StartsAscend(i, j - 1); }
    }

    lemma {:induction false} BlockOf(n: nat, m: nat) returns (j: nat)
      requires m <= |index| && n < Start(m)
      ensures j < m && Start(j) <= n < Start(j + 1)
    {
      if n < Start(m - 1) {
        j := BlockOf(n, m - 1);
      } else {
        j := m - 1;
      }
    }

    method SeekToFirst()
      requires Valid()
      modifies this
      ensures Valid() && At() == ToFirst(All())
    {
      indexAt := ToFirst(index);
      InitDataBlock();
      PlaceData(if data.Some? then ToFirst(data.value.run) else None);
      if index != [] { BlockInJoined(index, open, 0, |index|); }
      SkipEmptyDataBlocksForward(0);
    }

    method SeekToLast()
      requires Valid()
      modifies this
      ensures Valid() && At() == ToLast(All())
    {
      indexAt := ToLast(index);
      InitDataBlock();
      PlaceData(if data.Some? then ToLast(data.value.run) else None);
      SkipEmptyDataBlocksBackward(|All()|);
    }

    method Next()
      requires Valid() && IsValid()
      modifies this
      ensures Valid() && At() == ToNext(All(), old(At()).value)
    {
      ghost var n := At().value + 1;
      BlockInJoined(index, open, indexAt.value, |index|);
      PlaceData(ToNext(data.value.run, data.value.at.value));
      SkipEmptyDataBlocksForward(n);
    }

    method Prev()
      requires Valid() && IsValid()
      modifies this
      ensures Valid() && At() == ToPrev(old(At()).value)
    {
      ghost var n := At().value;
      PlaceData(ToPrev(data.value.at.value));
      SkipEmptyDataBlocksBackward(n);
    }
  }
}
