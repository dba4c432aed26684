/**
 Building a table (table/table_builder.cc): data blocks, delayed index entries with shortened separators, a filter, and
 a footer.  What is built can be opened and holds what was added.
 */
module TableBuilding {
  import opened InternalKeys
  import opened Coding
  import opened Blocks
  import opened Separators
  import opened Filters
  import opened TableFormat
  import opened Tables

  // ----- the order of what has been added -----

  ghost function NextOf(blocks: seq<seq<Item>>, current: seq<Item>, b: nat): (r: seq<Item>) {
    if b + 1 < |blocks| then blocks[b + 1] else current
  }

  /** The blocks so far and the current one are in order; the last index entry waits for the next key if `pending`. */
  ghost predicate DataOk(blocks: seq<seq<Item>>, seps: seq<Bytes>, current: seq<Item>, pending: bool, lastKey: Bytes) {
    && BlocksOk(blocks) && (current != [] ==> BlockOk(current) && lastKey == LastKey(current))
    && (pending ==> current == [] && blocks != [] && |seps| == |blocks| - 1 && lastKey == LastKey(blocks[|blocks| - 1]))
    && (!pending ==> |seps| == |blocks| && (blocks != [] ==> current != []))
    && forall b {:trigger seps[b]} | 0 <= b < |seps| :: Separates(blocks[b], seps[b], NextOf(blocks, current, b))
  }

  /** The pending index entry gets a key between the last block and the new key. */
  lemma SeparatorFits(blocks: seq<seq<Item>>, seps: seq<Bytes>, lastKey: Bytes, sep: Bytes, item: Item)
    requires DataOk(blocks, seps, [], true, lastKey) && |item.key| >= 8 && |lastKey| >= 8
    requires Covers(lastKey, sep) && InternalLess(sep, item.key)
    requires sep != lastKey ==> BytewiseLess(UserOf(sep), UserOf(item.key))
    ensures DataOk(blocks, seps + [sep], [item], false, item.key)
    ensures seps != [] ==> InternalLess(seps[|seps| - 1], sep)
  {
    hide InternalLess;
    hide Covers;
    hide UserOf;
    var n := |blocks| - 1;
    forall b | 0 <= b < n ensures Separates(blocks[b], (seps + [sep])[b], NextOf(blocks, [item], b)) {
      assert Separates(blocks[b], seps[b], NextOf(blocks, [], b));
    }
    if seps != [] { LastSeparatorBefore(blocks, seps, lastKey, sep); }
  }

  lemma LastKeyIsLong(blocks: seq<seq<Item>>, seps: seq<Bytes>, current: seq<Item>, lastKey: Bytes)
    requires DataOk(blocks, seps, current, true, lastKey)
    ensures current == [] && blocks != [] && |lastKey| >= 8
    ensures |seps| == |blocks| - 1
  {
    assert BlockOk(blocks[|blocks| - 1]);
  }

  lemma LastOfCurrent(blocks: seq<seq<Item>>, seps: seq<Bytes>, current: seq<Item>, pending: bool, lastKey: Bytes)
    requires DataOk(blocks, seps, current, pending, lastKey) && current != []
    ensures lastKey == LastKey(current)
  {
  }

  lemma LastSeparatorBefore(blocks: seq<seq<Item>>, seps: seq<Bytes>, lastKey: Bytes, sep: Bytes)
    requires DataOk(blocks, seps, [], true, lastKey) && seps != [] && Covers(lastKey, sep)
    ensures InternalLess(seps[|seps| - 1], sep)
  {
    hide InternalLess;
    var m := |seps| - 1;
    assert Separates(blocks[m], seps[m], blocks[m + 1]) && BlockOk(blocks[m + 1]);
    UpToLast(blocks[m + 1], 0);
    CoversIsAtLeast(lastKey, sep);
    Ordered(blocks[m + 1][0].key, lastKey, sep);
    Ordered(seps[m], blocks[m + 1][0].key, sep);
  }

  lemma AnotherFits(blocks: seq<seq<Item>>, seps: seq<Bytes>, current: seq<Item>, lastKey: Bytes, item: Item)
    requires DataOk(blocks, seps, current, false, lastKey) && |item.key| >= 8
    requires current != [] ==> InternalLess(lastKey, item.key)
    ensures DataOk(blocks, seps, current + [item], false, item.key)
  {
    hide InternalLess;
    InternalIsTotal();
    AscendingExtends(InternalLess, current, item);
    forall b | 0 <= b < |seps| ensures Separates(blocks[b], seps[b], NextOf(blocks, current + [item], b)) {
      assert Separates(blocks[b], seps[b], NextOf(blocks, current, b));
    }
  }

  lemma FlushFits(blocks: seq<seq<Item>>, seps: seq<Bytes>, current: seq<Item>, lastKey: Bytes)
    requires DataOk(blocks, seps, current, false, lastKey) && current != []
    ensures DataOk(blocks + [current], seps, [], true, lastKey)
  {
    hide InternalLess;
    var blocks' := blocks + [current];
    forall b | 0 <= b < |seps| ensures Separates(blocks'[b], seps[b], NextOf(blocks', [], b)) {
      assert Separates(blocks[b], seps[b], NextOf(blocks, current, b));
    }
  }

  /** The builder's last key is the one of the last entry added. */
  lemma LastIsLast(blocks: seq<seq<Item>>, seps: seq<Bytes>, current: seq<Item>, pending: bool, lastKey: Bytes)
    requires DataOk(blocks, seps, current, pending, lastKey)
    ensures var all := FlatItems(blocks) + current;
      blocks != [] || current != [] ==> all != [] && lastKey == LastKey(all)
  {
    hide InternalLess;
    if current == [] && blocks != [] {
      assert BlockOk(blocks[|blocks| - 1]);
    }
  }

  /** The last block's index entry; with it the table is complete. */
  lemma SuccessorFits(blocks: seq<seq<Item>>, seps: seq<Bytes>, lastKey: Bytes, sep: Bytes)
    requires DataOk(blocks, seps, [], true, lastKey) && Covers(lastKey, sep)
    ensures TableOk(blocks, seps + [sep]) && (seps != [] ==> InternalLess(seps[|seps| - 1], sep))
  {
    hide InternalLess;
    hide Covers;
    forall b | 0 <= b < |blocks|
      ensures Separates(blocks[b], (seps + [sep])[b], if b + 1 < |blocks| then blocks[b + 1] else [])
    {
      if b < |seps| { assert Separates(blocks[b], seps[b], NextOf(blocks, [], b)); }
    }
    if seps != [] { LastSeparatorBefore(blocks, seps, lastKey, sep); }
  }

  // ----- what has been written -----

  /** A block is compressed only if that saves more than an eighth of it. */
  predicate Compresses(format: Format, compression: Byte, raw: Bytes) {
    && compression == SNAPPY_COMPRESSION && format.compress(raw).Some?
    && |format.compress(raw).value| < |raw| - |raw| / 8
  }

  function StoredSize(format: Format, compression: Byte, raw: Bytes): (r: nat) {
    if Compresses(format, compression, raw) then |format.compress(raw).value| else |raw|
  }

  ghost predicate SizesOk(format: Format, compression: Byte, raws: seq<Bytes>, handles: seq<Handle>) {
    && |handles| <= |raws|
    && forall b {:trigger handles[b]} | 0 <= b < |handles| ::
         handles[b].size == StoredSize(format, compression, raws[b])
  }

  /** Each finished block can be read where its handle says; blocks of 4 GiB and more are no blocks. */
  ghost predicate WrittenOk(format: Format, file: Bytes, blocks: seq<seq<Item>>, starts: seq<seq<nat>>,
      raws: seq<Bytes>,
    handles: seq<Handle>)
  {
    && |starts| == |handles| == |raws| == |blocks|
    && forall b {:trigger handles[b]} | 0 <= b < |blocks| ::
         && HasBlock(format, file, handles[b], raws[b])
         && (|raws[b]| < WORD_LIMIT ==> IsBlock(raws[b], blocks[b], starts[b]))
  }

  lemma StaysWritten(format: Format, file: Bytes, longer: Bytes, blocks: seq<seq<Item>>, starts: seq<seq<nat>>,
    raws: seq<Bytes>, handles: seq<Handle>)
    requires WrittenOk(format, file, blocks, starts, raws, handles) && file <= longer
    ensures WrittenOk(format, longer, blocks, starts, raws, handles)
  {
    hide IsBlock;
    hide HasBlock;
    forall b | 0 <= b < |blocks| ensures HasBlock(format, longer, handles[b], raws[b]) {
      assert HasBlock(format, file, handles[b], raws[b]);
      BlockSurvives(format, file, longer, handles[b], raws[b]);
    }
  }

  lemma WriteAppends(format: Format, file: Bytes, longer: Bytes, blocks: seq<seq<Item>>, starts: seq<seq<nat>>,
    raws: seq<Bytes>, handles: seq<Handle>, raw: Bytes, items: seq<Item>, start: seq<nat>, h: Handle)
    requires WrittenOk(format, file, blocks, starts, raws, handles) && file <= longer
    requires HasBlock(format, longer, h, raw)
    requires |raw| < WORD_LIMIT ==> IsBlock(raw, items, start)
    ensures WrittenOk(format, longer, blocks + [items], starts + [start], raws + [raw], handles + [h])
  {
    hide IsBlock;
    hide HasBlock;
    StaysWritten(format, file, longer, blocks, starts, raws, handles);
  }

  lemma SizesGrow(format: Format, compression: Byte, file: Bytes, blocks: seq<seq<Item>>, starts: seq<seq<nat>>,
    raws: seq<Bytes>, handles: seq<Handle>, raw: Bytes, h: Handle)
    requires SizesOk(format, compression, raws, handles) && WrittenOk(format, file, blocks, starts, raws, handles)
    requires h.size == StoredSize(format, compression, raw)
    ensures SizesOk(format, compression, raws + [raw], handles + [h])
  {
    hide StoredSize;
    hide HasBlock;
    hide IsBlock;
  }

  lemma {:induction false} ChainGrows(handles: seq<Handle>, end: nat, h: Handle)
    requires Chained(handles, end) && h.offset == end
    ensures Chained(handles + [h], end + h.size + TRAILER_SIZE)
  {
    assert (handles + [h])[..|handles|] == handles;
  }

  /** No block is as long as `blockSize` before its last item, and only at its last may it be. */
  ghost predicate Unfilled(items: seq<Item>, starts: seq<nat>, blockSize: nat, n: nat)
    requires n <= |items|
  {
    forall m | 0 < m < n :: EstimateAt(items, starts, m) < blockSize
  }

  ghost predicate Filled(items: seq<Item>, starts: seq<nat>, blockSize: nat) {
    EstimateAt(items, starts, |items|) >= blockSize
  }

  /** The first `n` blocks end with the item that made them as long as `blockSize`. */
  ghost predicate CutAt(blocks: seq<seq<Item>>, starts: seq<seq<nat>>, blockSize: nat, interval: nat, n: nat)
    requires n <= |blocks|
  {
    && |starts| == |blocks|
    && forall b {:trigger blocks[b]} | 0 <= b < |blocks| ::
         && RestartsOk(interval, |blocks[b]|, starts[b]) && Unfilled(blocks[b], starts[b], blockSize, |blocks[b]|)
         && (b < n ==> Filled(blocks[b], starts[b], blockSize))
  }

  lemma UnfilledGrows(items: seq<Item>, starts: seq<nat>, starts': seq<nat>, item: Item, blockSize: nat)
    requires |starts| > 0 && (starts' == starts || starts' == starts + [|items|])
    requires Unfilled(items, starts, blockSize, |items|) && (items != [] ==> !Filled(items, starts, blockSize))
    ensures Unfilled(items + [item], starts', blockSize, |items| + 1)
  {
    hide EstimateAt;
    forall m | 0 < m < |items| + 1 ensures EstimateAt(items + [item], starts', m) < blockSize {
      EstimateStays(items, starts, starts', item, m);
    }
  }

  lemma NothingUnfilled(starts: seq<nat>, blockSize: nat)
    ensures Unfilled([], starts, blockSize, 0)
  {
  }

  lemma CutGrows(blocks: seq<seq<Item>>, starts: seq<seq<nat>>, blockSize: nat, interval: nat, items: seq<Item>,
      start: seq<nat>)
    requires CutAt(blocks, starts, blockSize, interval, |blocks|) && RestartsOk(interval, |items|, start)
    requires Unfilled(items, start, blockSize, |items|)
    ensures CutAt(blocks + [items], starts + [start], blockSize, interval, |blocks|)
    ensures Filled(items, start, blockSize) ==>
      CutAt(blocks + [items], starts + [start], blockSize, interval, |blocks| + 1)
  {
    hide RestartsOk;
    hide Unfilled;
    hide Filled;
  }

  lemma CutFewer(blocks: seq<seq<Item>>, starts: seq<seq<nat>>, blockSize: nat, interval: nat, n: nat)
    requires CutAt(blocks, starts, blockSize, interval, |blocks|) && n <= |blocks|
    ensures CutAt(blocks, starts, blockSize, interval, n)
  {
    hide RestartsOk;
    hide Unfilled;
    hide Filled;
  }

  /** The user keys of a block's entries, each with the offset of the block. */
  ghost function KeysAt(items: seq<Item>, offset: nat): (r: seq<(nat, Bytes)>) {
    if items == [] then []
    else
      var last := items[|items| - 1];
      KeysAt(items[..|items| - 1], offset) + [(offset, if |last.key| >= 8 then UserOf(last.key) else last.key)]
  }

  ghost function AddedOf(blocks: seq<seq<Item>>, handles: seq<Handle>): (r: seq<(nat, Bytes)>)
    requires |handles| == |blocks|
  {
    if blocks == [] then []
    else
      var n := |blocks| - 1;
      AddedOf(blocks[..n], handles[..n]) + KeysAt(blocks[n], handles[n].offset)
  }

  /** All entries, those of the current block too, are in the filter of their block, in order, and nothing else is. */
  ghost predicate InFilter(added: seq<(nat, Bytes)>, blocks: seq<seq<Item>>, handles: seq<Handle>, current: seq<Item>,
      offset: nat)
    requires |handles| == |blocks|
  {
    && FilterOk(added, blocks, handles) && added == AddedOf(blocks, handles) + KeysAt(current, offset)
    && forall i {:trigger current[i]} | 0 <= i < |current| && |current[i].key| >= 8 ::
      (offset, UserOf(current[i].key)) in added
  }

  lemma FilterGrows(added: seq<(nat, Bytes)>, blocks: seq<seq<Item>>, handles: seq<Handle>, current: seq<Item>,
      offset: nat, item: Item)
    requires |handles| == |blocks| && InFilter(added, blocks, handles, current, offset) && |item.key| >= 8
    ensures InFilter(added + [(offset, UserOf(item.key))], blocks, handles, current + [item], offset)
  {
    hide UserOf;
    hide AddedOf;
    assert (current + [item])[..|current|] == current;
    assert added + [(offset, UserOf(item.key))] ==
      AddedOf(blocks, handles) + (KeysAt(current, offset) + [(offset, UserOf(item.key))]);
  }

  lemma StillEmpty(blocks: seq<seq<Item>>, seps: seq<Bytes>, current: seq<Item>, pending: bool, lastKey: Bytes)
    requires DataOk(blocks, seps, current, pending, lastKey) && current != []
    ensures !pending
  {
  }

  /** The current block becomes a finished one at the same offset. */
  lemma FilterMoves(added: seq<(nat, Bytes)>, blocks: seq<seq<Item>>, handles: seq<Handle>, current: seq<Item>,
      offset: nat, size: nat, next: nat)
    requires |handles| == |blocks| && InFilter(added, blocks, handles, current, offset)
    ensures InFilter(added, blocks + [current], handles + [Handle(offset, size)], [], next)
  {
    hide UserOf;
    var blocks': seq<seq<Item>>, handles': seq<Handle> := blocks + [current], handles + [Handle(offset, size)];
    assert blocks'[..|blocks|] == blocks && handles'[..|blocks|] == handles;
    assert KeysAt([], next) == [] && added + [] == added;
    forall b: nat, i: nat | b < |blocks'| && i < |blocks'[b]| && |blocks'[b][i].key| >= 8
      ensures (handles'[b].offset, UserOf(blocks'[b][i].key)) in added
    {
      if b < |blocks| { assert blocks'[b][i] == blocks[b][i]; } else { assert blocks'[b][i] == current[i]; }
    }
  }

  /** A table without entries. */
  lemma NothingYet(format: Format, compression: Byte, blockSize: nat, interval: nat, starts: seq<nat>)
    ensures DataOk([], [], [], false, []) && FlatItems([]) == [] && IndexItems([], []) == [] && Chained([], 0)
    ensures WrittenOk(format, [], [], [], [], []) && SizesOk(format, compression, [], [])
    ensures InFilter([], [], [], [], 0) && CutAt([], [], blockSize, interval, 0)
    ensures Unfilled([], starts, blockSize, 0)
  {
  }

  class TableBuilder {
    const blockSize: nat
    const interval: nat
    var dataBlock: BlockBuilder
    var indexBlock: BlockBuilder
    var filter: FilterBlockBuilder?
    var lastKey: Bytes
    var pending: Option<Handle>
    var offset: nat
    var file: Bytes
    const format: Format
    const compression: Byte

    ghost var blocks: seq<seq<Item>>
    ghost var seps: seq<Bytes>
    ghost var handles: seq<Handle>
    ghost var starts: seq<seq<nat>>
    /** The blocks as they were before compression. */
    ghost var raws: seq<Bytes>

    ghost predicate BuildersOk()
      reads `dataBlock, `indexBlock, dataBlock, indexBlock
    {
      && dataBlock != indexBlock && dataBlock.Valid() && indexBlock.Valid()
      && dataBlock.less == InternalLess && indexBlock.less == InternalLess && interval >= 1
      && dataBlock.interval == interval
    }

    /** The file is the blocks written so far. */
    ghost predicate FileOk()
      reads `file, `offset, `handles, `blocks, `starts, `raws
    {
      && format.Valid() && offset == |file| && Chained(handles, offset) && SizesOk(format, compression, raws, handles)
      && WrittenOk(format, file, blocks, starts, raws, handles)
    }

    ghost predicate FilterReady()
      reads `filter, `offset, filter
    {
      filter != null ==> filter.Valid() && filter.block == offset && |filter.offsets| == offset / FILTER_BASE
    }

    ghost predicate Valid()
      reads this, dataBlock, indexBlock, filter
    {
      && BuildersOk()
      && |handles| == |blocks| && |seps| <= |handles|
      && DataOk(blocks, seps, dataBlock.items, pending.Some?, lastKey)
      && indexBlock.items == IndexItems(seps, handles[..|seps|])
      && (pending.Some? ==> handles != [] && handles[|handles| - 1] == pending.value)
      && FileOk()
      && FilterReady()
      && (filter != null ==> InFilter(filter.added, blocks, handles, dataBlock.items, offset))
    }

    /** Every entry added so far. */
    ghost function Entries(): (r: seq<Item>)
      reads this, dataBlock
    {
      FlatItems(blocks) + dataBlock.items
    }

    /** The blocks so far were cut where they should be, and the current one is not as long as it may get. */
    ghost predicate Cut()
      reads `blocks, `starts, `dataBlock, dataBlock
    {
      && CutAt(blocks, starts, blockSize, interval, |blocks|)
      && Unfilled(dataBlock.items, dataBlock.starts, blockSize, |dataBlock.items|)
      && (dataBlock.items != [] ==> !Filled(dataBlock.items, dataBlock.starts, blockSize))
    }

    constructor (blockSize: nat, interval: nat, policy: BloomFilterPolicy?, format: Format, compression: Byte)
      requires interval >= 1 && (policy != null ==> policy.Valid()) && format.Valid()
      ensures Valid() && Entries() == [] && this.format == format && Cut()
      ensures this.blockSize == blockSize && this.interval == interval && this.compression == compression
      ensures fresh(dataBlock) && fresh(indexBlock)
      ensures if policy == null then filter == null else filter != null && fresh(filter) && filter.policy == policy
    {
      hide InternalLess;
      hide DataOk;
      hide FlatItems;
      hide IndexItems;
      hide Chained;
      hide WrittenOk;
      hide SizesOk;
      hide InFilter;
      hide CutAt;
      hide Unfilled;
      hide BuilderOk;
      this.blockSize, this.interval, this.format, this.compression := blockSize, interval, format, compression;
      var d := new BlockBuilder(interval, InternalLess);
      var i := new BlockBuilder(1, InternalLess);
      dataBlock, indexBlock, filter := d, i, null;
      if policy != null {
        var f := new FilterBlockBuilder(policy);
        f.StartBlock(0);
        filter := f;
      }
      lastKey, pending, offset, file := [], None, 0, [];
      blocks, seps, handles, starts, raws := [], [], [], [], [];
      NothingYet(format, compression, blockSize, interval, d.starts);
    }

    /** Keys come in ascending order.  The index entry of a finished block is written when the next key is known. */
    method Add(key: Bytes, value: Bytes)
      requires Valid() && |key| >= 8 && (Entries() != [] ==> InternalLess(LastKey(Entries()), key))
      modifies this, dataBlock, indexBlock, filter
      ensures Valid() && Entries() == old(Entries()) + [Item(key, value)]
      ensures old(Cut()) ==> Cut()
      ensures indexBlock == old(indexBlock) && filter == old(filter)
      ensures dataBlock == old(dataBlock) || fresh(dataBlock)
    {
      hide InternalLess;
      hide DataOk;
      hide WrittenOk;
      hide InFilter;
      hide BuilderOk;
      hide FileOk;
      hide EstimateAt;
      hide Unfilled;
      hide CutAt;
      hide FilterReady;
      hide FlatItems;
      LastIsLast(blocks, seps, dataBlock.items, pending.Some?, lastKey);
      ghost var cut, items, starting := Cut(), dataBlock.items, dataBlock.starts;
      AddToBlock(key, value);
      if cut { UnfilledGrows(items, starting, dataBlock.starts, Item(key, value), blockSize); }
      if dataBlock.CurrentSizeEstimate() >= blockSize {
        ghost var was, before := blocks, starts;
        items, starting := dataBlock.items, dataBlock.starts;
        Flush();
        if cut {
          CutGrows(was, before, blockSize, interval, items, starting);
          NothingUnfilled(dataBlock.starts, blockSize);
        }
      }
    }

    method AddToBlock(key: Bytes, value: Bytes)
      requires Valid() && |key| >= 8 && (blocks != [] || dataBlock.items != [] ==> InternalLess(lastKey, key))
      modifies this, dataBlock, indexBlock, filter
      ensures Valid() && Entries() == old(Entries()) + [Item(key, value)]
      ensures dataBlock == old(dataBlock) && indexBlock == old(indexBlock) && filter == old(filter)
      ensures blocks == old(blocks) && starts == old(starts)
      ensures dataBlock.items == old(dataBlock.items) + [Item(key, value)] && |old(dataBlock.starts)| > 0
      ensures dataBlock.starts == old(dataBlock.starts)
        || dataBlock.starts == old(dataBlock.starts) + [|old(dataBlock.items)|]
    {
      hide InternalLess;
      hide DataOk;
      hide WrittenOk;
      hide InFilter;
      hide IsBlock;
      hide BuilderOk;
      hide KeysOf;
      hide IsFilterOf;
      hide OffsetsOk;
      hide FileOk;
      hide FilterReady;
      hide FlatItems;
      hide IndexItems;
      hide TotalOrder;
      hide Ascending;
      ghost var item, current := Item(key, value), dataBlock.items;
      if current != [] { LastOfCurrent(blocks, seps, current, pending.Some?, lastKey); }
      SettlePending(key, item);
      AddToFilter(key, item);
      AddToData(key, value);
      assert FlatItems(blocks) + (current + [item]) == (FlatItems(blocks) + current) + [item];
    }

    method AddToData(key: Bytes, value: Bytes)
      requires BuildersOk() && (dataBlock.items != [] ==> InternalLess(LastKey(dataBlock.items), key))
      modifies `lastKey, dataBlock
      ensures BuildersOk() && lastKey == key
      ensures dataBlock.items == old(dataBlock.items) + [Item(key, value)] && |old(dataBlock.starts)| > 0
      ensures dataBlock.starts == old(dataBlock.starts)
        || dataBlock.starts == old(dataBlock.starts) + [|old(dataBlock.items)|]
    {
      hide InternalLess;
      hide BuilderOk;
      InternalIsTotal();
      lastKey := key;
      dataBlock.Add(key, value);
    }

    method AddToFilter(key: Bytes, ghost item: Item)
      requires FilterReady() && |key| >= 8 && item.key == key
      requires |handles| == |blocks|
      requires filter != null ==> InFilter(filter.added, blocks, handles, dataBlock.items, offset)
      modifies filter
      ensures FilterReady()
      ensures filter != null ==> InFilter(filter.added, blocks, handles, dataBlock.items + [item], offset)
    {
      hide InternalLess;
      hide InFilter;
      hide BuilderOk;
      if filter != null {
        FilterGrows(filter.added, blocks, handles, dataBlock.items, offset, item);
        filter.AddKey(UserOf(key));
      }
    }

    /** The index entry that waits for the next key is written now. */
    method SettlePending(key: Bytes, ghost item: Item)
      requires BuildersOk() && |handles| == |blocks| && |seps| <= |handles|
      requires |key| >= 8 && item.key == key
      requires DataOk(blocks, seps, dataBlock.items, pending.Some?, lastKey)
      requires blocks != [] || dataBlock.items != [] ==> InternalLess(lastKey, key)
      requires indexBlock.items == IndexItems(seps, handles[..|seps|])
      requires pending.Some? ==> handles != [] && handles[|handles| - 1] == pending.value
      modifies `pending, `seps, indexBlock
      ensures BuildersOk() && pending.None? && |seps| <= |handles|
      ensures DataOk(blocks, seps, dataBlock.items + [item], false, key)
      ensures indexBlock.items == IndexItems(seps, handles[..|seps|])
    {
      hide InternalLess;
      hide DataOk;
      hide BuilderOk;
      ghost var current := dataBlock.items;
      if pending.Some? {
        LastKeyIsLong(blocks, seps, current, lastKey);
        var sep := InternalSeparator(lastKey, key);
        SeparatorFits(blocks, seps, lastKey, sep, item);
        assert current + [item] == [item];
        AddIndexEntry(sep);
      } else {
        AnotherFits(blocks, seps, current, lastKey, item);
      }
    }

    method AddIndexEntry(sep: Bytes)
      requires BuildersOk() && pending.Some? && |handles| == |seps| + 1
      requires handles[|seps|] == pending.value
      requires indexBlock.items == IndexItems(seps, handles[..|seps|])
      requires seps != [] ==> InternalLess(seps[|seps| - 1], sep)
      modifies `pending, `seps, indexBlock
      ensures BuildersOk() && pending.None? && seps == old(seps) + [sep]
      ensures indexBlock.items == IndexItems(seps, handles[..|seps|])
    {
      hide InternalLess;
      hide BuilderOk;
      hide EncodeHandle;
      InternalIsTotal();
      indexBlock.Add(sep, EncodeHandle(pending.value));
      seps := seps + [sep];
      pending := None;
    }

    method Flush()
      requires Valid()
      modifies this, dataBlock, filter
      ensures Valid() && Entries() == old(Entries()) && dataBlock.items == []
      ensures if old(dataBlock.items) == [] then blocks == old(blocks) && starts == old(starts)
        else blocks == old(blocks) + [old(dataBlock.items)] && starts == old(starts) + [old(dataBlock.starts)]
      ensures old(dataBlock.items) != [] ==> RestartsOk(interval, |old(dataBlock.items)|, old(dataBlock.starts))
      ensures indexBlock == old(indexBlock) && filter == old(filter)
      ensures dataBlock == old(dataBlock) || fresh(dataBlock)
    {
      hide InternalLess;
      hide DataOk;
      hide WrittenOk;
      hide IsBlock;
      hide InFilter;
      hide BuilderOk;
      hide FileOk;
      hide RestartsOk;
      hide IndexItems;
      dataBlock.EmptyBuffer();
      if dataBlock.buffer == [] {
        return;
      }
      ghost var items := dataBlock.items;
      StillEmpty(blocks, seps, items, pending.Some?, lastKey);
      FlushFits(blocks, seps, items, lastKey);
      assert FlatItems(blocks + [items]) == FlatItems(blocks) + items by {
        assert (blocks + [items])[..|blocks|] == blocks;
      }
      WriteDataBlock();
      dataBlock := new BlockBuilder(interval, InternalLess);
      if filter != null {
        filter.StartBlock(offset);
      }
    }

    /** The contents and a trailer go to the end of the file. */
    method WriteRawBlock(stored: Bytes, kind: Byte, ghost raw: Bytes) returns (h: Handle)
      requires offset == |file| && (kind == NO_COMPRESSION || kind == SNAPPY_COMPRESSION)
      requires kind == NO_COMPRESSION ==> stored == raw
      requires kind == SNAPPY_COMPRESSION ==> format.uncompress(stored) == Some(raw)
      modifies `file, `offset
      ensures old(file) <= file && h.offset == old(offset) && offset == |file| == h.offset + h.size + TRAILER_SIZE
      ensures HasBlock(format, file, h, raw) && h.size == |stored|
    {
      AppendedIsRead(format, file, stored, kind, raw);
      h := Handle(offset, |stored|);
      file := file + stored + BlockTrailer(format, kind, stored);
      offset := offset + |stored| + TRAILER_SIZE;
    }

    /** Compressed only if that saves more than an eighth. */
    method WriteBlock(raw: Bytes) returns (h: Handle)
      requires offset == |file| && format.Valid()
      modifies `file, `offset
      ensures old(file) <= file && h.offset == old(offset) && offset == |file| == h.offset + h.size + TRAILER_SIZE
      ensures HasBlock(format, file, h, raw) && h.size == StoredSize(format, compression, raw)
    {
      hide HasBlock;
      var stored, kind := raw, NO_COMPRESSION;
      if compression == SNAPPY_COMPRESSION {
        var compressed := format.compress(raw);
        if compressed.Some? && |compressed.value| < |raw| - |raw| / 8 {
          stored, kind := compressed.value, SNAPPY_COMPRESSION;
        }
      }
      h := WriteRawBlock(stored, kind, raw);
    }

    /** The data block goes to the end of the file. */
    method WriteDataBlock()
      requires BuildersOk() && |handles| == |blocks| && FileOk()
      requires filter != null ==> InFilter(filter.added, blocks, handles, dataBlock.items, offset)
      modifies `pending, `file, `offset, `blocks, `starts, `handles, `raws, dataBlock
      ensures blocks == old(blocks) + [old(dataBlock.items)] && |handles| == |blocks|
      ensures starts == old(starts) + [old(dataBlock.starts)]
      ensures RestartsOk(interval, |old(dataBlock.items)|, old(dataBlock.starts))
      ensures handles == old(handles) + [handles[|handles| - 1]] && pending == Some(handles[|handles| - 1])
      ensures FileOk() && offset >= old(offset)
      ensures filter != null ==> InFilter(filter.added, blocks, handles, [], offset)
    {
      hide InternalLess;
      hide WrittenOk;
      hide IsBlock;
      hide InFilter;
      hide HasBlock;
      hide BuilderOk;
      hide Chained;
      hide SizesOk;
      hide StoredSize;
      hide RestartsOk;
      ghost var items, start, was := dataBlock.items, dataBlock.starts, file;
      var raw := dataBlock.Finish();
      var h := WriteBlock(raw);
      SizesGrow(format, compression, was, blocks, starts, raws, handles, raw, h);
      WriteAppends(format, was, file, blocks, starts, raws, handles, raw, items, start, h);
      ChainGrows(handles, |was|, h);
      if filter != null {
        FilterMoves(filter.added, blocks, handles, items, h.offset, h.size, offset);
      }
      blocks, starts, raws, handles := blocks + [items], starts + [start], raws + [raw], handles + [h];
      pending := Some(h);
    }

    /** The finished filter goes to the file. */
    method WriteFilter() returns (h: Option<Handle>, ghost contents: Bytes)
      requires offset == |file| && (filter != null ==> filter.Valid())
      modifies `file, `offset, filter
      ensures old(file) <= file && offset == |file| && (h.Some? <==> filter != null)
      ensures filter != null ==> h.value.offset + h.value.size + TRAILER_SIZE == |file|
      ensures filter != null ==> HasBlock(format, file, h.value, contents)
      ensures filter != null && |contents| < WORD_LIMIT ==> IsFilterBlock(filter.policy, contents, old(filter.added))
      ensures filter == null ==> contents == []
    {
      hide IsFilterBlock;
      hide HasBlock;
      h, contents := None, [];
      if filter != null {
        var block := filter.Finish();
        contents := block;
        var handle := WriteRawBlock(block, NO_COMPRESSION, block);
        h := Some(handle);
      }
    }

    /** The metaindex names the filter. */
    method WriteMetaIndex(filterHandle: Option<Handle>)
        returns (h: Handle, ghost contents: Bytes, ghost metaStarts: seq<nat>)
      requires offset == |file| && format.Valid() && interval >= 1
      modifies `file, `offset
      ensures old(file) <= file && offset == |file| == h.offset + h.size + TRAILER_SIZE
      ensures HasBlock(format, file, h, contents)
      ensures |contents| < WORD_LIMIT ==> IsBlock(contents, MetaItems(filterHandle), metaStarts)
    {
      hide HasBlock;
      hide InternalLess;
      hide IsBlock;
      hide BuilderOk;
      hide EncodeHandle;
      var metaIndexBlock := new BlockBuilder(interval, InternalLess);
      InternalIsTotal();
      if filterHandle.Some? {
        metaIndexBlock.Add(FILTER_KEY, EncodeHandle(filterHandle.value));
      }
      assert metaIndexBlock.items == MetaItems(filterHandle);
      metaStarts := metaIndexBlock.starts;
      var raw := metaIndexBlock.Finish();
      contents := raw;
      h := WriteBlock(raw);
    }

    /** Filter and metaindex. */
    method WriteMetaBlocks()
      returns (filterHandle: Option<Handle>, h: Handle, ghost filterContents: Bytes, ghost contents: Bytes,
        ghost metaStarts: seq<nat>)
      requires offset == |file| && format.Valid() && interval >= 1
      requires filter != null ==> filter.Valid()
      modifies `file, `offset, filter
      ensures old(file) <= file && offset == |file| == h.offset + h.size + TRAILER_SIZE
      ensures HasBlock(format, file, h, contents)
      ensures |contents| < WORD_LIMIT ==> IsBlock(contents, MetaItems(filterHandle), metaStarts)
      ensures filterHandle.Some? <==> filter != null
      ensures filter != null ==> HasBlock(format, file, filterHandle.value, filterContents)
      ensures filter != null ==> filterHandle.value.offset + filterHandle.value.size <= |file|
      ensures filter != null && |filterContents| < WORD_LIMIT ==>
        IsFilterBlock(filter.policy, filterContents, old(filter.added))
    {
      hide HasBlock;
      hide IsBlock;
      hide IsFilterBlock;
      filterHandle, filterContents := WriteFilter();
      ghost var was := file;
      h, contents, metaStarts := WriteMetaIndex(filterHandle);
      if filter != null {
        BlockSurvives(format, was, file, filterHandle.value, filterContents);
      }
    }

    /** The last index entry, and the index. */
    method WriteIndex() returns (h: Handle, ghost contents: Bytes, ghost indexStarts: seq<nat>)
      requires BuildersOk() && |handles| == |blocks| && |seps| <= |handles|
      requires DataOk(blocks, seps, [], pending.Some?, lastKey)
      requires indexBlock.items == IndexItems(seps, handles[..|seps|])
      requires pending.Some? ==> handles != [] && handles[|handles| - 1] == pending.value
      requires offset == |file| && format.Valid()
      modifies `pending, `seps, `file, `offset, indexBlock
      ensures TableOk(blocks, seps) && |seps| == |handles|
      ensures old(file) <= file && offset == |file| == h.offset + h.size + TRAILER_SIZE
      ensures HasBlock(format, file, h, contents)
      ensures |contents| < WORD_LIMIT ==> IsBlock(contents, IndexItems(seps, handles), indexStarts)
    {
      hide HasBlock;
      hide InternalLess;
      hide IsBlock;
      hide BuilderOk;
      FinishIndex();
      indexStarts := indexBlock.starts;
      var raw := indexBlock.Finish();
      contents := raw;
      h := WriteBlock(raw);
    }

    /** The index entry of the last block. */
    method FinishIndex()
      requires BuildersOk() && |handles| == |blocks| && |seps| <= |handles|
      requires DataOk(blocks, seps, [], pending.Some?, lastKey)
      requires indexBlock.items == IndexItems(seps, handles[..|seps|])
      requires pending.Some? ==> handles != [] && handles[|handles| - 1] == pending.value
      modifies `pending, `seps, indexBlock
      ensures BuildersOk() && TableOk(blocks, seps) && |seps| == |handles|
      ensures indexBlock.items == IndexItems(seps, handles)
    {
      hide InternalLess;
      hide BuilderOk;
      if pending.Some? {
        LastKeyIsLong(blocks, seps, [], lastKey);
        var sep := InternalSuccessor(lastKey);
        SuccessorFits(blocks, seps, lastKey, sep);
        AddIndexEntry(sep);
      }
      assert handles[..|handles|] == handles;
    }

    /**
     The filter, the metaindex, the last index entry, the index, and a footer that leads to them.  `all` are the blocks
     as they were before compression; the code does not check that each is below 4 GiB.
     */
    method Finish() returns (ghost t: Layout, ghost all: seq<Bytes>)
      requires Valid()
      modifies this, dataBlock, indexBlock, filter
      ensures filter == old(filter) && FlatItems(t.blocks) == old(Entries())
      ensures old(Cut()) ==>
        CutAt(t.blocks, t.starts, blockSize, interval, if t.blocks == [] then 0 else |t.blocks| - 1)
      ensures SizesOk(format, compression, all, t.handles) && |t.handles| == |t.blocks|
      ensures filter != null ==> t.added == AddedOf(t.blocks, t.handles)
      ensures |file| < LONG_LIMIT && AllFit(all) ==>
        IsTableFile(format, file, t, if filter == null then null else filter.policy)
    {
      hide InternalLess;
      hide DataOk;
      hide InFilter;
      hide BuilderOk;
      hide FileOk;
      hide IsTableFile;
      hide SizesOk;
      hide CutAt;
      hide Unfilled;
      ghost var cut, was, before, items, starting := Cut(), blocks, starts, dataBlock.items, dataBlock.starts;
      Flush();
      assert FlatItems(blocks) + [] == FlatItems(blocks);
      if cut {
        if items != [] { CutGrows(was, before, blockSize, interval, items, starting); }
        else if blocks != [] { CutFewer(blocks, starts, blockSize, interval, |blocks| - 1); }
      }
      t, all := WriteRest();
    }

    method WriteRest() returns (ghost t: Layout, ghost all: seq<Bytes>)
      requires Valid() && dataBlock.items == []
      modifies this, indexBlock, filter
      ensures filter == old(filter) && t.blocks == old(blocks) && t.starts == old(starts)
      ensures SizesOk(format, compression, all, t.handles) && |t.handles| == |t.blocks|
      ensures filter != null ==> t.added == AddedOf(t.blocks, t.handles)
      ensures |file| < LONG_LIMIT && AllFit(all) ==>
        IsTableFile(format, file, t, if filter == null then null else filter.policy)
    {
      hide AddedOf;
      hide SizesOk;
      hide AllFit;
      hide IndexItems;
      hide MetaItems;
      hide StoredOk;
      hide InternalLess;
      hide DataOk;
      hide WrittenOk;
      hide IsBlock;
      hide InFilter;
      hide BuilderOk;
      hide TableOk;
      hide HasBlock;
      hide Chained;
      hide IsFilterBlock;
      hide IsTableFile;
      hide FooterOf;
      hide EncodeFooter;
      ghost var added := if filter != null then filter.added else [];
      ghost var data, end := file, offset;
      ghost var filterContents, metaContents, indexContents, metaStarts, indexStarts;
      var filterHandle, metaHandle, indexHandle;
      filterHandle, metaHandle, filterContents, metaContents, metaStarts := WriteMetaBlocks();
      ghost var withMeta := file;
      indexHandle, indexContents, indexStarts := WriteIndex();
      ghost var withIndex := file;
      file := file + EncodeFooter(metaHandle, indexHandle);
      offset := offset + FOOTER_LENGTH;
      t := Layout(blocks, seps, handles, starts, end, indexStarts, metaStarts, filterHandle, added);
      all := raws + [filterContents, metaContents, indexContents];
      if filter != null { FilterFits(added, blocks, handles, end); }
      SizesOfAll(format, compression, raws, all, handles);
      if |file| < LONG_LIMIT && AllFit(all) {
        AllOf(raws, filterContents, metaContents, indexContents);
        WrittenIsStored(format, data, file, blocks, starts, raws, handles, all);
        FinishedIsTable(format, withMeta, withIndex, t, if filter == null then null else filter.policy, metaHandle,
          indexHandle,
          filterContents, metaContents, indexContents);
      }
    }
  }

  /** No block is too long for the 32-bit offsets that refer into it. */
  ghost predicate AllFit(all: seq<Bytes>) {
    forall raw | raw in all :: |raw| < WORD_LIMIT
  }

  lemma SizesOfAll(format: Format, compression: Byte, raws: seq<Bytes>, all: seq<Bytes>, handles: seq<Handle>)
    requires SizesOk(format, compression, raws, handles) && raws <= all
    ensures SizesOk(format, compression, all, handles)
  {
    hide StoredSize;
  }

  lemma AllOf(raws: seq<Bytes>, a: Bytes, b: Bytes, c: Bytes)
    requires AllFit(raws + [a, b, c])
    ensures |a| < WORD_LIMIT && |b| < WORD_LIMIT && |c| < WORD_LIMIT
    ensures raws <= raws + [a, b, c]
  {
    var all := raws + [a, b, c];
    assert all[|raws|] in all && all[|raws| + 1] in all && all[|raws| + 2] in all;
  }

  lemma FooterIsFound(file: Bytes, metaindex: Handle, index: Handle)
    requires HandleFits(metaindex) && HandleFits(index)
    ensures FooterOf(file + EncodeFooter(metaindex, index)) == Footer(metaindex, index)
  {
    hide EncodeFooter;
    hide DecodeFooter;
    var all := file + EncodeFooter(metaindex, index);
    assert all[|all| - FOOTER_LENGTH..] == EncodeFooter(metaindex, index);
    DecodeUndoesFooter(metaindex, index);
  }

  lemma FinishedIsTable(format: Format, withMeta: Bytes, withIndex: Bytes, t: Layout, built: BloomFilterPolicy?,
    metaHandle: Handle, indexHandle: Handle, filterContents: Bytes, metaContents: Bytes, indexContents: Bytes)
    requires withMeta <= withIndex && HandleFits(metaHandle) && HandleFits(indexHandle)
    requires HasBlock(format, withMeta, metaHandle, metaContents)
    requires IsBlock(metaContents, MetaItems(t.filter), t.metaStarts)
    requires HasBlock(format, withIndex, indexHandle, indexContents) && LayoutOk(t) && Chained(t.handles, t.end)
    requires IsBlock(indexContents, IndexItems(t.seps, t.handles), t.indexStarts)
    requires t.filter.Some? <==> built != null
    requires built != null ==> built.Valid() && HandleFits(t.filter.value) && FilterOk(t.added, t.blocks, t.handles)
    requires built != null ==> IsFilterBlock(built, filterContents, t.added)
    requires built != null ==> HasBlock(format, withMeta, t.filter.value, filterContents)
    requires StoredOk(format, withIndex + EncodeFooter(metaHandle, indexHandle), t.blocks, t.starts, t.handles)
    ensures IsTableFile(format, withIndex + EncodeFooter(metaHandle, indexHandle), t, built)
  {
    hide TableOk;
    hide StoredOk;
    hide FilterOk;
    hide IsBlock;
    hide IsFilterBlock;
    hide HasBlock;
    hide FooterOf;
    hide Chained;
    var file := withIndex + EncodeFooter(metaHandle, indexHandle);
    FooterIsFound(withIndex, metaHandle, indexHandle);
    BlockSurvives(format, withMeta, file, metaHandle, metaContents);
    BlockSurvives(format, withIndex, file, indexHandle, indexContents);
    if built != null { BlockSurvives(format, withMeta, file, t.filter.value, filterContents); }
  }

  lemma WrittenIsStored(format: Format, data: Bytes, file: Bytes, blocks: seq<seq<Item>>, starts: seq<seq<nat>>,
    raws: seq<Bytes>, handles: seq<Handle>, all: seq<Bytes>)
    requires WrittenOk(format, data, blocks, starts, raws, handles) && data <= file && |file| < LONG_LIMIT
    requires raws <= all && AllFit(all)
    ensures StoredOk(format, file, blocks, starts, handles)
  {
    hide IsBlock;
    hide ReadBlock;
    forall b | 0 <= b < |blocks|
      ensures HandleFits(handles[b]) && IsStored(format, file, handles[b], blocks[b], starts[b])
    {
      assert all[b] in all && HasBlock(format, data, handles[b], raws[b]);
      BlockSurvives(format, data, file, handles[b], raws[b]);
    }
  }

  lemma FilterFits(added: seq<(nat, Bytes)>, blocks: seq<seq<Item>>, handles: seq<Handle>, offset: nat)
    requires |handles| == |blocks| && InFilter(added, blocks, handles, [], offset)
    ensures FilterOk(added, blocks, handles) && added == AddedOf(blocks, handles)
  {
    assert KeysAt([], offset) == [] && AddedOf(blocks, handles) + [] == AddedOf(blocks, handles);
  }

  // ----- from entries to answers -----

  /** Adds the entries one by one and finishes the table. */
  method Build(entries: seq<Item>, blockSize: nat, interval: nat, format: Format, compression: Byte,
      policy: BloomFilterPolicy?)
    returns (file: Bytes, ghost t: Layout, ghost all: seq<Bytes>)
    requires Ascending(InternalLess, entries) && forall e | e in entries :: |e.key| >= 8
    requires interval >= 1 && format.Valid() && (policy != null ==> policy.Valid())
    ensures FlatItems(t.blocks) == entries
    ensures CutAt(t.blocks, t.starts, blockSize, interval, if t.blocks == [] then 0 else |t.blocks| - 1)
    ensures SizesOk(format, compression, all, t.handles) && |t.handles| == |t.blocks|
    ensures policy != null ==> t.added == AddedOf(t.blocks, t.handles)
    ensures |file| < LONG_LIMIT && AllFit(all) ==> IsTableFile(format, file, t, policy)
  {
    hide InternalLess;
    hide IsTableFile;
    hide FlatItems;
    hide TableBuilder.Valid;
    hide TableBuilder.Entries;
    hide TableBuilder.Cut;
    hide CutAt;
    hide SizesOk;
    hide AddedOf;
    var builder := new TableBuilder(blockSize, interval, policy, format, compression);
    for i := 0 to |entries|
      invariant fresh(builder) && fresh(builder.dataBlock) && fresh(builder.indexBlock)
      invariant if policy == null then builder.filter == null
        else builder.filter != null && fresh(builder.filter) && builder.filter.policy == policy
      invariant builder.Valid() && builder.format == format && builder.Entries() == entries[..i]
      invariant builder.Cut() && builder.blockSize == blockSize && builder.interval == interval
      invariant builder.compression == compression
    {
      assert entries[i] in entries && (i > 0 ==> InternalLess(entries[i - 1].key, entries[i].key));
      builder.Add(entries[i].key, entries[i].value);
      assert entries[..i + 1] == entries[..i] + [Item(entries[i].key, entries[i].value)];
    }
    assert entries[..|entries|] == entries;
    t, all := builder.Finish();
    file := builder.file;
  }
}
