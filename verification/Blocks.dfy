/**
 Prefix-compressed blocks (table/block_builder.cc, table/block.cc): a builder that shares key prefixes between restart
 points, and an iterator that seeks by binary search over the restart points and a scan from there.
 */
module Blocks {
  import opened InternalKeys
  import opened Coding

  datatype Item = Item(key: Bytes, value: Bytes)

  /** The comparator: any strict total order of byte strings. */
  type Comparator = (Bytes, Bytes) -> bool

  ghost predicate TotalOrder(less: Comparator) {
    && (forall a :: !less(a, a))
    && (forall a, b, c {:trigger less(a, b), less(b, c)} | less(a, b) && less(b, c) :: less(a, c))
    && (forall a, b {:trigger less(a, b)} | a != b :: less(a, b) || less(b, a))
  }

  ghost predicate Ascending(less: Comparator, items: seq<Item>) {
    forall i, j {:trigger less(items[i].key, items[j].key)} | 0 <= i < j < |items| :: less(items[i].key, items[j].key)
  }

  // ----- the layout of a block -----

  function CommonPrefix(a: Bytes, b: Bytes): (n: nat)
    ensures n <= |a| && n <= |b|
    ensures var shared := n; a[..shared] == b[..shared]
    ensures n < |a| && n < |b| ==> a[n] != b[n]
  {
    if a == [] || b == [] || a[0] != b[0] then 0
    else
      var n := CommonPrefix(a[1..], b[1..]);
      assert a[..n + 1] == [a[0]] + a[1..][..n] && b[..n + 1] == [b[0]] + b[1..][..n];
      n + 1
  }

  /** `starts` are the items at restart points, which store their key in full. */
  function Shared(items: seq<Item>, starts: seq<nat>, i: nat): (n: nat)
    requires i < |items|
    ensures n <= |items[i].key|
  {
    if i == 0 || i in starts then 0 else CommonPrefix(items[i - 1].key, items[i].key)
  }

  /** The three lengths. */
  function Head(shared: nat, item: Item): (r: Bytes)
    requires shared <= |item.key|
  {
    EncodeVarint32(shared % WORD_LIMIT) + EncodeVarint32((|item.key| - shared) % WORD_LIMIT)
      + EncodeVarint32(|item.value| % WORD_LIMIT)
  }

  function EncodeItem(shared: nat, item: Item): (r: Bytes)
    requires shared <= |item.key|
    ensures |r| >= 3
  {
    Head(shared, item) + item.key[shared..] + item.value
  }

  /** The first n items. */
  function Data(items: seq<Item>, starts: seq<nat>, n: nat): (r: Bytes)
    requires n <= |items|
  {
    if n == 0 then [] else Data(items, starts, n - 1) + EncodeItem(Shared(items, starts, n - 1), items[n - 1])
  }

  function Offset(items: seq<Item>, starts: seq<nat>, i: nat): (r: nat)
    requires i <= |items|
  {
    |Data(items, starts, i)|
  }

  function FixedAll(points: seq<nat>): (r: Bytes)
    ensures |r| == 4 * |points|
  {
    if points == [] then [] else FixedAll(points[..|points| - 1]) + EncodeFixed32(points[|points| - 1] % WORD_LIMIT)
  }

  /** Restart points in ascending order, the first at the first item; an empty block has one, too. */
  ghost predicate StartsOk(n: nat, starts: seq<nat>) {
    && |starts| > 0 && starts[0] == 0 && (forall r | 0 < r < |starts| :: starts[r] < n)
    && forall r, s | 0 <= r < s < |starts| :: starts[r] < starts[s]
  }

  ghost function Points(items: seq<Item>, starts: seq<nat>): (r: seq<nat>)
    requires StartsOk(|items|, starts)
    ensures |r| == |starts|
  {
    seq(|starts|, r requires 0 <= r < |starts| => Offset(items, starts, starts[r]))
  }

  /** The finished block. */
  ghost predicate IsBlock(contents: Bytes, items: seq<Item>, starts: seq<nat>) {
    && StartsOk(|items|, starts)
    && contents == Data(items, starts, |items|) + FixedAll(Points(items, starts)) + EncodeFixed32(|starts| % WORD_LIMIT)
    && |contents| < WORD_LIMIT
  }

  /** A restart point at the first item and at every `interval`-th from there. */
  predicate RestartsOk(interval: nat, n: nat, starts: seq<nat>) {
    && |starts| > 0 && n <= starts[|starts| - 1] + interval
    && forall r | 0 <= r < |starts| :: starts[r] == r * interval
  }

  /** How many of them are among the first `n` items. */
  function RestartsBefore(starts: seq<nat>, n: nat): (r: nat)
    ensures r <= |starts|
  {
    if |starts| <= 1 || starts[|starts| - 1] < n then |starts| else RestartsBefore(starts[..|starts| - 1], n)
  }

  /** How long the block is if it ends behind the first `n` items. */
  function EstimateAt(items: seq<Item>, starts: seq<nat>, n: nat): (r: nat)
    requires n <= |items|
  {
    |Data(items, starts, n)| + 4 * RestartsBefore(starts, n) + 4
  }

  /** More items, and a restart point at the first of them, change nothing in front of it. */
  lemma {:induction false} EstimateStays(items: seq<Item>, starts: seq<nat>, starts': seq<nat>, item: Item, n: nat)
    requires n <= |items| && |starts| > 0 && (starts' == starts || starts' == starts + [|items|])
    ensures EstimateAt(items + [item], starts', n) == EstimateAt(items, starts, n)
  {
    hide Data;
    DataExtends(items, starts, item, |items|, n);
    assert (starts + [|items|])[..|starts|] == starts;
  }

  lemma {:induction false} DataExtends(items: seq<Item>, starts: seq<nat>, item: Item, start: nat, n: nat)
    requires n <= |items| && start >= |items|
    ensures Data(items + [item], starts + [start], n) == Data(items, starts, n)
    ensures Data(items + [item], starts, n) == Data(items, starts, n)
  {
    hide EncodeItem;
    if n > 0 {
      DataExtends(items, starts, item, start, n - 1);
      assert (items + [item])[n - 1] == items[n - 1];
      if n > 1 { assert (items + [item])[n - 2] == items[n - 2]; }
    }
  }

  // ----- the builder -----

  lemma {:induction false} AscendingExtends(less: Comparator, items: seq<Item>, item: Item)
    requires TotalOrder(less) && Ascending(less, items) && (items != [] ==> less(items[|items| - 1].key, item.key))
    ensures Ascending(less, items + [item])
  {
    var items' := items + [item];
    forall i, j | 0 <= i < j < |items'| ensures less(items'[i].key, items'[j].key) {
      if j < |items| {
        assert less(items[i].key, items[j].key);
      } else {
        assert i < |items| - 1 ==> less(items[i].key, items[|items| - 1].key);
      }
    }
  }

  lemma {:induction false} StartsExtend(n: nat, starts: seq<nat>)
    requires StartsOk(n, starts)
    ensures StartsOk(n + 1, starts) && (n > 0 ==> StartsOk(n + 1, starts + [n]) && n !in starts)
  {
  }

  /** An item behind the others; it may be a restart point. */
  lemma {:induction false} PointsExtend(items: seq<Item>, starts: seq<nat>, item: Item)
    requires StartsOk(|items|, starts)
    ensures Data(items + [item], starts, |items|) == Data(items, starts, |items|)
    ensures Data(items + [item], starts + [|items|], |items|) == Data(items, starts, |items|)
    ensures StartsOk(|items| + 1, starts) && Points(items + [item], starts) == Points(items, starts)
    ensures items != [] ==> StartsOk(|items| + 1, starts + [|items|])
    ensures items != [] ==>
      Points(items + [item], starts + [|items|]) == Points(items, starts) + [Offset(items, starts, |items|)]
  {
    hide Data;
    var items' := items + [item];
    StartsExtend(|items|, starts);
    DataExtends(items, starts, item, |items|, |items|);
    forall r | 0 <= r < |starts| ensures starts[r] <= |items|
      && Offset(items', starts, starts[r]) == Offset(items, starts, starts[r])
      && Offset(items', starts + [|items|], starts[r]) == Offset(items, starts, starts[r])
    {
      DataExtends(items, starts, item, |items|, starts[r]);
    }
  }

  lemma {:induction false} DataAppends(items: seq<Item>, starts: seq<nat>, starts': seq<nat>, item: Item, shared: nat)
    requires StartsOk(|items|, starts) && (starts' == starts || starts' == starts + [|items|])
    requires shared <= |item.key| && shared == Shared(items + [item], starts', |items|)
    ensures Data(items + [item], starts', |items| + 1) == Data(items, starts, |items|) + EncodeItem(shared, item)
  {
    hide EncodeItem;
    PointsExtend(items, starts, item);
    assert (items + [item])[|items|] == item;
  }

  ghost predicate BuilderOk(less: Comparator, interval: nat, items: seq<Item>, starts: seq<nat>,
    buffer: Bytes, restarts: seq<nat>, counter: nat, lastKey: Bytes)
  {
    && interval >= 1 && StartsOk(|items|, starts)
    && buffer == Data(items, starts, |items|) && restarts == Points(items, starts)
    && counter == |items| - starts[|starts| - 1] <= interval && RestartsOk(interval, |items|, starts)
    && lastKey == (if items == [] then [] else items[|items| - 1].key)
    && Ascending(less, items)
  }

  lemma {:induction false} RestartsExtend(interval: nat, n: nat, starts: seq<nat>)
    requires RestartsOk(interval, n, starts) && starts[|starts| - 1] <= n
    ensures n < starts[|starts| - 1] + interval ==> RestartsOk(interval, n + 1, starts)
    ensures n == starts[|starts| - 1] + interval && interval > 0 ==> RestartsOk(interval, n + 1, starts + [n])
  {
    var last := |starts| - 1;
    assert starts[last] == last * interval && (last + 1) * interval == last * interval + interval;
  }

  /** The key shares with the last one, or starts afresh at a new restart point. */
  lemma {:induction false} AddKeeps(less: Comparator, interval: nat, items: seq<Item>, starts: seq<nat>,
    buffer: Bytes, restarts: seq<nat>, counter: nat, lastKey: Bytes, item: Item, shared: nat)
    requires BuilderOk(less, interval, items, starts, buffer, restarts, counter, lastKey) && TotalOrder(less)
    requires items != [] ==> less(items[|items| - 1].key, item.key)
    requires shared == if counter < interval then CommonPrefix(lastKey, item.key) else 0
    ensures |starts| > 0
    ensures var again := counter < interval;
      BuilderOk(less, interval, items + [item], if again then starts else starts + [|items|],
        buffer + EncodeItem(shared, item),
        if again then restarts else restarts + [|buffer|], if again then counter + 1 else 1, item.key)
  {
    hide EncodeItem;
    hide Data;
    hide RestartsOk;
    hide Ascending;
    hide TotalOrder;
    hide CommonPrefix;
    AscendingExtends(less, items, item);
    StartsExtend(|items|, starts);
    PointsExtend(items, starts, item);
    RestartsExtend(interval, |items|, starts);
    assert (items + [item])[|items|] == item;
    DataAppends(items, starts, if counter < interval then starts else starts + [|items|], item, shared);
  }

  class BlockBuilder {
    const interval: nat
    const less: Comparator
    var buffer: Bytes
    var restarts: seq<nat>
    var counter: nat
    var lastKey: Bytes
    ghost var items: seq<Item>
    ghost var starts: seq<nat>

    ghost predicate Valid()
      reads this
    {
      BuilderOk(less, interval, items, starts, buffer, restarts, counter, lastKey)
    }

    constructor (interval: nat, less: Comparator)
      requires interval >= 1
      ensures Valid() && items == [] && this.interval == interval
      ensures this.less == less
    {
      this.interval, this.less := interval, less;
      buffer, restarts, counter, lastKey := [], [0], 0, [];
      items, starts := [], [0];
    }

    function CurrentSizeEstimate(): (r: nat)
      requires Valid()
      reads this
      ensures r == EstimateAt(items, starts, |items|)
    {
      |buffer| + 4 * |restarts| + 4
    }

    /** BlockBuilder::empty looks at the buffer. */
    lemma EmptyBuffer()
      requires Valid()
      ensures buffer == [] <==> items == []
    {
      if items != [] { OffsetsAscend(items, starts, 0, |items|); }
    }

    method SharedWithLast(key: Bytes) returns (shared: nat)
      ensures shared == CommonPrefix(lastKey, key)
    {
      shared := 0;
      var n := if |lastKey| < |key| then |lastKey| else |key|;
      while shared < n && lastKey[shared] == key[shared]
        invariant shared <= n
        invariant CommonPrefix(lastKey, key) == shared + CommonPrefix(lastKey[shared..], key[shared..])
      {
        assert lastKey[shared..][1..] == lastKey[shared + 1..] && key[shared..][1..] == key[shared + 1..];
        shared := shared + 1;
      }
    }

    /** Keys come in ascending order; a key in full once every `interval` of them. */
    method Add(key: Bytes, value: Bytes)
      requires Valid() && (items != [] ==> less(items[|items| - 1].key, key)) && TotalOrder(less)
      modifies this
      ensures Valid() && items == old(items) + [Item(key, value)]
      ensures |old(starts)| > 0 && (starts == old(starts) || starts == old(starts) + [|old(items)|])
    {
      hide EncodeItem;
      hide BuilderOk;
      hide CommonPrefix;
      hide Ascending;
      hide TotalOrder;
      var shared := 0;
      if counter < interval {
        shared := SharedWithLast(key);
      }
      AddKeeps(less, interval, items, starts, buffer, restarts, counter, lastKey, Item(key, value), shared);
      if counter >= interval {
        starts := starts + [|items|];
        restarts := restarts + [|buffer|];
        counter := 0;
      }
      assert lastKey[..shared] + key[shared..] == key by {
        assert lastKey[..shared] == key[..shared];
      }
      buffer := buffer + EncodeItem(shared, Item(key, value));
      lastKey := lastKey[..shared] + key[shared..];
      counter := counter + 1;
      items := items + [Item(key, value)];
    }

    method Finish() returns (contents: Bytes)
      requires Valid()
      modifies `buffer
      ensures |contents| < WORD_LIMIT ==> IsBlock(contents, items, starts)
      ensures buffer == contents && RestartsOk(interval, |items|, starts)
    {
      hide EncodeFixed32;
      hide Data;
      ghost var data := buffer;
      for i := 0 to |restarts|
        invariant buffer == data + FixedAll(restarts[..i])
      {
        assert restarts[..i + 1][..i] == restarts[..i];
        assert data + (FixedAll(restarts[..i]) + EncodeFixed32(restarts[i] % WORD_LIMIT)) ==
          buffer + EncodeFixed32(restarts[i] % WORD_LIMIT);
        buffer := buffer + EncodeFixed32(restarts[i] % WORD_LIMIT);
      }
      assert restarts[..|restarts|] == restarts;
      buffer := buffer + EncodeFixed32(|restarts| % WORD_LIMIT);
      contents := buffer;
    }
  }

  // ----- reading a finished block -----

  function NumRestarts(contents: Bytes): (r: Word)
    requires |contents| >= 4
  {
    DecodeFixed32(contents[|contents| - 4..])
  }

  function RestartPoint(contents: Bytes, restarts: nat, r: nat): (result: Word)
    requires restarts + 4 * r + 4 <= |contents|
  {
    DecodeFixed32(contents[restarts + 4 * r..])
  }

  /** The three lengths in front of an entry, and where its key bytes begin. */
  datatype Header = Header(shared: Word, nonShared: Word, valueLength: Word, delta: nat) {
    function Length(): (r: nat) {
      nonShared + valueLength
    }
  }

  datatype Decoded = Bad | Good(header: Header)

  /** Both sides of the length comparison are 32-bit numbers, and the sum of the two lengths wraps. */
  function DecodeEntry(contents: Bytes, p: nat, limit: nat): (r: Decoded)
    requires p <= limit <= |contents|
    ensures r.Good? ==> p < r.header.delta <= limit
  {
    if limit - p < 3 then Bad
    else
      var a, b, c := contents[p], contents[p + 1], contents[p + 2];
      var h := if a < 128 && b < 128 && c < 128 then Good(Header(a, b, c, p + 3)) else ThreeVarints(contents, p, limit);
      if h.Bad? || (limit - h.header.delta) % WORD_LIMIT < h.header.Length() % WORD_LIMIT then Bad else h
  }

  /** The entry decoded at p, if there is one, ends where the entries end or before. */
  predicate Stays(contents: Bytes, p: nat, limit: nat)
    requires p <= limit <= |contents|
  {
    var h := DecodeEntry(contents, p, limit);
    h.Good? ==> h.header.delta + h.header.Length() <= limit
  }

  /**
   In a block of less than 4 GiB that fails for exactly these bytes: three varints of which the last two, the lengths,
   add up to 4 GiB or more, by no more than the bytes that are left.
   */
  lemma {:induction false} StaysIff(contents: Bytes, p: nat, limit: nat)
    requires p <= limit <= |contents| && limit < WORD_LIMIT
    ensures Stays(contents, p, limit) <==>
      var h := ThreeVarints(contents, p, limit);
      !(h.Good? && WORD_LIMIT <= h.header.Length() <= WORD_LIMIT + (limit - h.header.delta))
  {
    hide ThreeVarints;
    var t := ThreeVarints(contents, p, limit);
    if limit - p < 3 {
      TooFewBytes(contents, p, limit);
    } else {
      if contents[p] < 128 && contents[p + 1] < 128 && contents[p + 2] < 128 { FastPathAgrees(contents, p, limit); }
      if t.Good? {
        LengthWraps(t.header.Length());
        assert (limit - t.header.delta) % WORD_LIMIT == limit - t.header.delta;
      }
    }
  }

  lemma LengthWraps(n: nat)
    requires n < 2 * WORD_LIMIT
    ensures n % WORD_LIMIT == if n < WORD_LIMIT then n else n - WORD_LIMIT
  {
  }

  lemma {:induction false} TooFewBytes(contents: Bytes, p: nat, limit: nat)
    requires p <= limit <= |contents| && limit - p < 3
    ensures ThreeVarints(contents, p, limit).Bad?
  {
    hide DecodeVarint32;
  }

  /** Seven bytes that are accepted although the value they announce ends 4 GiB behind them. */
  lemma {:induction false} AcceptedEntryMayNotStay()
    ensures var contents: Bytes := [0, 255, 255, 255, 255, 15, 1];
      DecodeEntry(contents, 0, 7) == Good(Header(0, WORD_LIMIT - 1, 1, 7)) && !Stays(contents, 0, 7)
  {
    hide ThreeVarints;
    var contents: Bytes := [0, 255, 255, 255, 255, 15, 1];
    assert EncodeVarint32(WORD_LIMIT - 1) == [255, 255, 255, 255, 15];
    assert contents[0..7] == EncodeVarint32(0) + EncodeVarint32(WORD_LIMIT - 1) + EncodeVarint32(1) + [];
    ThreeVarintsRead(contents, 0, 7, 0, WORD_LIMIT - 1, 1, []);
  }

  function ThreeVarints(contents: Bytes, p: nat, limit: nat): (r: Decoded)
    requires p <= limit <= |contents|
    ensures r.Good? ==> p < r.header.delta <= limit
  {
    var a := DecodeVarint32(contents[p..limit]);
    if a.Malformed? then Bad
    else
      var b := DecodeVarint32(a.rest);
      if b.Malformed? then Bad
      else
        var c := DecodeVarint32(b.rest);
        if c.Malformed? then Bad else Good(Header(a.value, b.value, c.value, limit - |c.rest|))
  }

  lemma {:induction false} ThreeVarintsRead(contents: Bytes, p: nat, limit: nat, a: Word, b: Word, c: Word, rest: Bytes)
    requires p <= limit <= |contents|
    requires contents[p..limit] == EncodeVarint32(a) + EncodeVarint32(b) + EncodeVarint32(c) + rest
    ensures ThreeVarints(contents, p, limit) == Good(Header(a, b, c, limit - |rest|))
  {
    hide EncodeVarint32;
    hide DecodeVarint32;
    var x, y, z := EncodeVarint32(a), EncodeVarint32(b), EncodeVarint32(c);
    assert x + y + z + rest == x + (y + (z + rest));
    DecodeUndoesVarint32(a, y + (z + rest));
    DecodeUndoesVarint32(b, z + rest);
    DecodeUndoesVarint32(c, rest);
  }

  /** The fast path agrees with the general one. */
  lemma {:induction false} FastPathAgrees(contents: Bytes, p: nat, limit: nat)
    requires p + 3 <= limit <= |contents| && contents[p] < 128 && contents[p + 1] < 128
    requires contents[p + 2] < 128
    ensures ThreeVarints(contents, p, limit) == Good(Header(contents[p], contents[p + 1], contents[p + 2], p + 3))
  {
    var a, b, c := contents[p], contents[p + 1], contents[p + 2];
    var rest := contents[p + 3..limit];
    assert contents[p..limit] == [a] + [b] + [c] + rest;
    ThreeVarintsRead(contents, p, limit, a, b, c, rest);
  }

  /** An encoded item is read back. */
  lemma {:induction false} EntryIsRead(contents: Bytes, p: nat, limit: nat, shared: nat, item: Item)
    requires shared <= |item.key| < WORD_LIMIT && |item.value| < WORD_LIMIT && limit < WORD_LIMIT
    requires p + |EncodeItem(shared, item)| <= limit <= |contents|
    requires contents[p..p + |EncodeItem(shared, item)|] == EncodeItem(shared, item)
    ensures var q, d := p + |EncodeItem(shared, item)|, p + |Head(shared, item)|;
      && q == d + (|item.key| - shared) + |item.value| && Stays(contents, p, limit)
      && DecodeEntry(contents, p, limit) == Good(Header(shared, |item.key| - shared, |item.value|, d))
      && contents[d..d + (|item.key| - shared)] == item.key[shared..]
      && contents[d + (|item.key| - shared)..q] == item.value
  {
    hide EncodeVarint32;
    var e, head := EncodeItem(shared, item), Head(shared, item);
    assert e == head + item.key[shared..] + item.value;
    EntryParts(contents, p, e, head, item.key[shared..], item.value);
    var rest := item.key[shared..] + item.value + contents[p + |e|..limit];
    assert contents[p..limit] == head + rest by {
      assert contents[p..limit] == e + contents[p + |e|..limit];
    }
    HeadIsRead(contents, p, limit, shared, item, rest);
  }

  lemma {:induction false} HeadIsRead(contents: Bytes, p: nat, limit: nat, shared: nat, item: Item, rest: Bytes)
    requires shared <= |item.key| < WORD_LIMIT && |item.value| < WORD_LIMIT && limit < WORD_LIMIT
    requires p <= limit <= |contents| && contents[p..limit] == Head(shared, item) + rest
    requires |rest| >= |item.key| - shared + |item.value|
    ensures DecodeEntry(contents, p, limit) ==
      Good(Header(shared, |item.key| - shared, |item.value|, p + |Head(shared, item)|))
  {
    hide EncodeVarint32;
    hide ThreeVarints;
    assert shared % WORD_LIMIT == shared && (|item.key| - shared) % WORD_LIMIT == |item.key| - shared
      && |item.value| % WORD_LIMIT == |item.value|;
    ThreeVarintsRead(contents, p, limit, shared, |item.key| - shared, |item.value|, rest);
    HeadIsLong(shared, item);
    var end, length := p + |Head(shared, item)|, |item.key| - shared + |item.value|;
    assert length <= limit - end < WORD_LIMIT;
    assert (limit - end) % WORD_LIMIT == limit - end && length % WORD_LIMIT == length;
    if contents[p] < 128 && contents[p + 1] < 128 && contents[p + 2] < 128 { FastPathAgrees(contents, p, limit); }
  }

  lemma {:induction false} HeadIsLong(shared: nat, item: Item)
    requires shared <= |item.key|
    ensures |Head(shared, item)| >= 3
  {
  }

  lemma {:induction false} EntryParts(contents: Bytes, p: nat, e: Bytes, head: Bytes, key: Bytes, value: Bytes)
    requires e == head + key + value && p + |e| <= |contents| && contents[p..p + |e|] == e
    ensures contents[p + |head|..p + |head| + |key|] == key
    ensures contents[p + |head| + |key|..p + |e|] == value
  {
    var a, b := |head|, |head| + |key|;
    assert (head + key + value)[a..b] == key && (head + key + value)[b..] == value;
    SliceOfSlice(contents, p, p + |e|, a, b);
    SliceOfSlice(contents, p, p + |e|, b, |e|);
  }

  lemma {:induction false} SliceOfSlice(s: Bytes, p: nat, q: nat, a: nat, b: nat)
    requires p <= q <= |s| && a <= b <= q - p
    ensures s[p..q][a..b] == s[p + a..p + b]
  {
    forall k | 0 <= k < b - a ensures s[p..q][a..b][k] == s[p + a..p + b][k] {
      assert s[p..q][a + k] == s[p + (a + k)];
    }
  }

  // ----- where things lie in a finished block -----

  lemma {:induction false} DataIsPrefix(items: seq<Item>, starts: seq<nat>, i: nat, n: nat)
    requires i <= n <= |items|
    ensures Data(items, starts, i) <= Data(items, starts, n)
    ensures i < n ==> Offset(items, starts, i) < Offset(items, starts, i + 1) <= Offset(items, starts, n)
    decreases n - i
  {
    hide EncodeItem;
    if i < n {
      DataIsPrefix(items, starts, i + 1, n);
    }
  }

  lemma {:induction false} OffsetsAscend(items: seq<Item>, starts: seq<nat>, i: nat, j: nat)
    requires i <= |items| && j <= |items|
    ensures i < j <==> Offset(items, starts, i) < Offset(items, starts, j)
  {
    hide Data;
    if i < j {
      DataIsPrefix(items, starts, i, j);
    } else {
      DataIsPrefix(items, starts, j, i);
    }
  }

  lemma {:induction false} ItemIsThere(contents: Bytes, items: seq<Item>, starts: seq<nat>, i: nat)
    requires i < |items| && Data(items, starts, |items|) <= contents
    ensures var p, e := Offset(items, starts, i), EncodeItem(Shared(items, starts, i), items[i]);
      Offset(items, starts, i + 1) == p + |e| <= Offset(items, starts, |items|) <= |contents|
        && contents[p..p + |e|] == e
  {
    hide EncodeItem;
    DataIsPrefix(items, starts, i + 1, |items|);
    var d, e := Data(items, starts, i + 1), EncodeItem(Shared(items, starts, i), items[i]);
    assert d == Data(items, starts, i) + e;
    assert d <= contents;
  }

  /** No key is longer than the data in front of its end: prefixes are only shared with keys that are there. */
  lemma {:induction false} KeysAreBounded(items: seq<Item>, starts: seq<nat>, i: nat)
    requires i < |items|
    ensures |items[i].key| <= Offset(items, starts, i + 1) && |items[i].value| <= Offset(items, starts, i + 1)
  {
    if i > 0 { KeysAreBounded(items, starts, i - 1); }
  }

  lemma {:induction false} FixedAt(points: seq<nat>, r: nat, rest: Bytes)
    requires r < |points| && points[r] < WORD_LIMIT
    ensures DecodeFixed32((FixedAll(points) + rest)[4 * r..]) == points[r]
  {
    hide EncodeFixed32;
    hide DecodeFixed32;
    var n := |points| - 1;
    var front, last := FixedAll(points[..n]), EncodeFixed32(points[n] % WORD_LIMIT);
    assert FixedAll(points) + rest == front + (last + rest);
    if r == n {
      assert (front + (last + rest))[4 * n..] == last + rest;
      DecodeUndoesEncode(points[n], rest);
    } else {
      FixedAt(points[..n], r, last + rest);
    }
  }

  lemma {:induction false} BlockParts(contents: Bytes, items: seq<Item>, starts: seq<nat>)
    requires IsBlock(contents, items, starts)
    ensures var d := Offset(items, starts, |items|);
      && |contents| == d + 4 * |starts| + 4 < WORD_LIMIT && Data(items, starts, |items|) <= contents
      && NumRestarts(contents) == |starts|
      && forall r {:trigger starts[r]} | 0 <= r < |starts| ::
        starts[r] <= |items| && RestartPoint(contents, d, r) == Offset(items, starts, starts[r])
  {
    hide EncodeFixed32;
    hide DecodeFixed32;
    hide Data;
    var data, points, count := Data(items, starts, |items|), Points(items, starts),
      EncodeFixed32(|starts| % WORD_LIMIT);
    assert contents == data + (FixedAll(points) + count);
    assert contents[|contents| - 4..] == count + [];
    DecodeUndoesEncode(|starts|, []);
    forall r | 0 <= r < |starts|
      ensures starts[r] <= |items| && RestartPoint(contents, |data|, r) == Offset(items, starts, starts[r])
    {
      DataIsPrefix(items, starts, starts[r], |items|);
      assert contents[|data| + 4 * r..] == (FixedAll(points) + count)[4 * r..];
      FixedAt(points, r, count);
    }
  }

  // ----- the iterator -----

  /** The fields of a block iterator that move; the value is a slice of the block. */
  datatype Slot = Slot(current: nat, restartIndex: nat, key: Bytes, valueAt: nat, valueSize: nat)

  /** The iterator is on item i. */
  ghost predicate On(contents: Bytes, items: seq<Item>, starts: seq<nat>, t: Slot, i: nat) {
    && i < |items| && t.current == Offset(items, starts, i) && t.key == items[i].key
    && t.valueAt + t.valueSize == Offset(items, starts, i + 1) <= |contents|
    && contents[t.valueAt..t.valueAt + t.valueSize] == items[i].value
    && t.restartIndex < |starts| && starts[t.restartIndex] <= i
    && (t.restartIndex + 1 < |starts| ==> starts[t.restartIndex + 1] >= i)
  }

  /** The next parse reads item j, or finds the end; the key at hand has the prefix that j shares. */
  ghost predicate Ready(items: seq<Item>, starts: seq<nat>, t: Slot, j: nat) {
    && j <= |items| && t.valueAt + t.valueSize == Offset(items, starts, j)
    && t.restartIndex < |starts| && starts[t.restartIndex] <= j
    && (j == 0 || j in starts || t.key == items[j - 1].key)
  }

  lemma {:induction false} OnIsReady(contents: Bytes, items: seq<Item>, starts: seq<nat>, t: Slot, i: nat)
    requires On(contents, items, starts, t, i)
    ensures Ready(items, starts, t, i + 1)
  {
  }

  /** What parsing at j finds. */
  lemma {:induction false} ParseReads(contents: Bytes, items: seq<Item>, starts: seq<nat>, t: Slot, j: nat)
    requires IsBlock(contents, items, starts) && Ready(items, starts, t, j) && j < |items|
    ensures var p, end := Offset(items, starts, j), Offset(items, starts, |items|);
      && p < end <= |contents|
      && var h := DecodeEntry(contents, p, end);
         && h.Good? && h.header.shared <= |t.key| && Stays(contents, p, end)
         && t.key[..h.header.shared] + contents[h.header.delta..h.header.delta + h.header.nonShared] == items[j].key
         && h.header.delta + h.header.nonShared + h.header.valueLength == Offset(items, starts, j + 1) <= end
         && contents[h.header.delta + h.header.nonShared..Offset(items, starts, j + 1)] == items[j].value
  {
    hide Ready;
    hide Shared;
    hide Head;
    hide EncodeItem;
    hide IsBlock;
    hide Data;
    hide DecodeEntry;
    BlockParts(contents, items, starts);
    var shared := Shared(items, starts, j);
    ItemIsThere(contents, items, starts, j);
    KeysAreBounded(items, starts, j);
    OffsetsAscend(items, starts, j, |items|);
    EntryIsRead(contents, Offset(items, starts, j), Offset(items, starts, |items|), shared, items[j]);
    SharedIsAtHand(items, starts, t, j);
  }

  lemma {:induction false} SharedIsAtHand(items: seq<Item>, starts: seq<nat>, t: Slot, j: nat)
    requires Ready(items, starts, t, j) && j < |items|
    ensures var n := Shared(items, starts, j); n <= |t.key| && t.key[..n] + items[j].key[n..] == items[j].key
  {
    var n := Shared(items, starts, j);
    assert items[j].key[..n] + items[j].key[n..] == items[j].key;
  }

  /** Restart points are in order, so comparing offsets compares items. */
  lemma {:induction false} PointBefore(contents: Bytes, items: seq<Item>, starts: seq<nat>, r: nat, i: nat)
    requires IsBlock(contents, items, starts) && r < |starts| && i <= |items|
    ensures var end := Offset(items, starts, |items|);
      && end + 4 * r + 4 <= |contents| && starts[r] <= |items|
      && (RestartPoint(contents, end, r) < Offset(items, starts, i) <==> starts[r] < i)
      && RestartPoint(contents, end, r) == Offset(items, starts, starts[r]) <= end
  {
    hide Data;
    BlockParts(contents, items, starts);
    OffsetsAscend(items, starts, starts[r], i);
    DataIsPrefix(items, starts, starts[r], |items|);
  }

  /** The decoded entry takes the place of the last one; an iterator that cannot decode becomes invalid. */
  function ParsedSlot(contents: Bytes, restarts: nat, numRestarts: nat, t: Slot): (r: Slot)
    requires t.current < restarts <= |contents| && Stays(contents, t.current, restarts)
  {
    var h := DecodeEntry(contents, t.current, restarts);
    if h.Bad? || |t.key| < h.header.shared then Slot(restarts, numRestarts, [], 0, 0)
    else
      var e := h.header;
      t.(key := t.key[..e.shared] + contents[e.delta..e.delta + e.nonShared], valueAt := e.delta + e.nonShared,
        valueSize := e.valueLength)
  }

  lemma {:induction false} ParsedSlotIsOn(contents: Bytes, items: seq<Item>, starts: seq<nat>, t: Slot, j: nat)
    requires IsBlock(contents, items, starts) && Ready(items, starts, t, j) && j < |items|
    requires t.current == Offset(items, starts, j)
    ensures var end := Offset(items, starts, |items|);
      && t.current < end <= |contents| && Stays(contents, t.current, end)
      && var t' := ParsedSlot(contents, end, |starts|, t);
         && t'.current == t.current && t'.restartIndex == t.restartIndex && t'.key == items[j].key
         && t'.valueAt + t'.valueSize == Offset(items, starts, j + 1) <= end
         && contents[t'.valueAt..t'.valueAt + t'.valueSize] == items[j].value
  {
    hide IsBlock;
    hide Data;
    hide DecodeEntry;
    ParseReads(contents, items, starts, t, j);
  }

  /** The key of an entry that shares nothing; an entry that shares is corrupt at a restart point. */
  function RestartKey(contents: Bytes, p: nat, limit: nat): (r: Option<Bytes>)
    requires p <= limit <= |contents| && Stays(contents, p, limit)
  {
    var h := DecodeEntry(contents, p, limit);
    if h.Bad? || h.header.shared != 0 then None else Some(contents[h.header.delta..h.header.delta + h.header.nonShared])
  }

  lemma {:induction false} RestartKeyIsRead(contents: Bytes, items: seq<Item>, starts: seq<nat>, r: nat)
    requires IsBlock(contents, items, starts) && StartsOk(|items|, starts) && 0 < r < |starts|
    ensures StartsOk(|items|, starts) && starts[r] < |items|
    ensures Offset(items, starts, starts[r]) <= Offset(items, starts, |items|) <= |contents|
    ensures Stays(contents, Offset(items, starts, starts[r]), Offset(items, starts, |items|))
    ensures RestartKey(contents, Offset(items, starts, starts[r]), Offset(items, starts, |items|)) ==
      Some(items[starts[r]].key)
  {
    hide Head;
    hide EncodeVarint32;
    hide EncodeItem;
    hide IsBlock;
    hide Data;
    hide DecodeEntry;
    var i := starts[r];
    BlockParts(contents, items, starts);
    ItemIsThere(contents, items, starts, i);
    KeysAreBounded(items, starts, i);
    OffsetsAscend(items, starts, i, |items|);
    EntryIsRead(contents, Offset(items, starts, i), Offset(items, starts, |items|), Shared(items, starts, i), items[i]);
  }

  class BlockIter {
    const contents: Bytes
    const less: Comparator
    const restarts: nat
    const numRestarts: nat
    var current: nat
    var restartIndex: nat
    var key: Bytes
    var valueAt: nat
    var valueSize: nat
    var corrupt: bool

    ghost const items: seq<Item>
    ghost const starts: seq<nat>
    /** The item the cursor is on. */
    ghost var at: Option<nat>

    ghost function State(): (r: Slot)
      reads this
    {
      Slot(current, restartIndex, key, valueAt, valueSize)
    }

    ghost predicate Fixed() {
      && IsBlock(contents, items, starts) && StartsOk(|items|, starts)
      && restarts == Offset(items, starts, |items|) && numRestarts == |starts|
      && Ascending(less, items) && TotalOrder(less)
    }

    ghost predicate Valid()
      reads this
    {
      && Fixed() && !corrupt
      && (if at.Some? then On(contents, items, starts, State(), at.value) else current == restarts)
    }

    constructor (contents: Bytes, less: Comparator, ghost items: seq<Item>, ghost starts: seq<nat>)
      requires IsBlock(contents, items, starts) && Ascending(less, items) && TotalOrder(less)
      ensures Valid() && at == None && this.contents == contents
      ensures this.less == less && this.items == items
    {
      BlockParts(contents, items, starts);
      this.contents, this.less := contents, less;
      var n := NumRestarts(contents);
      numRestarts := n;
      restarts := |contents| - (1 + n) * 4;
      current, restartIndex := |contents| - (1 + n) * 4, n;
      key, valueAt, valueSize, corrupt := [], 0, 0, false;
      this.items, this.starts, at := items, starts, None;
    }

    predicate IsValid()
      reads this
    {
      current < restarts
    }

    lemma ValidIsOn()
      requires Valid()
      ensures IsValid() <==> at.Some?
      ensures at.Some? ==> at.value < |items| && key == items[at.value].key
      ensures at.Some? ==>
        valueAt + valueSize <= |contents| && contents[valueAt..valueAt + valueSize] == items[at.value].value
    {
      hide IsBlock;
      hide Data;
      hide TotalOrder;
      hide Ascending;
      if at.Some? { OffsetsAscend(items, starts, at.value, |items|); }
    }

    method Key() returns (k: Bytes)
      requires Valid() && at.Some?
      ensures at.value < |items| && k == items[at.value].key
    {
      ValidIsOn();
      k := key;
    }

    method Value() returns (v: Bytes)
      requires Valid() && at.Some?
      ensures at.value < |items| && v == items[at.value].value
    {
      ValidIsOn();
      v := contents[valueAt..valueAt + valueSize];
    }

    method SeekToRestartPoint(index: nat)
      requires Fixed() && index < numRestarts
      modifies `key, `restartIndex, `valueAt, `valueSize
      ensures restartIndex == index && Ready(items, starts, State(), starts[index])
    {
      hide IsBlock;
      hide Data;
      hide TotalOrder;
      hide Ascending;
      hide DecodeFixed32;
      PointBefore(contents, items, starts, index, 0);
      key, restartIndex := [], index;
      valueAt, valueSize := RestartPoint(contents, restarts, index), 0;
    }

    /** Moves on by one item; the restart index follows. */
    method ParseNextKey(ghost j: nat) returns (found: bool)
      requires Fixed() && !corrupt && Ready(items, starts, State(), j)
      modifies this
      ensures Valid() && found == (j < |items|) && at == if j < |items| then Some(j) else None
    {
      hide IsBlock;
      hide Data;
      hide TotalOrder;
      hide Ascending;
      hide ParsedSlot;
      hide DecodeEntry;
      hide Stays;
      hide Offset;
      current := valueAt + valueSize;
      OffsetsAscend(items, starts, j, |items|);
      if current >= restarts {
        current, restartIndex, at := restarts, numRestarts, None;
        return false;
      }
      ParsedSlotIsOn(contents, items, starts, State(), j);
      var t := ParsedSlot(contents, restarts, numRestarts, Slot(current, restartIndex, key, valueAt, valueSize));
      key, restartIndex, valueAt, valueSize, corrupt :=
        t.key, t.restartIndex, t.valueAt, t.valueSize, t.current == restarts;
      current := t.current;
      found := current < restarts;
      AdvanceRestart(j);
      at := Some(j);
    }

    method AdvanceRestart(ghost j: nat)
      requires Fixed() && j < |items| && current == Offset(items, starts, j)
      requires restartIndex < |starts| && starts[restartIndex] <= j
      modifies `restartIndex
      ensures restartIndex < |starts| && starts[restartIndex] <= j
      ensures restartIndex + 1 < |starts| ==> starts[restartIndex + 1] >= j
    {
      hide IsBlock;
      hide Data;
      hide TotalOrder;
      hide Ascending;
      hide RestartPoint;
      hide DecodeFixed32;
      while restartIndex + 1 < numRestarts && PointOf(restartIndex + 1) < current
        invariant restartIndex < |starts| && starts[restartIndex] <= j
        decreases numRestarts - restartIndex
      {
        PointBefore(contents, items, starts, restartIndex + 1, j);
        restartIndex := restartIndex + 1;
      }
      if restartIndex + 1 < numRestarts { PointBefore(contents, items, starts, restartIndex + 1, j); }
    }

    function PointOf(r: nat): (p: nat)
      requires Fixed() && r < numRestarts
      ensures starts[r] <= |items| && p == Offset(items, starts, starts[r])
    {
      PointBefore(contents, items, starts, r, 0);
      RestartPoint(contents, restarts, r)
    }

    method SeekToFirst()
      requires Valid()
      modifies this
      ensures Valid() && at == if items == [] then None else Some(0)
    {
      hide IsBlock;
      hide Data;
      hide TotalOrder;
      SeekToRestartPoint(0);
      var _ := ParseNextKey(0);
    }

    method SeekToLast()
      requires Valid()
      modifies this
      ensures Valid() && at == if items == [] then None else Some(|items| - 1)
    {
      hide IsBlock;
      hide Data;
      hide TotalOrder;
      SeekToRestartPoint(numRestarts - 1);
      ghost var j := starts[numRestarts - 1];
      var found := ParseNextKey(j);
      while found && valueAt + valueSize < restarts
        invariant Valid() && j <= |items| && found == at.Some?
        invariant at == if j < |items| then Some(j) else None
        invariant items != [] ==> found
        decreases |items| - j
      {
        OffsetsAscend(items, starts, j + 1, |items|);
        OnIsReady(contents, items, starts, State(), j);
        j := j + 1;
        found := ParseNextKey(j);
      }
      if found { OffsetsAscend(items, starts, j + 1, |items|); }
    }

    method Next()
      requires Valid() && at.Some?
      modifies this
      ensures Valid() && at == if old(at).value + 1 < |items| then Some(old(at).value + 1) else None
    {
      hide IsBlock;
      hide Data;
      hide TotalOrder;
      OnIsReady(contents, items, starts, State(), at.value);
      var _ := ParseNextKey(at.value + 1);
    }

    /** Back to the restart point before the current item, and forward to the item before it. */
    method Prev()
      requires Valid() && at.Some?
      modifies this
      ensures Valid() && at == if old(at).value > 0 then Some(old(at).value - 1) else None
    {
      hide IsBlock;
      hide Data;
      hide TotalOrder;
      var original := current;
      ghost var i := at.value;
      while PointOf(restartIndex) >= original
        invariant Valid() && at == Some(i) && original == current == Offset(items, starts, i)
        invariant restartIndex < numRestarts
        invariant starts[restartIndex] <= i
        decreases restartIndex
      {
        OffsetsAscend(items, starts, starts[restartIndex], i);
        if restartIndex == 0 {
          current, restartIndex, at := restarts, numRestarts, None;
          return;
        }
        restartIndex := restartIndex - 1;
      }
      OffsetsAscend(items, starts, starts[restartIndex], i);
      ScanTo(restartIndex, original, i);
    }

    method ScanTo(index: nat, original: nat, ghost i: nat)
      requires Fixed() && !corrupt && index < numRestarts
      requires starts[index] < i < |items| && original == Offset(items, starts, i)
      modifies this
      ensures Valid() && at == Some(i - 1)
    {
      hide IsBlock;
      hide Data;
      hide TotalOrder;
      SeekToRestartPoint(index);
      ghost var j := starts[index];
      var found := ParseNextKey(j);
      while found && valueAt + valueSize < original
        invariant Valid() && j < i && found
        invariant at == Some(j)
        decreases i - j
      {
        OffsetsAscend(items, starts, j + 1, i);
        OnIsReady(contents, items, starts, State(), j);
        j := j + 1;
        found := ParseNextKey(j);
      }
      OffsetsAscend(items, starts, j + 1, i);
    }

    /** The first item whose key is at or after the target. */
    method Seek(target: Bytes)
      requires Valid()
      modifies this
      ensures Valid()
      ensures forall i | 0 <= i < |items| && (at.Some? ==> i < at.value) :: less(items[i].key, target)
      ensures at.Some? ==> at.value < |items| && !less(items[at.value].key, target)
    {
      hide IsBlock;
      hide Data;
      var left := FindRestart(target);
      SeekToRestartPoint(left);
      ghost var j := starts[left];
      forall i | 0 <= i < j ensures less(items[i].key, target) {
        assert left > 0 && less(items[i].key, items[j].key);
      }
      while true
        invariant Fixed() && !corrupt && Ready(items, starts, State(), j)
        invariant forall i | 0 <= i < j :: less(items[i].key, target)
        decreases |items| - j
      {
        var found := ParseNextKey(j);
        if !found {
          return;
        }
        if !less(key, target) {
          return;
        }
        OnIsReady(contents, items, starts, State(), j);
        j := j + 1;
      }
    }

    /** Binary search for the last restart point with a key before the target. */
    method FindRestart(target: Bytes) returns (left: nat)
      requires Fixed()
      ensures left < numRestarts && (left > 0 ==> starts[left] < |items| && less(items[starts[left]].key, target))
    {
      hide IsBlock;
      hide Data;
      left := 0;
      var right := numRestarts - 1;
      while left < right
        invariant 0 <= left <= right < numRestarts
        invariant left > 0 ==> starts[left] < |items| && less(items[starts[left]].key, target)
      {
        var mid := (left + right + 1) / 2;
        RestartKeyIsRead(contents, items, starts, mid);
        var midKey := RestartKey(contents, PointOf(mid), restarts);
        if less(midKey.value, target) {
          left := mid;
        } else {
          right := mid - 1;
        }
      }
    }
  }
}
