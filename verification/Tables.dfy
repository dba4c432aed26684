/**
 Table files (table/table.cc): data blocks, an index with shortened separators, a filter, found from the footer.
 A lookup hands on the first entry at or after a key whenever that entry has the key's user key.
 */
module Tables {
  import opened InternalKeys
  import opened Coding
  import opened Blocks
  import opened Separators
  import opened Filters
  import opened TableFormat

  // ----- the order of a table -----

  function LastKey(block: seq<Item>): (r: Bytes)
    requires block != []
  {
    block[|block| - 1].key
  }

  ghost predicate BlockOk(block: seq<Item>) {
    && block != [] && Ascending(InternalLess, block)
    && forall i {:trigger block[i]} | 0 <= i < |block| :: |block[i].key| >= 8
  }

  /** `sep` is at or after every key of the block and before every key of the next; if shortened, so is its user key. */
  ghost predicate Separates(block: seq<Item>, sep: Bytes, next: seq<Item>)
    requires block != []
  {
    && Covers(LastKey(block), sep)
    && (next != [] ==> InternalLess(sep, next[0].key))
    && (next != [] && sep != LastKey(block) ==> |next[0].key| >= 8 && BytewiseLess(UserOf(sep), UserOf(next[0].key)))
  }

  ghost predicate BlocksOk(blocks: seq<seq<Item>>) {
    forall b {:trigger blocks[b]} | 0 <= b < |blocks| :: BlockOk(blocks[b])
  }

  ghost predicate TableOk(blocks: seq<seq<Item>>, seps: seq<Bytes>) {
    && |seps| == |blocks| && BlocksOk(blocks)
    && forall b {:trigger seps[b]} | 0 <= b < |blocks| ::
      Separates(blocks[b], seps[b], if b + 1 < |blocks| then blocks[b + 1] else [])
  }

  lemma Ordered(a: Bytes, b: Bytes, c: Bytes)
    ensures !InternalLess(b, a) && InternalLess(b, c) ==> InternalLess(a, c)
    ensures InternalLess(a, b) && !InternalLess(c, b) ==> InternalLess(a, c)
    ensures InternalLess(a, b) && InternalLess(b, c) ==> InternalLess(a, c)
    ensures !InternalLess(b, a) && !InternalLess(c, b) ==> !InternalLess(c, a)
    ensures InternalLess(a, b) ==> !InternalLess(b, a)
  {
    hide InternalLess;
    InternalIsTotal();
  }

  lemma UpToLast(block: seq<Item>, i: nat)
    requires BlockOk(block) && i < |block|
    ensures !InternalLess(LastKey(block), block[i].key)
  {
    hide InternalLess;
    InternalIsTotal();
    assert i < |block| - 1 ==> InternalLess(block[i].key, block[|block| - 1].key);
  }

  /** Every entry of a block comes at or before its separator. */
  lemma UpToSeparator(blocks: seq<seq<Item>>, seps: seq<Bytes>, b: nat, i: nat)
    requires TableOk(blocks, seps) && b < |blocks| && i < |blocks[b]|
    ensures !InternalLess(seps[b], blocks[b][i].key)
  {
    hide InternalLess;
    UpToLast(blocks[b], i);
    CoversIsAtLeast(LastKey(blocks[b]), seps[b]);
    Ordered(blocks[b][i].key, LastKey(blocks[b]), seps[b]);
  }

  lemma {:induction false} SeparatorsAscend(blocks: seq<seq<Item>>, seps: seq<Bytes>, b: nat, c: nat)
    requires TableOk(blocks, seps) && b < c < |blocks|
    ensures InternalLess(seps[b], seps[c])
    decreases c
  {
    hide InternalLess;
    UpToSeparator(blocks, seps, c, 0);
    assert InternalLess(seps[c - 1], blocks[c][0].key);
    Ordered(seps[c - 1], blocks[c][0].key, seps[c]);
    if b < c - 1 {
      SeparatorsAscend(blocks, seps, b, c - 1);
      Ordered(seps[b], seps[c - 1], seps[c]);
    }
  }

  // ----- what a lookup must hand on -----

  /** Entry i of block b is the first of the table at or after k. */
  ghost predicate IsFirst(blocks: seq<seq<Item>>, k: Bytes, b: nat, i: nat) {
    && b < |blocks| && i < |blocks[b]| && !InternalLess(blocks[b][i].key, k)
    && forall c, j {:trigger blocks[c][j]} | 0 <= c < |blocks| && 0 <= j < |blocks[c]|
    && (c < b || (c == b && j < i)) :: InternalLess(blocks[c][j].key, k)
  }

  /** That entry, if it has k's user key: it must be handed on. */
  ghost predicate MustHandOn(blocks: seq<seq<Item>>, k: Bytes, b: nat, i: nat)
    requires |k| >= 8
  {
    IsFirst(blocks, k, b, i) && |blocks[b][i].key| >= 8 && UserOf(blocks[b][i].key) == UserOf(k)
  }

  /** Block b is where the index leads. */
  ghost predicate IsSought(seps: seq<Bytes>, k: Bytes, b: nat) {
    b < |seps| && !InternalLess(seps[b], k) && forall c {:trigger seps[c]} | 0 <= c < b :: InternalLess(seps[c], k)
  }

  /** The index leads to the block of the first entry at or after k, if that entry has k's user key. */
  lemma IndexLeadsToFirst(blocks: seq<seq<Item>>, seps: seq<Bytes>, k: Bytes, b: nat, i: nat)
    requires TableOk(blocks, seps) && |k| >= 8 && MustHandOn(blocks, k, b, i)
    ensures IsSought(seps, k, b)
  {
    hide InternalLess;
    UpToSeparator(blocks, seps, b, i);
    Ordered(k, blocks[b][i].key, seps[b]);
    forall c | 0 <= c < b ensures InternalLess(seps[c], k) {
      if c + 1 < b || i > 0 {
        assert InternalLess(seps[c], blocks[c + 1][0].key);
        Ordered(seps[c], blocks[c + 1][0].key, k);
      } else {
        LastBeforeFirst(blocks, seps, k, b);
      }
    }
  }

  /** The separator in front of the block: it is the last key before, or its user key is smaller than k's. */
  lemma LastBeforeFirst(blocks: seq<seq<Item>>, seps: seq<Bytes>, k: Bytes, b: nat)
    requires TableOk(blocks, seps) && |k| >= 8 && b > 0
    requires MustHandOn(blocks, k, b, 0)
    ensures InternalLess(seps[b - 1], k)
  {
    var block := blocks[b - 1];
    assert Separates(block, seps[b - 1], blocks[b]);
    assert InternalLess(block[|block| - 1].key, k);
  }

  /** What the lookup finds in that block is the first entry of the table at or after k. */
  lemma FoundIsFirst(blocks: seq<seq<Item>>, seps: seq<Bytes>, k: Bytes, b: nat, i: nat)
    requires TableOk(blocks, seps) && IsSought(seps, k, b) && i < |blocks[b]|
    requires !InternalLess(blocks[b][i].key, k)
    requires forall j | 0 <= j < i :: InternalLess(blocks[b][j].key, k)
    ensures IsFirst(blocks, k, b, i)
  {
    hide InternalLess;
    forall c, j | 0 <= c < b && 0 <= j < |blocks[c]| ensures InternalLess(blocks[c][j].key, k) {
      UpToSeparator(blocks, seps, c, j);
      Ordered(blocks[c][j].key, seps[c], k);
    }
  }

  lemma FirstIsUnique(blocks: seq<seq<Item>>, k: Bytes, b: nat, i: nat, c: nat, j: nat)
    requires IsFirst(blocks, k, b, i) && IsFirst(blocks, k, c, j)
    ensures b == c && i == j
  {
    assert !InternalLess(blocks[b][i].key, k) && !InternalLess(blocks[c][j].key, k);
  }

  // ----- the entries of a table in one row -----

  ghost function FlatItems(blocks: seq<seq<Item>>): (r: seq<Item>) {
    if blocks == [] then [] else FlatItems(blocks[..|blocks| - 1]) + blocks[|blocks| - 1]
  }

  /** The place of a block's first entry. */
  ghost function StartOf(blocks: seq<seq<Item>>, b: nat): (r: nat)
    requires b <= |blocks|
  {
    |FlatItems(blocks[..b])|
  }

  lemma {:induction false} FlatAt(blocks: seq<seq<Item>>, b: nat, i: nat)
    requires b < |blocks| && i < |blocks[b]|
    ensures StartOf(blocks, b) + i < |FlatItems(blocks)| && FlatItems(blocks)[StartOf(blocks, b) + i] == blocks[b][i]
  {
    var front := blocks[..|blocks| - 1];
    if b < |front| {
      assert front[..b] == blocks[..b];
      FlatAt(front, b, i);
    }
  }

  lemma {:induction false} FlatFrom(blocks: seq<seq<Item>>, n: nat) returns (b: nat, i: nat)
    requires n < |FlatItems(blocks)|
    ensures b < |blocks| && i < |blocks[b]| && n == StartOf(blocks, b) + i
  {
    var front := blocks[..|blocks| - 1];
    if n < |FlatItems(front)| {
      b, i := FlatFrom(front, n);
      assert front[..b] == blocks[..b];
    } else {
      b, i := |front|, n - |FlatItems(front)|;
    }
  }

  lemma {:induction false} StartsAscend(blocks: seq<seq<Item>>, b: nat, c: nat)
    requires b < c <= |blocks|
    ensures StartOf(blocks, b) + |blocks[b]| <= StartOf(blocks, c)
    decreases c
  {
    assert blocks[..c][..c - 1] == blocks[..c - 1];
    if b < c - 1 { StartsAscend(blocks, b, c - 1); }
  }

  /** Entry n is the first at or after k. */
  ghost predicate IsFirstOf(items: seq<Item>, k: Bytes, n: nat) {
    && n < |items| && !InternalLess(items[n].key, k)
    && forall m {:trigger items[m]} | 0 <= m < n :: InternalLess(items[m].key, k)
  }

  ghost predicate SameUser(a: Bytes, b: Bytes) {
    |a| >= 8 && |b| >= 8 && UserOf(a) == UserOf(b)
  }

  /** What a lookup hands on is the first entry at or after k, and it does so if that entry has k's user key. */
  ghost predicate Answers(items: seq<Item>, k: Bytes, handed: Option<Item>) {
    && (handed.Some? ==> exists n: nat :: IsFirstOf(items, k, n) && handed.value == items[n])
    && forall n: nat | IsFirstOf(items, k, n) && SameUser(items[n].key, k) :: handed == Some(items[n])
  }

  lemma FirstIsFlat(blocks: seq<seq<Item>>, k: Bytes, b: nat, i: nat)
    requires IsFirst(blocks, k, b, i)
    ensures IsFirstOf(FlatItems(blocks), k, StartOf(blocks, b) + i)
    ensures FlatItems(blocks)[StartOf(blocks, b) + i] == blocks[b][i]
  {
    hide InternalLess;
    FlatAt(blocks, b, i);
    forall m | 0 <= m < StartOf(blocks, b) + i ensures InternalLess(FlatItems(blocks)[m].key, k) {
      var c, j := FlatFrom(blocks, m);
      FlatAt(blocks, c, j);
      if b < c { StartsAscend(blocks, b, c); }
      assert c < b || (c == b && j < i);
    }
  }

  lemma FlatIsFirst(blocks: seq<seq<Item>>, k: Bytes, n: nat)
    requires IsFirstOf(FlatItems(blocks), k, n)
    ensures exists b: nat, i: nat :: IsFirst(blocks, k, b, i) && FlatItems(blocks)[n] == blocks[b][i]
  {
    hide InternalLess;
    var b, i := FlatFrom(blocks, n);
    FlatAt(blocks, b, i);
    forall c, j | 0 <= c < |blocks| && 0 <= j < |blocks[c]| && (c < b || (c == b && j < i))
      ensures InternalLess(blocks[c][j].key, k)
    {
      FlatAt(blocks, c, j);
      if c < b { StartsAscend(blocks, c, b); }
      assert InternalLess(FlatItems(blocks)[StartOf(blocks, c) + j].key, k);
    }
    assert IsFirst(blocks, k, b, i);
  }

  /** The entries of a table ascend, across its blocks too. */
  lemma EntriesAscend(blocks: seq<seq<Item>>, seps: seq<Bytes>)
    requires TableOk(blocks, seps)
    ensures Ascending(InternalLess, FlatItems(blocks))
  {
    hide InternalLess;
    hide TableOk;
    var items := FlatItems(blocks);
    forall m, n | 0 <= m < n < |items| ensures InternalLess(items[m].key, items[n].key) {
      var c, j := FlatFrom(blocks, m);
      var b, i := FlatFrom(blocks, n);
      FlatAt(blocks, c, j);
      FlatAt(blocks, b, i);
      if b < c { StartsAscend(blocks, b, c); }
      EarlierIsLess(blocks, seps, c, j, b, i);
    }
  }

  lemma EarlierIsLess(blocks: seq<seq<Item>>, seps: seq<Bytes>, c: nat, j: nat, b: nat, i: nat)
    requires TableOk(blocks, seps) && b < |blocks| && i < |blocks[b]|
    requires c < |blocks| && j < |blocks[c]|
    requires c < b || (c == b && j < i)
    ensures InternalLess(blocks[c][j].key, blocks[b][i].key)
  {
    hide InternalLess;
    assert BlockOk(blocks[b]);
    if c < b {
      var x, y := blocks[c][j].key, blocks[b][i].key;
      UpToSeparator(blocks, seps, c, j);
      if c < b - 1 { SeparatorsAscend(blocks, seps, c, b - 1); }
      Ordered(x, seps[c], seps[b - 1]);
      assert Separates(blocks[b - 1], seps[b - 1], blocks[b]);
      assert InternalLess(seps[b - 1], blocks[b][0].key);
      Ordered(x, seps[b - 1], blocks[b][0].key);
      if i > 0 {
        assert InternalLess(blocks[b][0].key, y);
        Ordered(x, blocks[b][0].key, y);
      }
    }
  }

  // ----- what is stored where -----

  ghost function IndexItems(seps: seq<Bytes>, handles: seq<Handle>): (r: seq<Item>)
    requires |seps| == |handles|
    ensures |r| == |seps| && forall b | 0 <= b < |seps| :: r[b] == Item(seps[b], EncodeHandle(handles[b]))
  {
    seq(|seps|, b requires 0 <= b < |seps| => Item(seps[b], EncodeHandle(handles[b])))
  }

  ghost predicate IsStored(format: Format, file: Bytes, h: Handle, items: seq<Item>, starts: seq<nat>) {
    exists contents :: HasBlock(format, file, h, contents) && IsBlock(contents, items, starts)
  }

  /** The data blocks are where their handles say. */
  ghost predicate StoredOk(format: Format, file: Bytes, blocks: seq<seq<Item>>, starts: seq<seq<nat>>,
      handles: seq<Handle>)
  {
    && |starts| == |handles| == |blocks|
    && forall b {:trigger handles[b]} | 0 <= b < |blocks| ::
         HandleFits(handles[b]) && IsStored(format, file, handles[b], blocks[b], starts[b])
  }

  /** The file begins with the data blocks, one behind the other, each followed by its trailer. */
  ghost predicate Chained(handles: seq<Handle>, end: nat) {
    if handles == [] then end == 0
    else
      var h := handles[|handles| - 1];
      end == h.offset + h.size + TRAILER_SIZE && Chained(handles[..|handles| - 1], h.offset)
  }

  /** Every entry was added to the filter of its block, with its user key. */
  ghost predicate FilterOk(added: seq<(nat, Bytes)>, blocks: seq<seq<Item>>, handles: seq<Handle>)
    requires |handles| == |blocks|
  {
    forall b, i {:trigger blocks[b][i]} | 0 <= b < |blocks| && 0 <= i < |blocks[b]| && |blocks[b][i].key| >= 8 ::
      (handles[b].offset, UserOf(blocks[b][i].key)) in added
  }

  /** "filter.leveldb.BuiltinBloomFilter2" */
  const FILTER_KEY: Bytes := [
    102, 105, 108, 116, 101, 114, 46, 108, 101, 118, 101, 108, 100, 98, 46, 66, 117, 105, 108, 116, 105, 110, 66, 108,
      111,
    111, 109, 70, 105, 108, 116, 101, 114, 50
  ]

  /** The metaindex names the filter, if there is one. */
  ghost function MetaItems(filter: Option<Handle>): (r: seq<Item>) {
    if filter.None? then [] else [Item(FILTER_KEY, EncodeHandle(filter.value))]
  }

  /** What a table file holds and where, for the specification only. */
  datatype Layout = Layout(
    blocks: seq<seq<Item>>, seps: seq<Bytes>, handles: seq<Handle>, starts: seq<seq<nat>>, end: nat,
    indexStarts: seq<nat>, metaStarts: seq<nat>, filter: Option<Handle>, added: seq<(nat, Bytes)>)

  ghost predicate LayoutOk(t: Layout) {
    TableOk(t.blocks, t.seps) && |t.handles| == |t.seps|
  }

  ghost predicate FilterStored(format: Format, file: Bytes, h: Handle, built: BloomFilterPolicy,
      added: seq<(nat, Bytes)>)
    requires built.Valid()
  {
    HandleFits(h) && exists contents :: HasBlock(format, file, h, contents) && IsFilterBlock(built, contents, added)
  }

  /** A file that is too short has no footer. */
  function FooterOf(file: Bytes): (r: Footer) {
    if |file| < FOOTER_LENGTH then BadFooter else DecodeFooter(file[|file| - FOOTER_LENGTH..])
  }

  /** `built` is the policy of the filter, if the table has one. */
  ghost predicate IsTableFile(format: Format, file: Bytes, t: Layout, built: BloomFilterPolicy?) {
    && LayoutOk(t) && StoredOk(format, file, t.blocks, t.starts, t.handles) && Chained(t.handles, t.end)
    && FooterOf(file).Footer?
    && IsStored(format, file, FooterOf(file).index, IndexItems(t.seps, t.handles), t.indexStarts)
    && IsStored(format, file, FooterOf(file).metaindex, MetaItems(t.filter), t.metaStarts)
    && (t.filter.Some? <==> built != null)
    && (built != null ==>
      built.Valid() && FilterStored(format, file, t.filter.value, built, t.added)
      && FilterOk(t.added, t.blocks, t.handles))
  }

  lemma IndexAscends(blocks: seq<seq<Item>>, seps: seq<Bytes>, handles: seq<Handle>)
    requires TableOk(blocks, seps) && |handles| == |seps|
    ensures Ascending(InternalLess, IndexItems(seps, handles))
  {
    hide InternalLess;
    hide EncodeHandle;
    forall b, c | 0 <= b < c < |seps| ensures InternalLess(seps[b], seps[c]) { SeparatorsAscend(blocks, seps, b, c); }
  }

  // ----- opening a table -----

  /** No footer, or an index block that cannot be read. */
  ghost predicate Unopenable(format: Format, paranoid: bool, file: Bytes) {
    FooterOf(file).BadFooter? || ReadBlock(format, paranoid, file, FooterOf(file).index).None?
  }

  /** The filter block that the metaindex names; whatever goes wrong, the table does without. */
  method ReadMeta(format: Format, paranoid: bool, file: Bytes, metaindex: Handle, policy: BloomFilterPolicy,
    ghost t: Layout, ghost built: BloomFilterPolicy?)
    returns (filter: FilterBlockReader?)
    requires policy.Valid() && IsStored(format, file, metaindex, MetaItems(t.filter), t.metaStarts)
    requires t.filter.Some? <==> built != null
    requires built != null ==> built.Valid() && FilterStored(format, file, t.filter.value, built, t.added)
    ensures filter != null <==> built != null
    ensures filter != null ==> fresh(filter) && filter.Valid() && filter.policy == policy
    ensures filter != null ==> IsFilterBlock(built, filter.contents, t.added)
  {
    hide IsBlock;
    hide IsFilterBlock;
    hide EncodeHandle;
    hide DecodeHandle;
    hide ReadBlock;
    hide TotalOrder;
    hide InternalLess;
    filter := null;
    var contents := ReadBlock(format, paranoid, file, metaindex);
    BytewiseIsTotal();
    var iter := new BlockIter(contents.value, BytewiseLess, MetaItems(t.filter), t.metaStarts);
    iter.Seek(FILTER_KEY);
    iter.ValidIsOn();
    if iter.IsValid() {
      var key := iter.Key();
      if key == FILTER_KEY {
        var value := iter.Value();
        assert EncodeHandle(t.filter.value) + [] == EncodeHandle(t.filter.value);
        DecodeUndoesHandle(t.filter.value, []);
        var h := DecodeHandle(value);
        var block := ReadBlock(format, paranoid, file, h.value);
        filter := new FilterBlockReader(policy, block.value);
      }
    }
  }

  /** Opening fails exactly if there is no footer or no index; a table that was built is opened as what it is. */
  method Open(format: Format, paranoid: bool, file: Bytes, policy: BloomFilterPolicy?, ghost t: Layout,
      ghost built: BloomFilterPolicy?)
    returns (table: Table?)
    requires IsTableFile(format, file, t, built) || Unopenable(format, paranoid, file)
    requires policy != null ==> policy.Valid() && (built != null ==> policy.hash == built.hash)
    ensures table == null <==> Unopenable(format, paranoid, file)
    ensures table != null ==> fresh(table) && table.Valid() && table.layout == t
    ensures table != null ==> (table.filter != null <==> policy != null && built != null)
  {
    hide TableOk;
    hide StoredOk;
    hide FilterOk;
    hide FilterStored;
    hide IsBlock;
    hide IsFilterBlock;
    hide ReadBlock;
    hide DecodeFooter;
    table := null;
    if |file| < FOOTER_LENGTH {
      return;
    }
    var footer := DecodeFooter(file[|file| - FOOTER_LENGTH..]);
    if footer.BadFooter? {
      return;
    }
    var contents := ReadBlock(format, paranoid, file, footer.index);
    if contents.None? {
      return;
    }
    var filter := null;
    if policy != null {
      filter := ReadMeta(format, paranoid, file, footer.metaindex, policy, t, built);
    }
    table := new Table(format, file, contents.value, filter, t, built);
  }

  class Table {
    const format: Format
    const file: Bytes
    const indexContents: Bytes
    const filter: FilterBlockReader?

    ghost const layout: Layout
    ghost const built: BloomFilterPolicy?

    ghost predicate FilterReady()
      reads filter
    {
      filter != null ==>
        && |layout.handles| == |layout.blocks| && built != null && built.Valid()
        && filter.Valid() && filter.policy.hash == built.hash
        && IsFilterBlock(built, filter.contents, layout.added) && FilterOk(layout.added, layout.blocks, layout.handles)
    }

    ghost predicate Valid()
      reads filter
    {
      && LayoutOk(layout) && IsBlock(indexContents, IndexItems(layout.seps, layout.handles), layout.indexStarts)
      && StoredOk(format, file, layout.blocks, layout.starts, layout.handles)
      && FilterReady()
    }

    /** The entries of the table in ascending order. */
    ghost function Entries(): (r: seq<Item>) {
      FlatItems(layout.blocks)
    }

    constructor (format: Format, file: Bytes, indexContents: Bytes, filter: FilterBlockReader?, ghost t: Layout,
      ghost built: BloomFilterPolicy?)
      requires LayoutOk(t) && IsBlock(indexContents, IndexItems(t.seps, t.handles), t.indexStarts)
      requires StoredOk(format, file, t.blocks, t.starts, t.handles)
      requires filter != null ==> built != null && built.Valid() && filter.Valid() && filter.policy.hash == built.hash
      requires filter != null ==>
        IsFilterBlock(built, filter.contents, t.added) && FilterOk(t.added, t.blocks, t.handles)
      ensures Valid() && this.layout == t && this.built == built
      ensures this.filter == filter
    {
      this.format, this.file, this.indexContents, this.filter := format, file, indexContents, filter;
      this.layout, this.built := t, built;
    }

    /** Where the index leads, and the handle there. */
    method SeekIndex(k: Bytes) returns (value: Option<Bytes>, ghost b: nat)
      requires Valid()
      ensures value.Some? ==> IsSought(layout.seps, k, b) && value.value == EncodeHandle(layout.handles[b])
      ensures value.None? ==> forall c {:trigger layout.seps[c]} | 0 <= c < |layout.seps| ::
        InternalLess(layout.seps[c], k)
    {
      hide IsBlock;
      hide InternalLess;
      hide TableOk;
      hide StoredOk;
      hide FilterReady;
      hide EncodeHandle;
      hide TotalOrder;
      hide Ascending;
      IndexAscends(layout.blocks, layout.seps, layout.handles);
      InternalIsTotal();
      var iiter := new BlockIter(indexContents, InternalLess, IndexItems(layout.seps, layout.handles),
        layout.indexStarts);
      iiter.Seek(k);
      iiter.ValidIsOn();
      b := 0;
      value := None;
      if iiter.IsValid() {
        b := iiter.at.value;
        var v := iiter.Value();
        value := Some(v);
      }
    }

    /** The first entry at or after k in one data block. */
    method SeekBlock(verify: bool, handle: Handle, k: Bytes, ghost b: nat) returns (handed: Option<Item>, ghost i: nat)
      requires Valid() && b < |layout.blocks| && handle == layout.handles[b]
      ensures forall j | 0 <= j < |layout.blocks[b]| && (handed.Some? ==> j < i) ::
        InternalLess(layout.blocks[b][j].key, k)
      ensures handed.Some? ==>
        i < |layout.blocks[b]| && !InternalLess(layout.blocks[b][i].key, k) && handed.value == layout.blocks[b][i]
    {
      hide IsBlock;
      hide InternalLess;
      hide FilterReady;
      hide ReadBlock;
      hide TotalOrder;
      InternalIsTotal();
      assert BlockOk(layout.blocks[b]);
      var contents := ReadBlock(format, verify, file, handle);
      var blockIter := new BlockIter(contents.value, InternalLess, layout.blocks[b], layout.starts[b]);
      blockIter.Seek(k);
      blockIter.ValidIsOn();
      handed, i := None, 0;
      if blockIter.IsValid() {
        i := blockIter.at.value;
        var key := blockIter.Key();
        var value := blockIter.Value();
        handed := Some(Item(key, value));
      }
    }

    /** The entry handed on, if any, is the first at or after k; and it is handed on if it has k's user key. */
    method InternalGet(verify: bool, k: Bytes) returns (handed: Option<Item>)
      requires Valid() && |k| >= 8
      ensures Answers(Entries(), k, handed)
    {
      hide IsBlock;
      hide InternalLess;
      hide TableOk;
      hide FilterReady;
      hide EncodeHandle;
      hide DecodeHandle;
      hide IsStored;
      handed := None;
      var value, b := SeekIndex(k);
      OnlyInSought(layout.blocks, layout.seps, k, value.Some?, b);
      if value.Some? {
        assert EncodeHandle(layout.handles[b]) + [] == EncodeHandle(layout.handles[b]);
        DecodeUndoesHandle(layout.handles[b], []);
        var handle := DecodeHandle(value.value);
        var mayMatch := MayMatch(handle, k, b);
        if handle.Parsed? && mayMatch {
          ghost var i;
          handed, i := SeekBlock(verify, handle.value, k, b);
          FirstOfBlock(layout.blocks, layout.seps, k, b, handed, i);
          if handed.Some? {
            FirstIsFlat(layout.blocks, k, b, i);
            assert IsFirstOf(Entries(), k, StartOf(layout.blocks, b) + i);
          }
        }
      }
      MustBeHanded(layout.blocks, k, handed);
    }

    /** A filter that denies the key denies nothing that must be handed on. */
    method MayMatch(handle: Parsed<Handle>, k: Bytes, ghost b: nat) returns (mayMatch: bool)
      requires FilterReady() && |k| >= 8 && b < |layout.handles| == |layout.blocks|
      requires handle.Parsed? ==> handle.value == layout.handles[b]
      ensures forall i: nat | MustHandOn(layout.blocks, k, b, i) :: mayMatch
    {
      hide InternalLess;
      hide IsFilterBlock;
      mayMatch := true;
      if filter != null && handle.Parsed? {
        mayMatch := filter.KeyMayMatch(handle.value.offset, UserOf(k), built, layout.added);
      }
    }
  }

  /** What must be handed on in terms of blocks must be handed on in terms of entries. */
  lemma MustBeHanded(blocks: seq<seq<Item>>, k: Bytes, handed: Option<Item>)
    requires |k| >= 8 && forall b: nat, i: nat | MustHandOn(blocks, k, b, i) :: handed == Some(blocks[b][i])
    ensures forall n: nat | IsFirstOf(FlatItems(blocks), k, n) && SameUser(FlatItems(blocks)[n].key, k) ::
      handed == Some(FlatItems(blocks)[n])
  {
    hide InternalLess;
    forall n: nat | IsFirstOf(FlatItems(blocks), k, n) && SameUser(FlatItems(blocks)[n].key, k)
      ensures handed == Some(FlatItems(blocks)[n])
    {
      FlatIsFirst(blocks, k, n);
      var b: nat, i: nat :| IsFirst(blocks, k, b, i) && FlatItems(blocks)[n] == blocks[b][i];
      assert MustHandOn(blocks, k, b, i);
    }
  }

  /** An entry that must be handed on lies where the index leads. */
  lemma OnlyInSought(blocks: seq<seq<Item>>, seps: seq<Bytes>, k: Bytes, found: bool, b: nat)
    requires TableOk(blocks, seps) && |k| >= 8
    requires if found then IsSought(seps, k, b) else forall c {:trigger seps[c]} | 0 <= c < |seps| ::
      InternalLess(seps[c], k)
    ensures forall c: nat, j: nat | MustHandOn(blocks, k, c, j) :: found && c == b
  {
    hide InternalLess;
    hide TableOk;
    forall c: nat, j: nat | MustHandOn(blocks, k, c, j) ensures found && c == b {
      IndexLeadsToFirst(blocks, seps, k, c, j);
    }
  }

  lemma FirstOfBlock(blocks: seq<seq<Item>>, seps: seq<Bytes>, k: Bytes, b: nat, handed: Option<Item>, i: nat)
    requires TableOk(blocks, seps) && |k| >= 8 && IsSought(seps, k, b)
    requires forall j | 0 <= j < |blocks[b]| && (handed.Some? ==> j < i) :: InternalLess(blocks[b][j].key, k)
    requires handed.Some? ==> i < |blocks[b]| && !InternalLess(blocks[b][i].key, k) && handed.value == blocks[b][i]
    ensures handed.Some? ==> IsFirst(blocks, k, b, i)
    ensures forall j: nat | MustHandOn(blocks, k, b, j) :: handed == Some(blocks[b][j])
  {
    hide InternalLess;
    if handed.Some? {
      FoundIsFirst(blocks, seps, k, b, i);
      forall j: nat | MustHandOn(blocks, k, b, j) ensures j == i { FirstIsUnique(blocks, k, b, i, b, j); }
    }
  }

  lemma BuiltCanBeOpened(format: Format, paranoid: bool, file: Bytes, t: Layout, built: BloomFilterPolicy?)
    requires IsTableFile(format, file, t, built)
    ensures !Unopenable(format, paranoid, file)
  {
    hide TableOk;
    hide StoredOk;
    hide FilterStored;
    hide FilterOk;
    hide IsBlock;
    hide ReadBlock;
    var contents :| HasBlock(format, file, FooterOf(file).index, contents);
  }

  /**
   A table that was built is opened and asked.  Whatever the block sizes, compression, checksums and filters, the answer
   is the first entry at or after the key if that has the key's user key.
   */
  method OpenAndGet(format: Format, paranoid: bool, verify: bool, file: Bytes, policy: BloomFilterPolicy?, k: Bytes,
    ghost t: Layout, ghost built: BloomFilterPolicy?)
    returns (handed: Option<Item>)
    requires IsTableFile(format, file, t, built) && |k| >= 8
    requires policy != null ==> policy.Valid() && (built != null ==> policy.hash == built.hash)
    ensures Answers(FlatItems(t.blocks), k, handed)
  {
    hide InternalLess;
    hide Answers;
    hide IsTableFile;
    hide Table.Valid;
    hide Unopenable;
    hide FlatItems;
    BuiltCanBeOpened(format, paranoid, file, t, built);
    var table := Open(format, paranoid, file, policy, t, built);
    assert table.Entries() == FlatItems(t.blocks);
    handed := table.InternalGet(verify, k);
  }
}
