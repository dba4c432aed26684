/**
 From encoded keys to ranks (db/dbformat.h, db/dbformat.cc,
   db/version_set.cc): the order of encoded internal keys is the
 order that the engine is proved over, and lookups in tables and memtables are the lookups in sorted runs.
 */
module EncodedReads {
  import opened InternalKeys
  import opened Coding
  import opened Blocks
  import opened Separators
  import opened MemTables
  import opened Tables
  import opened Versions

  // ----- ranks of byte strings -----

  /** The place of a byte string in the bytewise order: its bytes are the digits of a fraction to base 257. */
  function ByteRank(b: Bytes): (r: real)
    ensures 0.0 <= r < 1.0
    ensures b == [] <==> r == 0.0
  {
    if b == [] then 0.0 else ((b[0] as int + 1) as real + ByteRank(b[1..])) / 257.0
  }

  lemma {:induction false} LessIsRankLess(a: Bytes, b: Bytes)
    requires BytewiseLess(a, b)
    ensures ByteRank(a) < ByteRank(b)
  {
    if a != [] {
      var x, y := (a[0] as int + 1) as real + ByteRank(a[1..]), (b[0] as int + 1) as real + ByteRank(b[1..]);
      if a[0] == b[0] { LessIsRankLess(a[1..], b[1..]); } else { assert a[0] as int + 1 <= b[0] as int; }
      assert x < y;
      assert x / 257.0 < y / 257.0;
    }
  }

  /** Ranks compare as byte strings do, so different strings have different ranks. */
  lemma RankIsOrder(a: Bytes, b: Bytes)
    ensures BytewiseLess(a, b) <==> ByteRank(a) < ByteRank(b)
    ensures a == b <==> ByteRank(a) == ByteRank(b)
  {
    hide ByteRank;
    BytewiseConnected(a, b);
    if BytewiseLess(a, b) { LessIsRankLess(a, b); }
    if BytewiseLess(b, a) { LessIsRankLess(b, a); }
  }

  function RankOf(k: ParsedInternalKey): (r: InternalKey) {
    InternalKey(ByteRank(k.user), k.sequence, k.kind)
  }

  /** The comparator on encoded keys is the order of the engine. */
  lemma OrderIsEncoded(a: ParsedInternalKey, b: ParsedInternalKey)
    ensures InternalLess(AppendInternalKey(a), AppendInternalKey(b)) <==> Less(RankOf(a), RankOf(b))
  {
    hide ByteRank;
    hide AppendInternalKey;
    hide TagOf;
    hide UserOf;
    ParseUndoesAppend(a);
    ParseUndoesAppend(b);
    RankIsOrder(a.user, b.user);
  }

  /** A key that parses is the encoding of what was parsed. */
  lemma AppendUndoesParse(key: Bytes)
    requires ParseInternalKey(key).Some?
    ensures AppendInternalKey(ParseInternalKey(key).value) == key
  {
    hide AppendInternalKey;
    hide TagOf;
    hide UserOf;
    var k := ParseInternalKey(key).value;
    TagIsLong(key);
    ParseUndoesAppend(k);
    TagDecides(AppendInternalKey(k), key);
  }

  // ----- tables as sorted runs -----

  predicate Parses(items: seq<Item>) {
    forall i | 0 <= i < |items| :: ParseInternalKey(items[i].key).Some?
  }

  function EntryOf(item: Item): (r: Entry)
    requires ParseInternalKey(item.key).Some?
  {
    Entry(RankOf(ParseInternalKey(item.key).value), item.value)
  }

  function RunOf(items: seq<Item>): (run: seq<Entry>)
    requires Parses(items)
    ensures |run| == |items| && forall i | 0 <= i < |items| :: run[i] == EntryOf(items[i])
  {
    seq(|items|, i requires 0 <= i < |items| => EntryOf(items[i]))
  }

  lemma EntriesCompare(a: Item, b: ParsedInternalKey)
    requires ParseInternalKey(a.key).Some?
    ensures InternalLess(a.key, AppendInternalKey(b)) <==> Less(EntryOf(a).key, RankOf(b))
    ensures InternalLess(AppendInternalKey(b), a.key) <==> Less(RankOf(b), EntryOf(a).key)
  {
    hide InternalLess;
    hide AppendInternalKey;
    hide ParseInternalKey;
    hide RankOf;
    var k := ParseInternalKey(a.key).value;
    AppendUndoesParse(a.key);
    OrderIsEncoded(k, b);
    OrderIsEncoded(b, k);
  }

  /** Ascending encoded keys are a sorted run. */
  lemma RunIsSorted(items: seq<Item>)
    requires Ascending(InternalLess, items) && Parses(items)
    ensures Sorted(RunOf(items))
  {
    hide InternalLess;
    hide AppendInternalKey;
    hide ParseInternalKey;
    hide RankOf;
    hide EntryOf;
    var run := RunOf(items);
    forall i, j | 0 <= i < j < |run| ensures Less(run[i].key, run[j].key) {
      assert InternalLess(items[i].key, items[j].key);
      AppendUndoesParse(items[j].key);
      EntriesCompare(items[i], ParseInternalKey(items[j].key).value);
      KeyOfEntry(items[j]);
    }
  }

  lemma KeyOfEntry(item: Item)
    requires ParseInternalKey(item.key).Some?
    ensures EntryOf(item).key == RankOf(ParseInternalKey(item.key).value) && EntryOf(item).value == item.value
  {
  }

  // ----- a lookup in a table -----

  /** SaveValue: what is kept of the entry handed on; a key that does not parse is corruption. */
  function SaveValue(user: Bytes, item: Item): (r: Option<Saver>) {
    var k := ParseInternalKey(item.key);
    if k.None? then None
    else if k.value.user != user then Some(NotFound)
    else Some(if k.value.kind.Value? then Found(item.value) else Deleted)
  }

  /** TableCache::Get, followed by SaveValue. */
  method TableGet(table: Table, verify: bool, user: Bytes, s: SequenceNumber) returns (r: Option<Saver>)
    requires table.Valid() && Parses(table.Entries())
    ensures Sorted(RunOf(table.Entries())) && r == Some(RunGet(RunOf(table.Entries()), ByteRank(user), s))
  {
    hide InternalLess;
    hide AppendInternalKey;
    hide ParseInternalKey;
    hide SaveValue;
    hide RunGet;
    hide Table.FilterReady;
    hide TableOk;
    hide StoredOk;
    EntriesAscend(table.layout.blocks, table.layout.seps);
    RunIsSorted(table.Entries());
    var k := AppendInternalKey(ParsedInternalKey(user, s, Value));
    var handed := table.InternalGet(verify, k);
    r := if handed.Some? then SaveValue(user, handed.value) else Some(NotFound);
    SavedIsRunGet(table.Entries(), user, s, handed);
  }

  /** Where the lookup key belongs among the encoded keys is where it belongs in the run. */
  lemma PlaceInRun(items: seq<Item>, user: Bytes, s: SequenceNumber, n: nat)
    requires Ascending(InternalLess, items) && Parses(items)
    requires IsFirstOf(items, AppendInternalKey(ParsedInternalKey(user, s, Value)), n)
    ensures SeekIndex(RunOf(items), SeekKey(ByteRank(user), s)) == n
  {
    hide InternalLess;
    hide AppendInternalKey;
    hide ParseInternalKey;
    hide EntryOf;
    hide ByteRank;
    var run, target, r := RunOf(items), SeekKey(ByteRank(user), s), SeekIndex(RunOf(items), SeekKey(ByteRank(user), s));
    EntriesCompare(items[n], ParsedInternalKey(user, s, Value));
    if r < n { EntriesCompare(items[r], ParsedInternalKey(user, s, Value)); }
  }

  /** What is kept of the entry at that place is what a lookup in the run gives. */
  lemma FirstIsRunGet(items: seq<Item>, user: Bytes, s: SequenceNumber, n: nat)
    requires Ascending(InternalLess, items) && Parses(items) && Sorted(RunOf(items))
    requires IsFirstOf(items, AppendInternalKey(ParsedInternalKey(user, s, Value)), n)
    ensures SaveValue(user, items[n]) == Some(RunGet(RunOf(items), ByteRank(user), s))
  {
    hide InternalLess;
    hide AppendInternalKey;
    hide ParseInternalKey;
    hide ByteRank;
    hide IsFirstOf;
    hide Ascending;
    PlaceInRun(items, user, s, n);
    assert n < |items| by { IsFirstIsIn(items, AppendInternalKey(ParsedInternalKey(user, s, Value)), n); }
    RankIsOrder(ParseInternalKey(items[n].key).value.user, user);
  }

  lemma IsFirstIsIn(items: seq<Item>, k: Bytes, n: nat)
    requires IsFirstOf(items, k, n)
    ensures n < |items|
  {
  }

  /** What is kept of the answer of a table is what a lookup in its run gives. */
  lemma SavedIsRunGet(items: seq<Item>, user: Bytes, s: SequenceNumber, handed: Option<Item>)
    requires Ascending(InternalLess, items) && Parses(items) && Sorted(RunOf(items))
    requires Answers(items, AppendInternalKey(ParsedInternalKey(user, s, Value)), handed)
    ensures (if handed.Some? then SaveValue(user, handed.value) else Some(NotFound)) ==
      Some(RunGet(RunOf(items), ByteRank(user), s))
  {
    hide InternalLess;
    hide AppendInternalKey;
    hide ParseInternalKey;
    hide ByteRank;
    hide Ascending;
    hide SaveValue;
    var k := AppendInternalKey(ParsedInternalKey(user, s, Value));
    var run, n := RunOf(items), SeekIndex(RunOf(items), SeekKey(ByteRank(user), s));
    if handed.Some? {
      var m: nat :| IsFirstOf(items, k, m) && handed.value == items[m];
      FirstIsRunGet(items, user, s, m);
    } else if n < |items| && run[n].key.user == ByteRank(user) {
      FirstFromRun(items, user, s, n);
      SameUserInRun(items[n], user, s);
      assert false;
    }
  }

  lemma SameUserInRun(item: Item, user: Bytes, s: SequenceNumber)
    requires ParseInternalKey(item.key).Some? && EntryOf(item).key.user == ByteRank(user)
    ensures SameUser(item.key, AppendInternalKey(ParsedInternalKey(user, s, Value)))
  {
    hide AppendInternalKey;
    hide ByteRank;
    RankIsOrder(ParseInternalKey(item.key).value.user, user);
    ParseUndoesAppend(ParsedInternalKey(user, s, Value));
  }

  lemma FirstFromRun(items: seq<Item>, user: Bytes, s: SequenceNumber, n: nat)
    requires Parses(items) && n < |items| && n == SeekIndex(RunOf(items), SeekKey(ByteRank(user), s))
    ensures IsFirstOf(items, AppendInternalKey(ParsedInternalKey(user, s, Value)), n)
  {
    hide InternalLess;
    hide AppendInternalKey;
    hide ParseInternalKey;
    hide EntryOf;
    hide ByteRank;
    var k := AppendInternalKey(ParsedInternalKey(user, s, Value));
    EntriesCompare(items[n], ParsedInternalKey(user, s, Value));
    forall m | 0 <= m < n ensures InternalLess(items[m].key, k) {
      EntriesCompare(items[m], ParsedInternalKey(user, s, Value));
      assert Less(RunOf(items)[m].key, SeekKey(ByteRank(user), s));
    }
  }

  // ----- a lookup in a memtable -----

  function EntryOfWrite(w: Write): (r: Entry) {
    Entry(RankOf(w.key), w.value)
  }

  /** The run holds the writes. */
  ghost predicate HoldsWrites(run: seq<Entry>, writes: set<Write>) {
    && Sorted(run)
    && (forall w | w in writes :: EntryOfWrite(w) in run)
    && forall e | e in run :: exists w :: w in writes && e == EntryOfWrite(w)
  }

  /** The newest entry that matches is what a lookup gives. */
  lemma NewestIsRunGet(run: seq<Entry>, user: UserKey, s: SequenceNumber, e: Entry)
    requires Sorted(run) && e in run && Matches(e, user, s)
    requires forall x | x in run && Matches(x, user, s) && x != e :: x.key.sequence < e.key.sequence
    ensures RunGet(run, user, s) == Saved(e)
  {
    hide Sorted;
    hide Matches;
    assert !RunGet(run, user, s).NotFound?;
  }

  lemma EligibleMatches(w: Write, user: Bytes, s: SequenceNumber)
    ensures Matches(EntryOfWrite(w), ByteRank(user), s) <==> Eligible(w, user, s)
  {
    hide ByteRank;
    RankIsOrder(w.key.user, user);
  }

  /** What a memtable answers is what a lookup in a run of its writes gives. */
  lemma MemGetIsRunGet(run: seq<Entry>, writes: set<Write>, user: Bytes, s: SequenceNumber, r: Saver)
    requires HoldsWrites(run, writes) && MemAnswers(writes, user, s, r)
    requires forall x, y | x in writes && y in writes && x.key.sequence == y.key.sequence :: x == y
    ensures r == RunGet(run, ByteRank(user), s)
  {
    hide ByteRank;
    hide RunGet;
    hide Matches;
    hide Eligible;
    hide Sorted;
    if r.NotFound? {
      forall e | e in run ensures !Matches(e, ByteRank(user), s) {
        var w :| w in writes && e == EntryOfWrite(w);
        EligibleMatches(w, user, s);
      }
    } else {
      var v :| IsNewest(writes, user, s, v) && r == Saved(EntryOfWrite(v));
      EligibleMatches(v, user, s);
      forall e | e in run && Matches(e, ByteRank(user), s) && e != EntryOfWrite(v)
        ensures e.key.sequence < v.key.sequence
      {
        var w :| w in writes && e == EntryOfWrite(w);
        EligibleMatches(w, user, s);
      }
      NewestIsRunGet(run, ByteRank(user), s, EntryOfWrite(v));
    }
  }
}
