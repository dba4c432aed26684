/**
 The memtable on bytes (memtable.cc, dbformat.h, dbformat.cc): length-prefixed internal keys and values in a sorted
 list, and a lookup that seeks to one encoded key and looks at the entry it finds.
 */
module MemTables {
  import opened InternalKeys
  import opened Coding
  import opened Blocks
  import opened Separators
  import opened Versions

  // ----- encoded internal keys -----

  datatype ParsedInternalKey = ParsedInternalKey(user: Bytes, sequence: SequenceNumber, kind: ValueType)

  function Pack(sequence: SequenceNumber, kind: ValueType): (r: nat) {
    sequence * 256 + if kind.Value? then 1 else 0
  }

  function AppendInternalKey(k: ParsedInternalKey): (r: Bytes)
    ensures |r| == |k.user| + 8
  {
    k.user + EncodeFixed64(Pack(k.sequence, k.kind))
  }

  lemma {:induction false} TagIsLong(key: Bytes)
    requires |key| >= 8
    ensures TagOf(key) < LONG_LIMIT
  {
  }

  /** Too short a key and an unknown type are errors. */
  function ParseInternalKey(key: Bytes): (r: Option<ParsedInternalKey>) {
    if |key| < 8 then None
    else
      TagIsLong(key);
      var tag := TagOf(key);
      if tag % 256 > 1 then None
      else Some(ParsedInternalKey(UserOf(key), tag / 256, if tag % 256 == 1 then Value else Deletion))
  }

  lemma {:induction false} ParseUndoesAppend(k: ParsedInternalKey)
    ensures UserOf(AppendInternalKey(k)) == k.user && TagOf(AppendInternalKey(k)) == Pack(k.sequence, k.kind)
    ensures ParseInternalKey(AppendInternalKey(k)) == Some(k)
  {
    hide EncodeFixed64;
    hide DecodeFixed64;
    var tag := EncodeFixed64(Pack(k.sequence, k.kind));
    Decode64UndoesEncode(Pack(k.sequence, k.kind), []);
    assert AppendInternalKey(k)[|k.user|..] == tag && tag + [] == tag;
  }

  /** InternalKeyComparator over any user comparator. */
  predicate KeyLess(user: Comparator, a: Bytes, b: Bytes) {
    |a| >= 8 && |b| >= 8 && (user(UserOf(a), UserOf(b)) || (UserOf(a) == UserOf(b) && TagOf(a) > TagOf(b)))
  }

  // ----- entries -----

  datatype Write = Write(key: ParsedInternalKey, value: Bytes)

  predicate WriteFits(w: Write) {
    |w.key.user| + 8 < WORD_LIMIT && |w.value| < WORD_LIMIT
  }

  function EncodeEntry(w: Write): (r: Bytes) {
    LengthPrefixed(AppendInternalKey(w.key)) + LengthPrefixed(w.value)
  }

  /** GetLengthPrefixedSlice on data that is not corrupted. */
  function SliceAt(data: Bytes): (r: Bytes) {
    var p := DecodeLengthPrefixed(data);
    if p.Parsed? then p.value else []
  }

  lemma {:induction false} EntryIsSplit(w: Write)
    requires WriteFits(w)
    ensures DecodeLengthPrefixed(EncodeEntry(w)) == Parsed(AppendInternalKey(w.key), LengthPrefixed(w.value))
    ensures SliceAt(EncodeEntry(w)) == AppendInternalKey(w.key) && SliceAt(LengthPrefixed(w.value)) == w.value
  {
    hide LengthPrefixed;
    hide DecodeLengthPrefixed;
    hide AppendInternalKey;
    DecodeUndoesLengthPrefix(AppendInternalKey(w.key), LengthPrefixed(w.value));
    assert LengthPrefixed(w.value) + [] == LengthPrefixed(w.value);
    DecodeUndoesLengthPrefix(w.value, []);
  }

  /** LookupKey: the memtable key that every entry of `user` at or below `sequence` is not before. */
  function MemtableKey(user: Bytes, sequence: SequenceNumber): (r: Bytes) {
    LengthPrefixed(AppendInternalKey(ParsedInternalKey(user, sequence, Value)))
  }

  // ----- what a lookup must find -----

  ghost predicate Eligible(w: Write, user: Bytes, s: nat) {
    w.key.user == user && w.key.sequence <= s
  }

  /** The write that a read of `user` at sequence number `s` sees. */
  ghost predicate IsNewest(writes: set<Write>, user: Bytes, s: nat, w: Write) {
    && w in writes && Eligible(w, user, s)
    && forall x | x in writes && Eligible(x, user, s) ::
      Pack(x.key.sequence, x.key.kind) <= Pack(w.key.sequence, w.key.kind)
  }

  /** The newest eligible write: a value, a deletion, or nothing. */
  ghost predicate MemAnswers(writes: set<Write>, user: Bytes, s: SequenceNumber, r: Saver) {
    match r
    case Found(v) => exists w :: IsNewest(writes, user, s, w) && w.key.kind.Value? && w.value == v
    case Deleted => exists w :: IsNewest(writes, user, s, w) && w.key.kind.Deletion?
    case NotFound => forall x | x in writes :: !Eligible(x, user, s)
  }

  // ----- the memtable -----

  ghost predicate WriteBefore(user: Comparator, a: Write, b: Write) {
    user(a.key.user, b.key.user) || (a.key.user == b.key.user
      && Pack(a.key.sequence, a.key.kind) > Pack(b.key.sequence, b.key.kind))
  }

  lemma OrderOfEntries(user: Comparator, a: Write, b: Write)
    ensures KeyLess(user, AppendInternalKey(a.key), AppendInternalKey(b.key)) <==> WriteBefore(user, a, b)
  {
    hide AppendInternalKey;
    hide UserOf;
    hide TagOf;
    hide Pack;
    ParseUndoesAppend(a.key);
    ParseUndoesAppend(b.key);
  }

  /** `table` holds the writes, encoded and in order. */
  ghost predicate Holds(user: Comparator, table: seq<Bytes>, writes: seq<Write>) {
    && |table| == |writes|
    && (forall i | 0 <= i < |writes| :: WriteFits(writes[i]) && table[i] == EncodeEntry(writes[i]))
    && forall i, j {:trigger WriteBefore(user, writes[i], writes[j])} | 0 <= i < j < |writes| ::
      WriteBefore(user, writes[i], writes[j])
  }

  ghost function Elems(writes: seq<Write>): (r: set<Write>) {
    set w | w in writes
  }

  /** `i` is the place of `w`: everything before it is before `w`, and nothing behind it is. */
  ghost predicate PlaceOf(user: Comparator, writes: seq<Write>, w: Write, i: nat) {
    && i <= |writes|
    && (forall j {:trigger WriteBefore(user, writes[j], w)} | 0 <= j < i :: WriteBefore(user, writes[j], w))
    && (i < |writes| ==> !WriteBefore(user, writes[i], w))
  }

  function InsertAt<T>(items: seq<T>, i: nat, x: T): (r: seq<T>)
    requires i <= |items|
    ensures |r| == |items| + 1 && r[i] == x
    ensures forall k | 0 <= k < |r| && k != i :: r[k] == items[if k < i then k else k - 1]
  {
    items[..i] + [x] + items[i..]
  }

  lemma InsertElems(writes: seq<Write>, i: nat, w: Write)
    requires i <= |writes|
    ensures Elems(InsertAt(writes, i, w)) == Elems(writes) + {w}
  {
    assert forall x | x in writes :: x in writes[..i] || x in writes[i..];
  }

  lemma InsertKeeps(user: Comparator, table: seq<Bytes>, writes: seq<Write>, w: Write, i: nat)
    requires TotalOrder(user) && Holds(user, table, writes) && WriteFits(w)
    requires PlaceOf(user, writes, w, i)
    requires forall x | x in writes :: x.key != w.key
    ensures |table| == |writes| && Holds(user, InsertAt(table, i, EncodeEntry(w)), InsertAt(writes, i, w))
  {
    hide EncodeEntry;
    hide WriteBefore;
    hide TotalOrder;
    hide InsertAt;
    hide WriteFits;
    var r := InsertAt(writes, i, w);
    forall k | i <= k < |writes| ensures WriteBefore(user, w, writes[k]) {
      NotBeforeIsAfter(user, writes[i], w);
      if k > i {
        assert WriteBefore(user, writes[i], writes[k]);
        BeforeIsTransitive(user, w, writes[i], writes[k]);
      }
    }
    forall a, b {:trigger WriteBefore(user, r[a], r[b])} | 0 <= a < b < |r| ensures WriteBefore(user, r[a], r[b]) {
      var x, y := if a < i then a else a - 1, if b < i then b else b - 1;
      if a != i && b != i {
        assert WriteBefore(user, writes[x], writes[y]);
      }
    }
  }

  lemma PackIsInjective(a: ParsedInternalKey, b: ParsedInternalKey)
    requires a.user == b.user && Pack(a.sequence, a.kind) == Pack(b.sequence, b.kind)
    ensures a == b
  {
  }

  lemma NotBeforeIsAfter(user: Comparator, a: Write, b: Write)
    requires TotalOrder(user) && a.key != b.key && !WriteBefore(user, a, b)
    ensures WriteBefore(user, b, a)
  {
    hide Pack;
    if a.key.user == b.key.user && Pack(a.key.sequence, a.key.kind) == Pack(b.key.sequence, b.key.kind) {
      PackIsInjective(a.key, b.key);
    }
  }

  lemma BeforeIsTransitive(user: Comparator, a: Write, b: Write, c: Write)
    requires TotalOrder(user) && WriteBefore(user, a, b) && WriteBefore(user, b, c)
    ensures WriteBefore(user, a, c)
  {
    hide Pack;
  }

  /** The entry at the place of the lookup key is the newest eligible one, or there is none. */
  lemma PlaceIsNewest(user: Comparator, writes: seq<Write>, key: Bytes, s: SequenceNumber, i: nat)
    requires TotalOrder(user) && PlaceOf(user, writes, Write(ParsedInternalKey(key, s, Value), []), i)
    requires forall a, b {:trigger WriteBefore(user, writes[a], writes[b])} | 0 <= a < b < |writes| ::
      WriteBefore(user, writes[a], writes[b])
    ensures if i < |writes| && writes[i].key.user == key then IsNewest(Elems(writes), key, s, writes[i])
      else forall x | x in writes :: !Eligible(x, key, s)
  {
    var target := Write(ParsedInternalKey(key, s, Value), []);
    forall k | 0 <= k < |writes| && Eligible(writes[k], key, s) ensures i <= k {
      assert k < i ==> WriteBefore(user, writes[k], target);
    }
    if i < |writes| && writes[i].key.user == key {
      forall x | x in writes && Eligible(x, key, s)
        ensures Pack(x.key.sequence, x.key.kind) <= Pack(writes[i].key.sequence, writes[i].key.kind)
      {
        var k :| 0 <= k < |writes| && writes[k] == x;
        if i < k { assert WriteBefore(user, writes[i], writes[k]); }
      }
    } else if i < |writes| {
      forall x | x in writes ensures !Eligible(x, key, s) {
        var k :| 0 <= k < |writes| && writes[k] == x;
        if i < k { assert WriteBefore(user, writes[i], writes[k]); }
      }
    }
  }

  class MemTable {
    const user: Comparator
    /** The encoded entries, in the order of the skip list. */
    var table: seq<Bytes>
    ghost var writes: seq<Write>

    ghost predicate Valid()
      reads this
    {
      TotalOrder(user) && Holds(user, table, writes)
    }

    constructor (user: Comparator)
      requires TotalOrder(user)
      ensures Valid() && this.user == user && writes == []
    {
      this.user, table, writes := user, [], [];
    }

    /** The first entry whose key is not before the one that `target` starts with: what the skip list's Seek finds. */
    method FindGreaterOrEqual(target: Bytes, ghost w: Write) returns (i: nat)
      requires Valid() && SliceAt(target) == AppendInternalKey(w.key)
      ensures PlaceOf(user, writes, w, i) && i <= |table|
    {
      hide EncodeEntry;
      hide SliceAt;
      hide KeyLess;
      hide WriteBefore;
      hide TotalOrder;
      i := 0;
      while i < |table| && KeyLess(user, SliceAt(table[i]), SliceAt(target))
        invariant i <= |table|
        invariant forall j {:trigger WriteBefore(user, writes[j], w)} | 0 <= j < i :: WriteBefore(user, writes[j], w)
      {
        EntryIsSplit(writes[i]);
        OrderOfEntries(user, writes[i], w);
        i := i + 1;
      }
      if i < |table| {
        EntryIsSplit(writes[i]);
        OrderOfEntries(user, writes[i], w);
      }
    }

    /** The list must not hold an equal key already. */
    method Add(s: SequenceNumber, kind: ValueType, key: Bytes, value: Bytes)
      requires Valid() && WriteFits(Write(ParsedInternalKey(key, s, kind), value))
      requires forall x | x in writes :: x.key != ParsedInternalKey(key, s, kind)
      modifies this
      ensures Valid() && Elems(writes) == Elems(old(writes)) + {Write(ParsedInternalKey(key, s, kind), value)}
    {
      hide Holds;
      hide TotalOrder;
      hide EncodeVarint32;
      hide EncodeFixed64;
      ghost var w := Write(ParsedInternalKey(key, s, kind), value);
      var buf := EncodeVarint32(|key| + 8);
      buf := buf + key;
      buf := buf + EncodeFixed64(s * 256 + if kind.Value? then 1 else 0);
      buf := buf + EncodeVarint32(|value|);
      buf := buf + value;
      assert buf == EncodeEntry(w);
      EntryIsSplit(w);
      var i := FindGreaterOrEqual(buf, w);
      InsertKeeps(user, table, writes, w, i);
      InsertElems(writes, i, w);
      table := InsertAt(table, i, buf);
      writes := InsertAt(writes, i, w);
    }

    /** The newest write to the user key at or below the sequence number; a deletion is not the same as nothing. */
    method Get(key: Bytes, s: SequenceNumber) returns (r: Saver)
      requires Valid() && |key| + 8 < WORD_LIMIT
      ensures MemAnswers(Elems(writes), key, s, r)
    {
      hide Holds;
      hide TotalOrder;
      hide LengthPrefixed;
      hide DecodeLengthPrefixed;
      hide AppendInternalKey;
      hide IsNewest;
      hide PlaceOf;
      hide Elems;
      ghost var target := Write(ParsedInternalKey(key, s, Value), []);
      var memkey := MemtableKey(key, s);
      assert memkey + [] == memkey;
      DecodeUndoesLengthPrefix(AppendInternalKey(target.key), []);
      var i := FindGreaterOrEqual(memkey, target);
      PlaceOfLookup(target, i);
      r := NotFound;
      if i < |table| {
        var entry := table[i];
        EntryIsSplit(writes[i]);
        ParseUndoesAppend(writes[i].key);
        var p := DecodeLengthPrefixed(entry);
        var internalKey := p.value;
        if UserOf(internalKey) == key {
          assert IsNewest(Elems(writes), key, s, writes[i]);
          var tag := TagOf(internalKey);
          if tag % 256 == 1 {
            r := Found(SliceAt(p.rest));
          } else if tag % 256 == 0 {
            r := Deleted;
          }
        }
      }
    }

    lemma PlaceOfLookup(target: Write, i: nat)
      requires Valid() && target.key.kind.Value? && target.value == []
      requires PlaceOf(user, writes, target, i)
      ensures |table| == |writes| && (i < |table| ==> WriteFits(writes[i]) && table[i] == EncodeEntry(writes[i]))
      ensures if i < |writes| && writes[i].key.user ==
        target.key.user then IsNewest(Elems(writes), target.key.user, target.key.sequence, writes[i])
        else forall x | x in Elems(writes) :: !Eligible(x, target.key.user, target.key.sequence)
    {
      hide WriteBefore;
      hide PlaceOf;
      PlaceIsNewest(user, writes, target.key.user, target.key.sequence, i);
    }
  }
}
