/**
 Keys and entries of the LSM engine (dbformat.h, dbformat.cc).

 The user comparator may be any total order.  Its domain is the countable set of byte strings, and every
 countable total order embeds in the real line, so a user key is represented by its rank: `a < b` is
 `Compare(a, b) < 0`, and `a == b` is `Compare(a, b) == 0`.
 */
module InternalKeys {

  type UserKey = real

  type Byte = b: int | 0 <= b < 256

  type Bytes = seq<Byte>

  const MAX_SEQUENCE: nat := 0xFF_FFFF_FFFF_FFFF

  type SequenceNumber = n: nat | n <= MAX_SEQUENCE

  datatype ValueType = Deletion | Value

  datatype InternalKey = InternalKey(user: UserKey, sequence: SequenceNumber, kind: ValueType)

  datatype Entry = Entry(key: InternalKey, value: Bytes)

  /** The last eight bytes of an encoded internal key. */
  function PackSequenceAndType(k: InternalKey): (r: nat) {
    k.sequence * 256 + if k.kind.Value? then 1 else 0
  }

  /** User key ascending, then packed sequence and type descending. */
  predicate Less(a: InternalKey, b: InternalKey) {
    a.user < b.user || (a.user == b.user && PackSequenceAndType(a) > PackSequenceAndType(b))
  }

  predicate AtMost(a: InternalKey, b: InternalKey) {
    !Less(b, a)
  }

  /**
   The order is total: keys that neither precede the other are the same key.  User keys ascend, sequence numbers of one
   user key descend, and a value comes before a deletion.
   */
  lemma LessIsTotal(a: InternalKey, b: InternalKey, c: InternalKey)
    ensures Less(a, b) <==>
      || a.user < b.user
      || (a.user == b.user && a.sequence > b.sequence)
      || (a.user == b.user && a.sequence == b.sequence && a.kind.Value? && b.kind.Deletion?)
    ensures !Less(a, a)
    ensures Less(a, b) && Less(b, c) ==> Less(a, c)
    ensures Less(a, b) || Less(b, a) || a == b
  {
    if a.user == b.user && !Less(a, b) && !Less(b, a) {
      assert a.sequence == b.sequence && a.kind == b.kind;
    }
  }

  /** The key every lookup of `user` at `sequence` seeks to: it precedes exactly the entries at or below `sequence`. */
  function SeekKey(user: UserKey, sequence: SequenceNumber): (r: InternalKey) {
    InternalKey(user, sequence, Value)
  }

  lemma SeekKeyBound(user: UserKey, s: SequenceNumber, k: InternalKey)
    requires k.user == user
    ensures Less(k, SeekKey(user, s)) <==> k.sequence > s
  {
  }

  // ----- sorted runs -----

  predicate Sorted(run: seq<Entry>) {
    forall i, j | 0 <= i < j < |run| :: Less(run[i].key, run[j].key)
  }

  /** The first index whose key is at or after `target`: where Seek leaves an iterator over the run. */
  function SeekIndex(run: seq<Entry>, target: InternalKey): (r: nat)
    ensures r <= |run|
    ensures forall i | 0 <= i < r :: Less(run[i].key, target)
    ensures r < |run| ==> AtMost(target, run[r].key)
  {
    if run == [] || AtMost(target, run[0].key) then 0
    else
      var rest := SeekIndex(run[1..], target);
      assert forall i | 1 <= i < 1 + rest :: run[i] == run[1..][i - 1];
      1 + rest
  }

  function InsertSorted(run: seq<Entry>, e: Entry): (r: seq<Entry>)
    requires Sorted(run) && forall x | x in run :: x.key != e.key
    ensures Sorted(r) && forall x :: x in r <==> x == e || x in run
  {
    if run == [] then [e]
    else if Less(e.key, run[0].key) then
      assert forall j | 0 < j < |run| :: Less(run[0].key, run[j].key);
      [e] + run
    else
      LessIsTotal(e.key, run[0].key, e.key);
      assert run[0] in run;
      var rest := InsertSorted(run[1..], e);
      assert forall x | x in run[1..] :: Less(run[0].key, x.key);
      assert forall j | 0 <= j < |rest| :: rest[j] in rest;
      [run[0]] + rest
  }

  /** Among entries with one user key, everything in `a` is more recent than everything in `b`. */
  ghost predicate NewerThan(a: seq<Entry>, b: seq<Entry>) {
    forall x, y {:trigger x in a, y in b} | x in a && y in b && x.key.user == y.key.user ::
      x.key.sequence > y.key.sequence
  }

  // ----- what a read must return -----

  /** `history[i]` is the write that was given sequence number `i + 1`. */
  ghost predicate IsHistory(history: seq<Entry>) {
    |history| <= MAX_SEQUENCE && forall i | 0 <= i < |history| :: history[i].key.sequence == i + 1
  }

  /** The sequence number of the last write to `user` at or before `s`, or 0. */
  function LastWrite(history: seq<Entry>, user: UserKey, s: nat): (n: nat)
    requires s <= |history|
    ensures n <= s
    ensures n > 0 ==> history[n - 1].key.user == user
    ensures forall i | n <= i < s :: history[i].key.user != user
  {
    if s == 0 then 0
    else if history[s - 1].key.user == user then s
    else LastWrite(history, user, s - 1)
  }

  datatype Option<T> = None | Some(value: T)

  /** The specification of the whole engine: the newest write at or before `s`, a deletion meaning absent. */
  function SpecGet(history: seq<Entry>, user: UserKey, s: nat): (r: Option<Bytes>)
    requires s <= |history|
  {
    var n := LastWrite(history, user, s);
    if n == 0 || history[n - 1].key.kind.Deletion? then None else Some(history[n - 1].value)
  }
}
