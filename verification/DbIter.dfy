/**
 DBIter (db_iter.cc).  Over an internal iterator that is a cursor on one sorted run, it is a cursor on the sorted map
 of the user keys visible at its sequence number, under any mix of seeks and moves and across changes of direction.
 */
module DbIterators {
  import opened InternalKeys
  import opened Versions
  import opened Cursors
  import opened MergingIterators

  // ----- the map that is iterated over -----

  /** The entries from `i` on, applied oldest first: a value sets its key, a deletion removes it. */
  function VisibleFrom(run: seq<Entry>, s: SequenceNumber, i: nat): (r: map<UserKey, Bytes>)
    requires i <= |run|
    decreases |run| - i
  {
    if i == |run| then map[]
    else
      var older := VisibleFrom(run, s, i + 1);
      if run[i].key.sequence > s then older
      else if run[i].key.kind.Deletion? then older - {run[i].key.user}
      else older[run[i].key.user := run[i].value]
  }

  function Visible(run: seq<Entry>, s: SequenceNumber): (r: map<UserKey, Bytes>) {
    VisibleFrom(run, s, 0)
  }

  /** No bound, or an end of the keys a move may land on. */
  datatype Bound = Unbounded | AtLeast(key: UserKey) | After(key: UserKey) | Below(key: UserKey)

  predicate Within(b: Bound, u: UserKey) {
    match b
    case Unbounded => true
    case AtLeast(k) => u >= k
    case After(k) => u > k
    case Below(k) => u < k
  }

  /** `r` is the smallest key of the map within the bound. */
  ghost predicate IsFirst(m: map<UserKey, Bytes>, b: Bound, r: Option<UserKey>) {
    && (r.Some? ==> r.value in m && Within(b, r.value))
    && (forall u | u in m && Within(b, u) :: r.Some? && r.value <= u)
  }

  ghost predicate IsLast(m: map<UserKey, Bytes>, b: Bound, r: Option<UserKey>) {
    && (r.Some? ==> r.value in m && Within(b, r.value))
    && (forall u | u in m && Within(b, u) :: r.Some? && u <= r.value)
  }

  // ----- which entries are yielded -----

  /** The newest entry of its user key at or below `s`, and a value. */
  ghost predicate Yields(run: seq<Entry>, s: SequenceNumber, i: nat) {
    && i < |run| && run[i].key.sequence <= s && run[i].key.kind.Value?
    && forall k {:trigger run[k]} | 0 <= k < i && run[k].key.user == run[i].key.user :: run[k].key.sequence > s
  }

  lemma UsersAscend(run: seq<Entry>, i: nat, j: nat)
    requires Sorted(run) && i <= j < |run|
    ensures run[i].key.user <= run[j].key.user
    ensures run[i].key.user == run[j].key.user ==> run[i].key.sequence >= run[j].key.sequence
  {
    if i < j { assert Less(run[i].key, run[j].key); }
  }

  /** The first entry of `u` from `i` on that is not too new decides. */
  lemma {:induction false} FirstDecides(run: seq<Entry>, s: SequenceNumber, i: nat, j: nat)
    requires i <= j < |run| && run[j].key.sequence <= s
    requires forall k {:trigger run[k]} | i <= k < j && run[k].key.user == run[j].key.user :: run[k].key.sequence > s
    ensures var m, u := VisibleFrom(run, s, i), run[j].key.user;
      (u in m <==> run[j].key.kind.Value?) && (u in m ==> m[u] == run[j].value)
    decreases j - i
  {
    if i < j { FirstDecides(run, s, i + 1, j); }
  }

  lemma {:induction false} VisibleHasEntry(run: seq<Entry>, s: SequenceNumber, i: nat, u: UserKey) returns (j: nat)
    requires i <= |run| && u in VisibleFrom(run, s, i)
    ensures i <= j < |run| && run[j].key.user == u && run[j].key.sequence <= s
    ensures run[j].key.kind.Value?
    ensures forall k {:trigger run[k]} | i <= k < j && run[k].key.user == u :: run[k].key.sequence > s
    decreases |run| - i
  {
    if run[i].key.user == u && run[i].key.sequence <= s {
      j := i;
    } else {
      j := VisibleHasEntry(run, s, i + 1, u);
    }
  }

  lemma YieldIsVisible(run: seq<Entry>, s: SequenceNumber, i: nat)
    requires Yields(run, s, i)
    ensures run[i].key.user in Visible(run, s) && Visible(run, s)[run[i].key.user] == run[i].value
  {
    FirstDecides(run, s, 0, i);
  }

  lemma VisibleIsYielded(run: seq<Entry>, s: SequenceNumber, u: UserKey) returns (i: nat)
    requires u in Visible(run, s)
    ensures Yields(run, s, i) && run[i].key.user == u
  {
    i := VisibleHasEntry(run, s, 0, u);
  }

  /** The map holds what point lookups at `s` find. */
  lemma VisibleIsLookup(run: seq<Entry>, s: SequenceNumber, u: UserKey)
    requires Sorted(run)
    ensures RunGet(run, u, s).Found? <==> u in Visible(run, s)
    ensures u in Visible(run, s) ==> RunGet(run, u, s) == Found(Visible(run, s)[u])
  {
    var i := SeekIndex(run, SeekKey(u, s));
    forall k | 0 <= k < |run| && run[k].key.user == u ensures run[k].key.sequence > s <==> k < i {
      SeekKeyBound(u, s, run[k].key);
      if k >= i { LessIsTotal(run[i].key, run[k].key, SeekKey(u, s)); }
    }
    if i < |run| && run[i].key.user == u {
      FirstDecides(run, s, 0, i);
    } else if u in Visible(run, s) {
      var j := VisibleIsYielded(run, s, u);
      UsersAscend(run, i, j);
    }
  }

  // ----- moving forward -----

  ghost predicate NothingBefore(run: seq<Entry>, s: SequenceNumber, b: Bound, p: nat) {
    forall j {:trigger Yields(run, s, j)} | 0 <= j < p && Yields(run, s, j) :: !Within(b, run[j].key.user)
  }

  predicate Past(skip: Option<UserKey>, u: UserKey) {
    skip.Some? ==> u > skip.value
  }

  ghost predicate ToldApart(run: seq<Entry>, s: SequenceNumber, b: Bound, p: nat, skip: Option<UserKey>) {
    forall j {:trigger Yields(run, s, j)} | p <= j < |run| && Yields(run, s, j) :: Within(b, run[j].key.user) <==>
      Past(skip, run[j].key.user)
  }

  ghost predicate NoneBelow(run: seq<Entry>, s: SequenceNumber, p: nat, skip: Option<UserKey>) {
    forall j {:trigger run[j]} | p <= j < |run| && run[j].key.sequence <= s :: skip.Some? ==>
      run[j].key.user >= skip.value
  }

  /** A key seen before `p` that goes on after `p` is one to skip. */
  ghost predicate SeenIsSkipped(run: seq<Entry>, s: SequenceNumber, p: nat, skip: Option<UserKey>) {
    forall k {:trigger run[k]} | 0 <= k < p <= |run| && run[k].key.sequence <= s
      :: !Past(skip, run[k].key.user) || (p < |run| ==> run[k].key.user < run[p].key.user)
  }

  /**
   What FindNextUserEntry relies on at `p`: nothing wanted lies before, and the rest is told apart by the key to skip.
   */
  ghost predicate Scanning(run: seq<Entry>, s: SequenceNumber, b: Bound, p: nat, skip: Option<UserKey>) {
    && NothingBefore(run, s, b, p) && ToldApart(run, s, b, p, skip) && NoneBelow(run, s, p, skip)
    && SeenIsSkipped(run, s, p, skip)
  }

  /** One turn of the loop that does not stop. */
  lemma ScanStep(run: seq<Entry>, s: SequenceNumber, b: Bound, p: nat, skip: Option<UserKey>, skip': Option<UserKey>)
    requires Sorted(run) && p < |run| && Scanning(run, s, b, p, skip)
    requires skip' == if run[p].key.sequence <= s && run[p].key.kind.Deletion? then Some(run[p].key.user) else skip
    requires run[p].key.sequence <= s && run[p].key.kind.Value? ==> skip.Some? && run[p].key.user <= skip.value
    ensures Scanning(run, s, b, p + 1, skip')
  {
    forall j | p < j < |run| ensures run[p].key.user <= run[j].key.user {
      UsersAscend(run, p, j);
    }
    assert run[p].key.sequence <= s ==> !Past(skip', run[p].key.user);
    assert NothingBefore(run, s, b, p + 1);
    assert ToldApart(run, s, b, p + 1, skip');
    assert NoneBelow(run, s, p + 1, skip');
    assert SeenIsSkipped(run, s, p + 1, skip');
  }

  /** The loop stops at a wanted key, and at the first. */
  lemma ScanStops(run: seq<Entry>, s: SequenceNumber, b: Bound, p: nat, skip: Option<UserKey>)
    requires Sorted(run) && p < |run| && Scanning(run, s, b, p, skip)
    requires run[p].key.sequence <= s && run[p].key.kind.Value? && (skip.Some? ==> run[p].key.user > skip.value)
    ensures Yields(run, s, p) && IsFirst(Visible(run, s), b, Some(run[p].key.user))
  {
    assert Yields(run, s, p);
    YieldIsVisible(run, s, p);
    forall u | u in Visible(run, s) && Within(b, u) ensures run[p].key.user <= u {
      var i := VisibleIsYielded(run, s, u);
      UsersAscend(run, p, if i < p then p else i);
    }
  }

  lemma ScanEnds(run: seq<Entry>, s: SequenceNumber, b: Bound, skip: Option<UserKey>)
    requires Sorted(run) && Scanning(run, s, b, |run|, skip)
    ensures IsFirst(Visible(run, s), b, None)
  {
    forall u | u in Visible(run, s) ensures !Within(b, u) {
      var i := VisibleIsYielded(run, s, u);
    }
  }

  /** The body of the loop of FindNextUserEntry: yield the entry, or go on, maybe with another key to skip. */
  method Consider(e: Entry, s: SequenceNumber, skip: Option<UserKey>, ghost run: seq<Entry>, ghost p: nat,
      ghost b: Bound)
    returns (yielded: bool, skip': Option<UserKey>)
    requires Sorted(run) && p < |run| && e == run[p]
    requires Scanning(run, s, b, p, skip)
    ensures yielded ==> Yields(run, s, p) && IsFirst(Visible(run, s), b, Some(e.key.user))
    ensures !yielded ==> Scanning(run, s, b, p + 1, skip')
  {
    yielded, skip' := false, skip;
    if e.key.sequence <= s {
      match e.key.kind
      case Deletion =>
        skip' := Some(e.key.user);
      case Value =>
        if !(skip.Some? && e.key.user <= skip.value) {
          ScanStops(run, s, b, p, skip);
          return true, skip;
        }
    }
    ScanStep(run, s, b, p, skip, skip');
  }

  // ----- moving backwards -----

  /** The index before which the backward scan stands: one past the entry the internal iterator is on. */
  function Behind(p: Position): (r: nat) {
    if p.Some? then p.value + 1 else 0
  }

  /** The entries from `p` on hold nothing below the bound, and all before `p` are below it. */
  ghost predicate Cleared(run: seq<Entry>, s: SequenceNumber, b: Bound, p: nat) {
    && p <= |run|
    && (forall j {:trigger run[j]} | 0 <= j < p :: Within(b, run[j].key.user))
    && (forall j {:trigger run[j]} | p <= j < |run| && run[j].key.sequence <= s :: !Within(b, run[j].key.user))
  }

  ghost predicate TooNew(run: seq<Entry>, s: SequenceNumber, lo: nat, hi: nat) {
    hi <= |run| && forall j {:trigger run[j]} | lo <= j < hi :: run[j].key.sequence > s
  }

  ghost predicate NoYield(run: seq<Entry>, s: SequenceNumber, lo: nat, hi: nat) {
    forall j {:trigger Yields(run, s, j)} | lo <= j < hi :: !Yields(run, s, j)
  }

  /** What the backward loop has seen between `p` and `top`: `m` is the first visible entry there, if there is one. */
  ghost predicate ScanningBack(run: seq<Entry>, s: SequenceNumber, p: nat, top: nat, m: nat, kind: ValueType,
      key: Option<UserKey>, value: Bytes)
  {
    && p <= m <= top <= |run| && TooNew(run, s, p, m) && NoYield(run, s, m + 1, top)
    && (m < top ==> run[m].key.sequence <= s && run[m].key.kind == kind)
    && (m == top ==> kind.Deletion?)
    && (kind.Value? ==> key == Some(run[m].key.user) && value == run[m].value)
  }

  /** One turn of the loop that does not stop. */
  lemma ScanBackStep(run: seq<Entry>, s: SequenceNumber, p: nat, top: nat, m: nat, kind: ValueType,
      key: Option<UserKey>, value: Bytes)
    requires Sorted(run) && 0 < p && ScanningBack(run, s, p, top, m, kind, key, value)
    requires var e := run[p - 1]; e.key.sequence <= s && kind.Value? ==> e.key.user >= key.value
    ensures var e := run[p - 1];
      if e.key.sequence > s then ScanningBack(run, s, p - 1, top, m, kind, key, value)
      else if e.key.kind.Deletion? then ScanningBack(run, s, p - 1, top, p - 1, Deletion, None, [])
      else ScanningBack(run, s, p - 1, top, p - 1, Value, Some(e.key.user), e.value)
  {
    var e := run[p - 1];
    if e.key.sequence <= s && m < top {
      UsersAscend(run, p - 1, m);
      assert !Yields(run, s, m);
    }
  }

  /** The loop stops with the last key below the bound. */
  lemma ScanBackStops(run: seq<Entry>, s: SequenceNumber, b: Bound, p: nat, top: nat, m: nat, key: Option<UserKey>,
      value: Bytes)
    requires Sorted(run) && ScanningBack(run, s, p, top, m, Value, key, value) && Cleared(run, s, b, top)
    requires b.Unbounded? || b.Below?
    requires p > 0 ==> run[p - 1].key.user < key.value
    ensures key.Some? && key.value in Visible(run, s) && Visible(run, s)[key.value] == value
    ensures IsLast(Visible(run, s), b, key) && Cleared(run, s, Below(key.value), p)
  {
    assert Yields(run, s, m);
    YieldIsVisible(run, s, m);
    ClearedBelow(run, s, p, top, m, key.value, b);
    forall u | u in Visible(run, s) && Within(b, u) ensures u <= key.value {
      var i := VisibleIsYielded(run, s, u);
      assert i <= m;
      UsersAscend(run, i, m);
    }
  }

  lemma ClearedBelow(run: seq<Entry>, s: SequenceNumber, p: nat, top: nat, m: nat, u: UserKey, b: Bound)
    requires Sorted(run) && p <= m < top <= |run| && run[m].key.user == u
    requires Cleared(run, s, b, top)
    requires TooNew(run, s, p, m)
    requires p > 0 ==> run[p - 1].key.user < u
    ensures Cleared(run, s, Below(u), p)
  {
    forall k | 0 <= k < p ensures run[k].key.user < u {
      UsersAscend(run, k, p - 1);
    }
    forall j | p <= j < |run| && run[j].key.sequence <= s ensures run[j].key.user >= u {
      if j >= m { UsersAscend(run, m, j); }
    }
  }

  lemma ScanBackEnds(run: seq<Entry>, s: SequenceNumber, b: Bound, top: nat, m: nat, key: Option<UserKey>, value: Bytes)
    requires Sorted(run) && ScanningBack(run, s, 0, top, m, Deletion, key, value) && Cleared(run, s, b, top)
    ensures IsLast(Visible(run, s), b, None)
  {
    forall u | u in Visible(run, s) ensures !Within(b, u) {
      var i := VisibleIsYielded(run, s, u);
      assert i >= top;
    }
  }

  /** The body of the loop of FindPrevUserEntry: stop in front of an earlier key, or go on with what this entry says. */
  method ConsiderBack(e: Entry, s: SequenceNumber, kind: ValueType, key: Option<UserKey>, value: Bytes,
      ghost run: seq<Entry>, ghost p: nat, ghost top: nat, ghost m: nat)
    returns (stop: bool, kind': ValueType, key': Option<UserKey>, value': Bytes, ghost m': nat)
    requires Sorted(run) && 0 < p && ScanningBack(run, s, p, top, m, kind, key, value)
    requires e == run[p - 1]
    ensures stop ==> kind.Value? && e.key.user < key.value && (kind', key', value', m') == (kind, key, value, m)
    ensures !stop ==> ScanningBack(run, s, p - 1, top, m', kind', key', value')
  {
    stop, kind', key', value', m' := false, kind, key, value, m;
    if e.key.sequence <= s {
      if !kind.Deletion? && e.key.user < key.value {
        return true, kind, key, value, m;
      }
      kind' := e.key.kind;
      if kind'.Deletion? {
        key', value' := None, [];
      } else {
        key', value' := Some(e.key.user), e.value;
      }
      m' := p - 1;
    }
    ScanBackStep(run, s, p, top, m, kind, key, value);
  }

  // ----- changes of direction and seeks -----

  /** Forward from the entry that is yielded: skip the rest of its key. */
  lemma OnFromYield(run: seq<Entry>, s: SequenceNumber, p: nat)
    requires Sorted(run) && Yields(run, s, p)
    ensures Scanning(run, s, After(run[p].key.user), p, Some(run[p].key.user))
  {
    forall j | p <= j < |run| ensures run[j].key.user >= run[p].key.user {
      UsersAscend(run, p, j);
    }
    forall j | 0 <= j < p ensures run[j].key.user <= run[p].key.user {
      UsersAscend(run, j, p);
    }
  }

  /**
   Forward after moving backwards: what lies between the internal iterator and the key is too new or the key itself.
   */
  lemma OnFromReverse(run: seq<Entry>, s: SequenceNumber, p: nat, u: UserKey)
    requires Cleared(run, s, Below(u), p)
    ensures Scanning(run, s, After(u), p, Some(u))
  {
  }

  lemma OnFromSeek(run: seq<Entry>, s: SequenceNumber, u: UserKey)
    requires Sorted(run)
    ensures Scanning(run, s, AtLeast(u), SeekIndex(run, SeekKey(u, s)), None)
  {
    var p := SeekIndex(run, SeekKey(u, s));
    forall j | p <= j < |run| ensures run[j].key.user >= u {
      UsersAscend(run, p, j);
    }
    forall j | 0 <= j < p && run[j].key.sequence <= s ensures run[j].key.user < u {
      if run[j].key.user == u { SeekKeyBound(u, s, run[j].key); }
    }
  }

  /** Backwards from the entry that is yielded: nothing of its key, or after it, lies in front. */
  lemma BackFromYield(run: seq<Entry>, s: SequenceNumber, q: nat, p: nat)
    requires Sorted(run) && q <= p < |run|
    requires forall j {:trigger run[j]} | q <= j <= p :: run[j].key.user == run[p].key.user
    requires q > 0 ==> run[q - 1].key.user < run[p].key.user
    ensures Cleared(run, s, Below(run[p].key.user), q)
  {
    forall j | p <= j < |run| ensures run[j].key.user >= run[p].key.user {
      UsersAscend(run, p, j);
    }
    forall j | 0 <= j < q ensures run[j].key.user < run[p].key.user {
      UsersAscend(run, j, q - 1);
    }
  }

  lemma NothingInFront(run: seq<Entry>, s: SequenceNumber, b: Bound)
    requires Cleared(run, s, b, 0)
    ensures IsLast(Visible(run, s), b, None)
  {
    forall u | u in Visible(run, s) ensures !Within(b, u) {
      var i := VisibleIsYielded(run, s, u);
    }
  }

  // ----- the iterator -----

  class DbIter {
    const iter: MergingIterator
    const sequence: SequenceNumber
    var savedKey: Option<UserKey>
    var savedValue: Bytes
    var direction: Direction
    var valid: bool

    /**
     Forward, the internal iterator is on the entry that is yielded.  In reverse it is before all entries of the saved
     key, possibly with entries in between that are too new to be seen.
     */
    ghost predicate Valid()
      reads this, iter
    {
      && iter.Valid()
      && (valid && direction.Forward? ==> iter.IsValid() && Yields(iter.union, sequence, iter.At().value))
      && (valid && direction.Reverse? ==>
            && savedKey.Some? && savedKey.value in Map() && Map()[savedKey.value] == savedValue
            && Cleared(iter.union, sequence, Below(savedKey.value), Behind(iter.At())))
    }

    /** The map this iterator moves over. */
    ghost function Map(): (r: map<UserKey, Bytes>)
      requires iter.Valid()
      reads this, iter
    {
      Visible(iter.union, sequence)
    }

    /** The key the cursor is on. */
    ghost function Current(): (r: Option<UserKey>)
      requires Valid()
      reads this, iter
    {
      if !valid then None
      else if direction.Forward? then Some(iter.union[iter.At().value].key.user)
      else savedKey
    }

    constructor (internal: MergingIterator, s: SequenceNumber)
      requires internal.Valid()
      ensures Valid() && iter == internal && sequence == s
      ensures Current() == None
    {
      iter, sequence := internal, s;
      savedKey, savedValue, direction, valid := None, [], Forward, false;
    }

    method Key() returns (k: UserKey)
      requires Valid() && valid
      ensures Some(k) == Current()
    {
      k := if direction.Forward? then iter.Current().key.user else savedKey.value;
    }

    /** The value of the key the cursor is on. */
    method Value() returns (v: Bytes)
      requires Valid() && valid
      ensures Current().Some? && Current().value in Map() && v == Map()[Current().value]
    {
      if direction.Forward? {
        YieldIsVisible(iter.union, sequence, iter.At().value);
        v := iter.Current().value;
      } else {
        v := savedValue;
      }
    }

    method FindNextUserEntry(skip: Option<UserKey>, ghost b: Bound)
      requires iter.Valid() && iter.IsValid() && direction.Forward?
      requires Scanning(iter.union, sequence, b, iter.At().value, skip)
      modifies this, iter
      ensures Valid() && IsFirst(Map(), b, Current())
    {
      var skipping := skip;
      ghost var p := iter.At().value;
      while iter.IsValid()
        invariant iter.Valid() && direction.Forward?
        invariant iter.At() == if p < |iter.union| then Some(p) else None
        invariant Scanning(iter.union, sequence, b, p, skipping)
        decreases |iter.union| - p
      {
        var e := iter.Current();
        var stop;
        stop, skipping := Consider(e, sequence, skipping, iter.union, p, b);
        if stop {
          savedKey, valid := None, true;
          return;
        }
        iter.Next();
        p := p + 1;
      }
      ScanEnds(iter.union, sequence, b, skipping);
      savedKey, valid := None, false;
    }

    method FindPrevUserEntry(ghost b: Bound)
      requires iter.Valid() && direction.Reverse? && (b.Unbounded? || b.Below?)
      requires Cleared(iter.union, sequence, b, Behind(iter.At()))
      modifies this, iter
      ensures Valid() && IsLast(Map(), b, Current())
    {
      ghost var top := Behind(iter.At());
      var kind;
      ghost var m;
      kind, m := ScanBack();
      if kind.Deletion? {
        ScanBackEnds(iter.union, sequence, b, top, m, savedKey, savedValue);
        valid, savedKey, savedValue, direction := false, None, [], Forward;
      } else {
        ScanBackStops(iter.union, sequence, b, Behind(iter.At()), top, m, savedKey, savedValue);
        valid := true;
      }
    }

    /** The loop of FindPrevUserEntry. */
    method ScanBack() returns (kind: ValueType, ghost m: nat)
      requires iter.Valid()
      modifies this, iter
      ensures iter.Valid() && direction == old(direction)
      ensures ScanningBack(iter.union, sequence, Behind(iter.At()), old(Behind(iter.At())), m, kind, savedKey,
        savedValue)
      ensures iter.At().Some? ==> kind.Value? && iter.union[iter.At().value].key.user < savedKey.value
    {
      kind := Deletion;
      ghost var top := Behind(iter.At());
      m := top;
      while iter.IsValid()
        invariant iter.Valid() && direction == old(direction)
        invariant ScanningBack(iter.union, sequence, Behind(iter.At()), top, m, kind, savedKey, savedValue)
        decreases Behind(iter.At())
      {
        var stop;
        stop, kind, savedKey, savedValue, m :=
          ConsiderBack(iter.Current(), sequence, kind, savedKey, savedValue, iter.union, Behind(iter.At()), top, m);
        if stop {
          return;
        }
        iter.Prev();
      }
    }

    method Seek(target: UserKey)
      requires Valid()
      modifies this, iter
      ensures Valid() && IsFirst(Map(), AtLeast(target), Current())
    {
      direction, savedKey, savedValue := Forward, None, [];
      iter.Seek(SeekKey(target, sequence));
      OnFromSeek(iter.union, sequence, target);
      if iter.IsValid() {
        FindNextUserEntry(None, AtLeast(target));
      } else {
        ScanEnds(iter.union, sequence, AtLeast(target), None);
        valid := false;
      }
    }

    method SeekToFirst()
      requires Valid()
      modifies this, iter
      ensures Valid() && IsFirst(Map(), Unbounded, Current())
    {
      direction, savedValue := Forward, [];
      iter.SeekToFirst();
      if iter.IsValid() {
        FindNextUserEntry(None, Unbounded);
      } else {
        ScanEnds(iter.union, sequence, Unbounded, None);
        valid := false;
      }
    }

    method SeekToLast()
      requires Valid()
      modifies this, iter
      ensures Valid() && IsLast(Map(), Unbounded, Current())
    {
      direction, savedValue := Reverse, [];
      iter.SeekToLast();
      FindPrevUserEntry(Unbounded);
    }

    method Next()
      requires Valid() && valid
      modifies this, iter
      ensures Valid() && IsFirst(Map(), After(old(Current()).value), Current())
    {
      ghost var u := Current().value;
      if direction.Reverse? {
        direction := Forward;
        OnFromReverse(iter.union, sequence, Behind(iter.At()), u);
        if !iter.IsValid() {
          iter.SeekToFirst();
        } else {
          iter.Next();
        }
        if !iter.IsValid() {
          ScanEnds(iter.union, sequence, After(u), Some(u));
          valid, savedKey := false, None;
          return;
        }
      } else {
        OnFromYield(iter.union, sequence, iter.At().value);
        savedKey := Some(iter.Current().key.user);
      }
      FindNextUserEntry(savedKey, After(u));
    }

    method Prev()
      requires Valid() && valid
      modifies this, iter
      ensures Valid() && IsLast(Map(), Below(old(Current()).value), Current())
    {
      ghost var u := Current().value;
      if direction.Forward? {
        var found := ScanBackPastKey();
        if !found {
          NothingInFront(iter.union, sequence, Below(u));
          valid, savedKey, savedValue := false, None, [];
          return;
        }
        direction := Reverse;
      }
      FindPrevUserEntry(Below(u));
    }

    /** Moves the internal iterator back until the key changes. */
    method ScanBackPastKey() returns (found: bool)
      requires Valid() && valid && direction.Forward?
      modifies this, iter
      ensures iter.Valid() && direction == old(direction) && found == iter.IsValid()
      ensures Cleared(iter.union, sequence, Below(old(Current()).value), Behind(iter.At()))
    {
      ghost var p := iter.At().value;
      var key := iter.Current().key.user;
      savedKey := Some(key);
      while true
        invariant iter.Valid() && iter.IsValid() && direction.Forward?
        invariant iter.At().value <= p
        invariant forall j {:trigger iter.union[j]} | iter.At().value <= j <= p :: iter.union[j].key.user == key
        decreases iter.At().value
      {
        iter.Prev();
        if !iter.IsValid() {
          BackFromYield(iter.union, sequence, 0, p);
          return false;
        }
        if iter.Current().key.user < key {
          break;
        }
        UsersAscend(iter.union, iter.At().value, p);
      }
      BackFromYield(iter.union, sequence, iter.At().value + 1, p);
      found := true;
    }
  }
}
