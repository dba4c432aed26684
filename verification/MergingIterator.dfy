/**
 MergingIterator (table/merger.cc).  Over children that are cursors on sorted runs without a common key it is a
 cursor on the sorted union of the runs, under any mix of seeks and moves in both directions.
 */
module MergingIterators {
  import opened InternalKeys
  import opened Cursors

  /** An IteratorWrapper: a run and where its iterator stands. */
  datatype Child = Child(run: seq<Entry>, at: Position) {
    predicate Valid() {
      at.Some?
    }

    function Key(): (r: InternalKey)
      requires at.Some? && at.value < |run|
    {
      run[at.value].key
    }
  }

  datatype Direction = Forward | Reverse

  // ----- the union of the runs -----

  /** The child is a cursor on a sorted part of the union. */
  ghost predicate PartOf(c: Child, union: seq<Entry>) {
    Sorted(c.run) && InRun(c.run, c.at) && forall e | e in c.run :: e in union
  }

  ghost predicate HeldBy(children: seq<Child>, i: nat, e: Entry) {
    i < |children| && e in children[i].run
  }

  ghost predicate HasHolder(children: seq<Child>, e: Entry) {
    exists i: nat :: HeldBy(children, i, e)
  }

  ghost predicate Merged(children: seq<Child>, union: seq<Entry>) {
    && Sorted(union)
    && (forall i | 0 <= i < |children| :: PartOf(children[i], union))
    && (forall m {:trigger HasHolder(children, union[m])} | 0 <= m < |union| :: HasHolder(children, union[m]))
  }

  /** No key occurs in two runs: sequence numbers are never given out twice. */
  ghost predicate NoSharedKeys(children: seq<Child>) {
    forall i, j, x, y {:trigger HeldBy(children, i, x), HeldBy(children, j, y)}
      | HeldBy(children, i, x) && HeldBy(children, j, y) && i != j :: x.key != y.key
  }

  /** The place of a key in the union. */
  ghost function Rank(union: seq<Entry>, e: Entry): (r: nat) {
    SeekIndex(union, e.key)
  }

  lemma RankOf(union: seq<Entry>, e: Entry)
    requires Sorted(union) && e in union
    ensures Rank(union, e) < |union| && union[Rank(union, e)] == e
  {
    var i :| 0 <= i < |union| && union[i] == e;
    SeekFinds(union, i);
  }

  lemma RankIsOrder(union: seq<Entry>, a: Entry, b: Entry)
    requires Sorted(union) && a in union && b in union
    ensures Less(a.key, b.key) <==> Rank(union, a) < Rank(union, b)
  {
    RankOf(union, a);
    RankOf(union, b);
    LessIsTotal(a.key, b.key, a.key);
  }

  /** The child stands at its first entry of rank `m` or more. */
  ghost predicate From(c: Child, union: seq<Entry>, m: nat) {
    && (forall j {:trigger c.run[j]} | 0 <= j < |c.run| && (c.at.Some? ==> j < c.at.value) :: Rank(union, c.run[j]) < m)
    && (c.at.Some? ==> c.at.value < |c.run| && Rank(union, c.run[c.at.value]) >= m)
  }

  /** The child stands at its last entry of rank less than `m`. */
  ghost predicate Before(c: Child, union: seq<Entry>, m: nat) {
    && (forall j {:trigger c.run[j]} | 0 <= j < |c.run| && (c.at.Some? ==> j > c.at.value) ::
      Rank(union, c.run[j]) >= m)
    && (c.at.Some? ==> c.at.value < |c.run| && Rank(union, c.run[c.at.value]) < m)
  }

  lemma RanksAscend(run: seq<Entry>, union: seq<Entry>, i: nat, j: nat)
    requires Sorted(run) && Sorted(union) && (forall e | e in run :: e in union)
    requires i <= j < |run|
    ensures Rank(union, run[i]) <= Rank(union, run[j])
    ensures i < j ==> Rank(union, run[i]) < Rank(union, run[j])
  {
    assert run[i] in union && run[j] in union;
    RankIsOrder(union, run[i], run[j]);
  }

  /** An entry comes before the target exactly if its place is before where the target would be sought. */
  lemma BeforeTarget(union: seq<Entry>, e: Entry, target: InternalKey)
    requires Sorted(union) && e in union
    ensures Less(e.key, target) <==> Rank(union, e) < SeekIndex(union, target)
  {
    RankOf(union, e);
    var i, m := Rank(union, e), SeekIndex(union, target);
    if i > m { LessIsTotal(union[m].key, union[i].key, target); }
  }

  /** Where Seek leaves a child. */
  lemma SeekIsFrom(c: Child, union: seq<Entry>, target: InternalKey)
    requires Sorted(c.run) && Sorted(union) && (forall e | e in c.run :: e in union)
    ensures From(c.(at := ToSeek(c.run, target)), union, SeekIndex(union, target))
  {
    hide Rank;
    hide Less;
    hide Sorted;
    forall j | 0 <= j < |c.run|
      ensures Less(c.run[j].key, target) <==> Rank(union, c.run[j]) < SeekIndex(union, target)
    {
      assert c.run[j] in c.run;
      BeforeTarget(union, c.run[j], target);
    }
  }

  /** Stepping back from there leaves it at the last entry before. */
  lemma StepBackIsBefore(c: Child, union: seq<Entry>, m: nat)
    requires Sorted(c.run) && Sorted(union) && (forall e | e in c.run :: e in union)
    requires From(c, union, m)
    ensures Before(c.(at := if c.at.Some? then ToPrev(c.at.value) else ToLast(c.run)), union, m)
  {
    if c.at.Some? {
      forall j | c.at.value <= j < |c.run| ensures Rank(union, c.run[j]) >= m {
        RanksAscend(c.run, union, c.at.value, j);
      }
    }
  }

  /** A child that stands on the entry of rank `m` moves past it. */
  lemma NextIsFrom(c: Child, union: seq<Entry>, m: nat)
    requires Sorted(c.run) && Sorted(union) && (forall e | e in c.run :: e in union)
    requires c.at.Some? && c.at.value < |c.run| && Rank(union, c.run[c.at.value]) == m
    ensures From(c.(at := ToNext(c.run, c.at.value)), union, m + 1)
  {
    forall j | 0 <= j < |c.run| ensures j <= c.at.value <==> Rank(union, c.run[j]) <= m {
      if j <= c.at.value {
        RanksAscend(c.run, union, j, c.at.value);
      } else {
        RanksAscend(c.run, union, c.at.value, j);
      }
    }
  }

  lemma PrevIsBefore(c: Child, union: seq<Entry>, m: nat)
    requires Sorted(c.run) && Sorted(union) && (forall e | e in c.run :: e in union)
    requires c.at.Some? && c.at.value < |c.run| && Rank(union, c.run[c.at.value]) == m
    ensures Before(c.(at := ToPrev(c.at.value)), union, m)
  {
    forall j | 0 <= j < |c.run| ensures j < c.at.value <==> Rank(union, c.run[j]) < m {
      if j < c.at.value {
        RanksAscend(c.run, union, j, c.at.value);
      } else {
        RanksAscend(c.run, union, c.at.value, j);
      }
    }
  }

  /** A child without the entry of rank `m` skips nothing when the bound moves past it. */
  lemma OthersKeepPlace(c: Child, union: seq<Entry>, m: nat)
    requires Sorted(union) && (forall e | e in c.run :: e in union)
    requires m < |union| && union[m] !in c.run
    ensures From(c, union, m) ==> From(c, union, m + 1)
    ensures Before(c, union, m + 1) ==> Before(c, union, m)
  {
    forall j | 0 <= j < |c.run| ensures Rank(union, c.run[j]) != m {
      RankOf(union, c.run[j]);
    }
  }

  ghost predicate NoLater(c: Child, d: Child) {
    && c.at.Some? && c.at.value < |c.run| && d.at.Some? && d.at.value < |d.run|
    && AtMost(c.Key(), d.Key())
  }

  /** `r` is what a scan for the smallest key returns. */
  ghost predicate IsSmallest(children: seq<Child>, r: Option<nat>) {
    && (r.None? ==> forall i | 0 <= i < |children| :: !children[i].Valid())
    && (r.Some? ==> r.value < |children| && children[r.value].Valid())
    && (r.Some? ==> forall i | 0 <= i < |children| && children[i].Valid() :: NoLater(children[r.value], children[i]))
  }

  ghost predicate IsLargest(children: seq<Child>, r: Option<nat>) {
    && (r.None? ==> forall i | 0 <= i < |children| :: !children[i].Valid())
    && (r.Some? ==> r.value < |children| && children[r.value].Valid())
    && (r.Some? ==> forall i | 0 <= i < |children| && children[i].Valid() :: NoLater(children[i], children[r.value]))
  }

  ghost predicate AllFrom(children: seq<Child>, union: seq<Entry>, m: nat) {
    forall i | 0 <= i < |children| :: From(children[i], union, m)
  }

  ghost predicate AllBefore(children: seq<Child>, union: seq<Entry>, m: nat) {
    forall i | 0 <= i < |children| :: Before(children[i], union, m)
  }

  ghost predicate Standing(c: Child) {
    c.at.Some? && c.at.value < |c.run|
  }

  /** The union position of the current child. */
  ghost function PositionOf(children: seq<Child>, union: seq<Entry>, current: Option<nat>): (r: Position)
    requires current.Some? ==> current.value < |children| && Standing(children[current.value])
  {
    if current.None? then None else
      var c := children[current.value];
      Some(Rank(union, c.run[c.at.value]))
  }

  /** The child whose run has the union's entry `m`, and where. */
  lemma HolderOf(children: seq<Child>, union: seq<Entry>, m: nat) returns (i: nat, j: nat)
    requires Merged(children, union) && m < |union|
    ensures i < |children| && j < |children[i].run| && children[i].run[j] == union[m]
    ensures Rank(union, union[m]) == m
  {
    assert HasHolder(children, union[m]);
    i :| HeldBy(children, i, union[m]);
    j :| 0 <= j < |children[i].run| && children[i].run[j] == union[m];
    SeekFinds(union, m);
  }

  lemma PositionInUnion(children: seq<Child>, union: seq<Entry>, current: Option<nat>)
    requires Merged(children, union)
    requires current.Some? ==> current.value < |children| && Standing(children[current.value])
    ensures InRun(union, PositionOf(children, union, current))
  {
    if current.Some? {
      var c := children[current.value];
      assert PartOf(c, union);
      RankOf(union, c.run[c.at.value]);
    }
  }

  lemma SmallestIsNext(children: seq<Child>, union: seq<Entry>, m: nat, r: Option<nat>)
    requires Merged(children, union) && AllFrom(children, union, m) && IsSmallest(children, r)
    ensures PositionOf(children, union, r) == if m < |union| then Some(m) else None
  {
    if m < |union| {
      var i, j := HolderOf(children, union, m);
      var c := children[i];
      assert From(c, union, m) && c.at.Some? && c.at.value <= j;
      assert NoLater(children[r.value], c);
      StandingOrder(children, union, children[r.value], c, j);
    } else if r.Some? {
      var d := children[r.value];
      assert PartOf(d, union) && From(d, union, m);
      RankOf(union, d.run[d.at.value]);
    }
  }

  lemma StandingOrder(children: seq<Child>, union: seq<Entry>, d: Child, c: Child, j: nat)
    requires Merged(children, union) && d in children && c in children
    requires Standing(c) && c.at.value <= j < |c.run|
    requires NoLater(d, c)
    ensures Rank(union, d.run[d.at.value]) <= Rank(union, c.run[j])
  {
    assert PartOf(d, union) && PartOf(c, union);
    assert d.run[d.at.value] in union && c.run[c.at.value] in union;
    RankIsOrder(union, c.run[c.at.value], d.run[d.at.value]);
    RanksAscend(c.run, union, c.at.value, j);
  }

  lemma LargestIsPrevious(children: seq<Child>, union: seq<Entry>, m: nat, r: Option<nat>)
    requires Merged(children, union) && m <= |union| && AllBefore(children, union, m)
    requires IsLargest(children, r)
    ensures PositionOf(children, union, r) == ToPrev(m)
  {
    if m > 0 {
      var i, j := HolderOf(children, union, m - 1);
      var c := children[i];
      assert Before(c, union, m) && c.at.Some? && j <= c.at.value;
      assert NoLater(c, children[r.value]);
      StandingOrderBack(children, union, c, children[r.value], j);
      assert Before(children[r.value], union, m);
    } else if r.Some? {
      assert Before(children[r.value], union, m);
    }
  }

  lemma StandingOrderBack(children: seq<Child>, union: seq<Entry>, c: Child, d: Child, j: nat)
    requires Merged(children, union) && d in children && c in children
    requires Standing(c) && j <= c.at.value
    requires NoLater(c, d)
    ensures Rank(union, c.run[j]) <= Rank(union, d.run[d.at.value])
  {
    assert PartOf(d, union) && PartOf(c, union);
    assert d.run[d.at.value] in union && c.run[c.at.value] in union;
    RankIsOrder(union, d.run[d.at.value], c.run[c.at.value]);
    RanksAscend(c.run, union, j, c.at.value);
  }

  // ----- moving the children -----

  ghost predicate SameRuns(a: seq<Child>, b: seq<Child>) {
    |a| == |b| && forall i | 0 <= i < |a| :: b[i].run == a[i].run && InRun(b[i].run, b[i].at)
  }

  lemma MovedIsMerged(a: seq<Child>, b: seq<Child>, union: seq<Entry>)
    requires Merged(a, union) && NoSharedKeys(a) && SameRuns(a, b)
    ensures Merged(b, union) && NoSharedKeys(b)
  {
    forall i | 0 <= i < |b| ensures PartOf(b[i], union) {
      assert PartOf(a[i], union);
    }
    forall m | 0 <= m < |union| ensures HasHolder(b, union[m]) {
      var i, j := HolderOf(a, union, m);
      assert HeldBy(b, i, union[m]);
    }
    forall i: nat, j: nat, x, y | HeldBy(b, i, x) && HeldBy(b, j, y) && i != j ensures x.key != y.key {
      assert HeldBy(a, i, x) && HeldBy(a, j, y);
    }
  }

  /** Seek(key), and Next if that lands on an equal key. */
  function SeekPast(c: Child, key: InternalKey): (r: Child) {
    var at := ToSeek(c.run, key);
    c.(at := if at.Some? && c.run[at.value].key == key then ToNext(c.run, at.value) else at)
  }

  /** Seek(key), then one step back, or to the last entry if the seek ran off the end. */
  function SeekBack(c: Child, key: InternalKey): (r: Child) {
    var at := ToSeek(c.run, key);
    c.(at := if at.Some? then ToPrev(at.value) else ToLast(c.run))
  }

  /** Every child but the current one is put past the current key. */
  lemma TurnedForward(children: seq<Child>, moved: seq<Child>, union: seq<Entry>, current: nat)
    requires Merged(children, union) && NoSharedKeys(children) && current < |children|
    requires Standing(children[current])
    requires |moved| == |children| && moved[current] == children[current]
    requires forall i | 0 <= i < |children| && i != current ::
      moved[i] == SeekPast(children[i], children[current].Key())
    ensures SameRuns(children, moved)
    ensures AllFrom(moved, union, Rank(union, children[current].run[children[current].at.value]))
  {
    var cur := children[current];
    var e := cur.run[cur.at.value];
    assert PartOf(cur, union) && HeldBy(children, current, e);
    forall i | 0 <= i < |children|
      ensures From(moved[i], union, Rank(union, e)) && InRun(moved[i].run, moved[i].at)
        && moved[i].run == children[i].run
    {
      var c := children[i];
      assert PartOf(c, union);
      if i == current {
        StandsFrom(cur, union);
      } else {
        SeekIsFrom(c, union, e.key);
        forall x | x in c.run ensures x.key != e.key {
          assert HeldBy(children, i, x);
        }
      }
    }
  }

  lemma StandsFrom(c: Child, union: seq<Entry>)
    requires Sorted(union) && PartOf(c, union) && Standing(c)
    ensures From(c, union, Rank(union, c.run[c.at.value]))
    ensures Before(c, union, Rank(union, c.run[c.at.value]) + 1)
  {
    forall j | 0 <= j < |c.run| ensures j < c.at.value <==> Rank(union, c.run[j]) < Rank(union, c.run[c.at.value]) {
      RanksAscend(c.run, union, if j < c.at.value then j else c.at.value, if j < c.at.value then c.at.value else j);
    }
    forall j | 0 <= j < |c.run| ensures j <= c.at.value <==> Rank(union, c.run[j]) <= Rank(union, c.run[c.at.value]) {
      RanksAscend(c.run, union, if j < c.at.value then j else c.at.value, if j < c.at.value then c.at.value else j);
    }
  }

  /** Every child but the current one is put before the current key. */
  lemma TurnedReverse(children: seq<Child>, moved: seq<Child>, union: seq<Entry>, current: nat)
    requires Merged(children, union) && NoSharedKeys(children) && current < |children|
    requires Standing(children[current])
    requires |moved| == |children| && moved[current] == children[current]
    requires forall i | 0 <= i < |children| && i != current ::
      moved[i] == SeekBack(children[i], children[current].Key())
    ensures SameRuns(children, moved)
    ensures AllBefore(moved, union, Rank(union, children[current].run[children[current].at.value]) + 1)
  {
    var cur := children[current];
    var e := cur.run[cur.at.value];
    var m := Rank(union, e);
    assert PartOf(cur, union) && HeldBy(children, current, e);
    RankOf(union, e);
    forall i | 0 <= i < |children|
      ensures Before(moved[i], union, m + 1) && InRun(moved[i].run, moved[i].at) && moved[i].run == children[i].run
    {
      var c := children[i];
      assert PartOf(c, union);
      if i == current {
        StandsFrom(cur, union);
      } else {
        NotShared(children, current, i, e);
        SeekIsFrom(c, union, e.key);
        OthersKeepPlace(c.(at := ToSeek(c.run, e.key)), union, m);
        StepBackIsBefore(c.(at := ToSeek(c.run, e.key)), union, m + 1);
      }
    }
  }

  lemma NotShared(children: seq<Child>, i: nat, j: nat, e: Entry)
    requires NoSharedKeys(children) && i != j && HeldBy(children, i, e)
    requires j < |children|
    ensures e !in children[j].run
  {
    if e in children[j].run { assert HeldBy(children, j, e); }
  }

  /** The current child steps over its entry: all children stand at the first entry after it. */
  lemma SteppedForward(children: seq<Child>, union: seq<Entry>, current: nat)
    requires Merged(children, union) && NoSharedKeys(children) && current < |children|
    requires Standing(children[current])
    requires AllFrom(children, union, PositionOf(children, union, Some(current)).value)
    ensures var c := children[current];
      var moved := children[current := c.(at := ToNext(c.run, c.at.value))];
      SameRuns(children, moved) && AllFrom(moved, union, PositionOf(children, union, Some(current)).value + 1)
  {
    var cur := children[current];
    var moved := children[current := cur.(at := ToNext(cur.run, cur.at.value))];
    var e := cur.run[cur.at.value];
    var m := Rank(union, e);
    assert PartOf(cur, union) && HeldBy(children, current, e);
    RankOf(union, e);
    forall i | 0 <= i < |children|
      ensures From(moved[i], union, m + 1) && InRun(moved[i].run, moved[i].at) && moved[i].run == children[i].run
    {
      assert PartOf(children[i], union) && From(children[i], union, m);
      if i == current {
        NextIsFrom(cur, union, m);
      } else {
        NotShared(children, current, i, e);
        OthersKeepPlace(children[i], union, m);
      }
    }
  }

  lemma SteppedBack(children: seq<Child>, union: seq<Entry>, current: nat)
    requires Merged(children, union) && NoSharedKeys(children) && current < |children|
    requires Standing(children[current])
    requires AllBefore(children, union, PositionOf(children, union, Some(current)).value + 1)
    ensures var c := children[current];
      var moved := children[current := c.(at := ToPrev(c.at.value))];
      SameRuns(children, moved) && AllBefore(moved, union, PositionOf(children, union, Some(current)).value)
  {
    var cur := children[current];
    var moved := children[current := cur.(at := ToPrev(cur.at.value))];
    var e := cur.run[cur.at.value];
    var m := Rank(union, e);
    assert PartOf(cur, union) && HeldBy(children, current, e);
    RankOf(union, e);
    forall i | 0 <= i < |children|
      ensures Before(moved[i], union, m) && InRun(moved[i].run, moved[i].at) && moved[i].run == children[i].run
    {
      assert PartOf(children[i], union) && Before(children[i], union, m + 1);
      if i == current {
        PrevIsBefore(cur, union, m);
      } else {
        NotShared(children, current, i, e);
        OthersKeepPlace(children[i], union, m);
      }
    }
  }

  /** All children placed by the same seek. */
  lemma SoughtAll(children: seq<Child>, moved: seq<Child>, union: seq<Entry>, target: InternalKey)
    requires Merged(children, union) && |moved| == |children|
    requires forall i | 0 <= i < |children| :: moved[i] == children[i].(at := ToSeek(children[i].run, target))
    ensures SameRuns(children, moved) && AllFrom(moved, union, SeekIndex(union, target))
  {
    forall i | 0 <= i < |children| ensures From(moved[i], union, SeekIndex(union, target)) {
      assert PartOf(children[i], union);
      SeekIsFrom(children[i], union, target);
    }
  }

  lemma EndsReached(children: seq<Child>, moved: seq<Child>, union: seq<Entry>)
    requires Merged(children, union) && |moved| == |children|
    ensures (forall i | 0 <= i < |children| :: moved[i] == children[i].(at := ToFirst(children[i].run)))
      ==> SameRuns(children, moved) && AllFrom(moved, union, 0)
    ensures (forall i | 0 <= i < |children| :: moved[i] == children[i].(at := ToLast(children[i].run)))
      ==> SameRuns(children, moved) && AllBefore(moved, union, |union|)
  {
    forall i, j | 0 <= i < |children| && 0 <= j < |children[i].run| ensures Rank(union, children[i].run[j]) < |union| {
      assert PartOf(children[i], union);
      RankOf(union, children[i].run[j]);
    }
  }

  /** Iterators that have not been positioned yet. */
  function Unplaced(runs: seq<seq<Entry>>): (r: seq<Child>) {
    seq(|runs|, i requires 0 <= i < |runs| => Child(runs[i], None))
  }

  // ----- the union exists, and there is only one -----

  ghost predicate SortedRuns(runs: seq<seq<Entry>>) {
    forall i {:trigger runs[i]} | 0 <= i < |runs| :: Sorted(runs[i])
  }

  /** The entries of a run go into their places in a sorted run without their keys. */
  lemma {:induction false} RunFitsIn(run: seq<Entry>, others: seq<Entry>) returns (union: seq<Entry>)
    requires Sorted(run) && Sorted(others)
    requires forall x, y | x in run && y in others :: x.key != y.key
    ensures Sorted(union) && forall e :: e in union <==> e in run || e in others
  {
    if run == [] {
      union := others;
    } else {
      var e := run[0];
      var rest := RunFitsIn(run[1..], others);
      assert forall x | x in run[1..] :: Less(e.key, x.key);
      LessIsTotal(e.key, e.key, e.key);
      union := InsertSorted(rest, e);
    }
  }

  lemma {:induction false} UnionExists(runs: seq<seq<Entry>>)
    requires SortedRuns(runs) && NoSharedKeys(Unplaced(runs))
    ensures exists union :: Merged(Unplaced(runs), union)
  {
    if runs == [] {
      assert Merged(Unplaced(runs), []);
    } else {
      var n := |runs| - 1;
      var front, children := Unplaced(runs[..n]), Unplaced(runs);
      forall i: nat, e ensures HeldBy(front, i, e) <==> i < n && HeldBy(children, i, e) {}
      UnionExists(runs[..n]);
      var others: seq<Entry> :| Merged(front, others);
      forall x, y | x in runs[n] && y in others ensures x.key != y.key {
        var m :| 0 <= m < |others| && others[m] == y;
        var i, j := HolderOf(front, others, m);
        assert HeldBy(front, i, y) && HeldBy(children, i, y) && HeldBy(children, n, x);
      }
      var union := RunFitsIn(runs[n], others);
      UnionGrows(runs, others, union);
    }
  }

  lemma UnionGrows(runs: seq<seq<Entry>>, others: seq<Entry>, union: seq<Entry>)
    requires SortedRuns(runs) && runs != [] && Merged(Unplaced(runs[..|runs| - 1]), others)
    requires Sorted(union) && forall e :: e in union <==> e in runs[|runs| - 1] || e in others
    ensures Merged(Unplaced(runs), union)
  {
    var n := |runs| - 1;
    var front, children := Unplaced(runs[..n]), Unplaced(runs);
    forall i | 0 <= i <= n ensures PartOf(children[i], union) {
      if i < n { assert PartOf(front[i], others); }
    }
    forall m | 0 <= m < |union| ensures HasHolder(children, union[m]) {
      assert union[m] in union;
      if union[m] in others {
        var k :| 0 <= k < |others| && others[k] == union[m];
        var i, j := HolderOf(front, others, k);
        assert HeldBy(children, i, union[m]);
      } else {
        assert HeldBy(children, n, union[m]);
      }
    }
  }

  /** The union holds exactly what the runs hold. */
  lemma InUnion(children: seq<Child>, union: seq<Entry>, e: Entry)
    requires Merged(children, union)
    ensures e in union <==> HasHolder(children, e)
  {
    if e in union {
      var m :| 0 <= m < |union| && union[m] == e;
      assert HasHolder(children, union[m]);
    }
    if HasHolder(children, e) {
      var i: nat :| HeldBy(children, i, e);
      assert PartOf(children[i], union);
    }
  }

  lemma {:induction false} UnionIsUnique(children: seq<Child>, a: seq<Entry>, b: seq<Entry>)
    requires Merged(children, a) && Merged(children, b)
    ensures a == b
  {
    forall e ensures e in a <==> e in b {
      InUnion(children, a, e);
      InUnion(children, b, e);
    }
    SortedAlike(a, b);
  }

  lemma {:induction false} SortedAlike(a: seq<Entry>, b: seq<Entry>)
    requires Sorted(a) && Sorted(b) && forall e :: e in a <==> e in b
    ensures a == b
  {
    assert (a != [] ==> a[0] in b) && (b != [] ==> b[0] in a);
    if a != [] {
      assert a[0] == b[0] by { LessIsTotal(a[0].key, b[0].key, a[0].key); }
      forall e ensures e in a[1..] <==> e in b[1..] {
        LessIsTotal(a[0].key, a[0].key, a[0].key);
        assert e in a <==> e == a[0] || e in a[1..];
        assert e in b <==> e == b[0] || e in b[1..];
      }
      SortedAlike(a[1..], b[1..]);
    }
  }

  class MergingIterator {
    var children: seq<Child>
    var current: Option<nat>
    var direction: Direction
    /** The sorted union, for the specification only. */
    ghost const union: seq<Entry>

    ghost predicate Shape()
      reads this
    {
      && Merged(children, union) && NoSharedKeys(children)
      && (current.Some? ==> current.value < |children| && Standing(children[current.value]))
    }

    /** While valid, the children that are not current stand just past, or in reverse just before, the current entry. */
    ghost predicate Valid()
      reads this
    {
      && Shape()
      && var p := At();
         p.Some? ==> if direction.Forward? then AllFrom(children, union, p.value)
           else AllBefore(children, union, p.value + 1)
    }

    /** Where the merged cursor stands in the union. */
    ghost function At(): (p: Position)
      requires Shape()
      reads this
      ensures p.Some? <==> IsValid()
      ensures InRun(union, p)
    {
      PositionInUnion(children, union, current);
      PositionOf(children, union, current)
    }

    constructor (runs: seq<seq<Entry>>)
      requires SortedRuns(runs) && NoSharedKeys(Unplaced(runs))
      ensures Valid() && Merged(Unplaced(runs), union) && At() == None
    {
      UnionExists(runs);
      ghost var all :| Merged(Unplaced(runs), all);
      children := Unplaced(runs);
      current, direction, union := None, Forward, all;
    }

    predicate IsValid()
      reads this
    {
      current.Some?
    }

    function Current(): (e: Entry)
      requires Valid() && IsValid()
      reads this
      ensures At().Some? && At().value < |union| && e == union[At().value]
    {
      var c := children[current.value];
      assert PartOf(c, union) && c.run[c.at.value] in union;
      RankOf(union, c.run[c.at.value]);
      c.run[c.at.value]
    }

    method FindSmallest() returns (smallest: Option<nat>)
      requires forall i | 0 <= i < |children| :: InRun(children[i].run, children[i].at)
      ensures IsSmallest(children, smallest)
    {
      smallest := None;
      for i := 0 to |children|
        invariant smallest.None? ==> forall j | 0 <= j < i :: !children[j].Valid()
        invariant smallest.Some? ==> smallest.value < i && children[smallest.value].Valid()
        invariant smallest.Some? ==> forall j | 0 <= j < i && children[j].Valid() ::
          AtMost(children[smallest.value].Key(), children[j].Key())
      {
        if children[i].Valid() {
          if smallest.None? {
            smallest := Some(i);
          } else if Less(children[i].Key(), children[smallest.value].Key()) {
            smallest := Some(i);
          }
        }
      }
    }

    method FindLargest() returns (largest: Option<nat>)
      requires forall i | 0 <= i < |children| :: InRun(children[i].run, children[i].at)
      ensures IsLargest(children, largest)
    {
      largest := None;
      for i := |children| downto 0
        invariant largest.None? ==> forall j | i <= j < |children| :: !children[j].Valid()
        invariant largest.Some? ==> i <= largest.value < |children| && children[largest.value].Valid()
        invariant largest.Some? ==> forall j | i <= j < |children| && children[j].Valid() ::
          AtMost(children[j].Key(), children[largest.value].Key())
      {
        if children[i].Valid() {
          if largest.None? {
            largest := Some(i);
          } else if Less(children[largest.value].Key(), children[i].Key()) {
            largest := Some(i);
          }
        }
      }
    }

    method Seek(target: InternalKey)
      requires Valid()
      modifies this
      ensures Valid() && At() == ToSeek(union, target)
    {
      ghost var was := children;
      for i := 0 to |children|
        invariant |children| == |was|
        invariant forall j | 0 <= j < i :: children[j] == was[j].(at := ToSeek(was[j].run, target))
        invariant forall j | i <= j < |was| :: children[j] == was[j]
      {
        children := children[i := children[i].(at := ToSeek(children[i].run, target))];
      }
      SoughtAll(was, children, union, target);
      SettleForward(was, SeekIndex(union, target));
    }

    method SeekToFirst()
      requires Valid()
      modifies this
      ensures Valid() && At() == ToFirst(union)
    {
      ghost var was := children;
      for i := 0 to |children|
        invariant |children| == |was|
        invariant forall j | 0 <= j < i :: children[j] == was[j].(at := ToFirst(was[j].run))
        invariant forall j | i <= j < |was| :: children[j] == was[j]
      {
        children := children[i := children[i].(at := ToFirst(children[i].run))];
      }
      EndsReached(was, children, union);
      SettleForward(was, 0);
    }

    method SeekToLast()
      requires Valid()
      modifies this
      ensures Valid() && At() == ToLast(union)
    {
      ghost var was := children;
      for i := 0 to |children|
        invariant |children| == |was|
        invariant forall j | 0 <= j < i :: children[j] == was[j].(at := ToLast(was[j].run))
        invariant forall j | i <= j < |was| :: children[j] == was[j]
      {
        children := children[i := children[i].(at := ToLast(children[i].run))];
      }
      EndsReached(was, children, union);
      SettleReverse(was, |union|);
    }

    /** The end of every forward move: the smallest child becomes current. */
    method SettleForward(ghost was: seq<Child>, ghost m: nat)
      requires Merged(was, union) && NoSharedKeys(was) && SameRuns(was, children)
      requires AllFrom(children, union, m)
      modifies this
      ensures Valid() && At() == if m < |union| then Some(m) else None
    {
      MovedIsMerged(was, children, union);
      assert forall i | 0 <= i < |children| :: PartOf(children[i], union);
      current := FindSmallest();
      direction := Forward;
      SmallestIsNext(children, union, m, current);
    }

    method SettleReverse(ghost was: seq<Child>, ghost m: nat)
      requires Merged(was, union) && NoSharedKeys(was) && SameRuns(was, children)
      requires m <= |union| && AllBefore(children, union, m)
      modifies this
      ensures Valid() && At() == ToPrev(m)
    {
      MovedIsMerged(was, children, union);
      assert forall i | 0 <= i < |children| :: PartOf(children[i], union);
      current := FindLargest();
      direction := Reverse;
      LargestIsPrevious(children, union, m, current);
    }

    method Next()
      requires Valid() && IsValid()
      modifies this
      ensures Valid() && At() == ToNext(union, old(At()).value)
    {
      ghost var m := At().value;
      if !direction.Forward? {
        TurnForward();
      }
      SteppedForward(children, union, current.value);
      ghost var was := children;
      var c := children[current.value];
      children := children[current.value := c.(at := ToNext(c.run, c.at.value))];
      SettleForward(was, m + 1);
    }

    method TurnForward()
      requires Valid() && IsValid()
      modifies this
      ensures Valid() && direction == Forward && current == old(current)
      ensures At() == old(At())
    {
      ghost var was := children;
      var cur := current.value;
      for i := 0 to |children|
        invariant |children| == |was| && children[cur] == was[cur] && current == Some(cur)
        invariant forall j | 0 <= j < i && j != cur :: children[j] == SeekPast(was[j], was[cur].Key())
        invariant forall j | i <= j < |was| :: children[j] == was[j]
      {
        if i != cur {
          children := children[i := SeekPast(children[i], children[cur].Key())];
        }
      }
      direction := Forward;
      TurnedForward(was, children, union, cur);
      MovedIsMerged(was, children, union);
    }

    method Prev()
      requires Valid() && IsValid()
      modifies this
      ensures Valid() && At() == ToPrev(old(At()).value)
    {
      ghost var m := At().value;
      if !direction.Reverse? {
        TurnReverse();
      }
      SteppedBack(children, union, current.value);
      ghost var was := children;
      var c := children[current.value];
      children := children[current.value := c.(at := ToPrev(c.at.value))];
      SettleReverse(was, m);
    }

    method TurnReverse()
      requires Valid() && IsValid()
      modifies this
      ensures Valid() && direction == Reverse && current == old(current)
      ensures At() == old(At())
    {
      ghost var was := children;
      var cur := current.value;
      for i := 0 to |children|
        invariant |children| == |was| && children[cur] == was[cur] && current == Some(cur)
        invariant forall j | 0 <= j < i && j != cur :: children[j] == SeekBack(was[j], was[cur].Key())
        invariant forall j | i <= j < |was| :: children[j] == was[j]
      {
        if i != cur {
          children := children[i := SeekBack(children[i], children[cur].Key())];
        }
      }
      direction := Reverse;
      TurnedReverse(was, children, union, cur);
      MovedIsMerged(was, children, union);
    }
  }
}
