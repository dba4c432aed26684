/** The live snapshots (snapshot.h): a circular doubly linked list, the oldest first. */
module SnapshotLists {
  import opened InternalKeys

  class SnapshotImpl {
    const sequenceNumber: SequenceNumber
    var prev: SnapshotImpl?
    var next: SnapshotImpl?

    constructor (sequenceNumber: SequenceNumber)
      ensures this.sequenceNumber == sequenceNumber
    {
      this.sequenceNumber := sequenceNumber;
      prev, next := null, null;
    }
  }

  ghost function Elems(items: seq<SnapshotImpl>): (r: set<SnapshotImpl>) {
    set s | s in items
  }

  /** Around the circle: the dummy head, the snapshots, the dummy head. */
  ghost function At(head: SnapshotImpl, items: seq<SnapshotImpl>, i: nat): (r: SnapshotImpl)
    requires i <= |items| + 1
    ensures r == head || r in Elems(items)
  {
    if 1 <= i <= |items| then items[i - 1] else head
  }

  ghost predicate Linked(a: SnapshotImpl, b: SnapshotImpl)
    reads a`next, b`prev
  {
    a.next == b && b.prev == a
  }

  ghost predicate Circle(head: SnapshotImpl, items: seq<SnapshotImpl>)
    reads head`next, head`prev, Elems(items)`next, Elems(items)`prev
  {
    && (forall i, j | 0 <= i < j < |items| :: items[i] != items[j]) && head !in items
    && forall i {:trigger At(head, items, i)} | 0 <= i <= |items| :: Linked(At(head, items, i), At(head, items, i + 1))
  }

  class SnapshotList {
    const head: SnapshotImpl
    /** The live snapshots in the order in which they were taken. */
    ghost var live: seq<SnapshotImpl>

    /** Later snapshots have no smaller numbers. */
    ghost predicate Valid()
      reads this, head, Elems(live)
    {
      && Circle(head, live)
      && forall i, j | 0 <= i < j < |live| :: live[i].sequenceNumber <= live[j].sequenceNumber
    }

    constructor ()
      ensures Valid() && fresh(head) && live == []
    {
      var h := new SnapshotImpl(0);
      h.prev, h.next := h, h;
      head, live := h, [];
    }

    method Empty() returns (r: bool)
      requires Valid()
      ensures r == (live == [])
    {
      assert Linked(At(head, live, 0), At(head, live, 0 + 1));
      r := head.next == head;
    }

    /** The smallest number that a reader may still ask for. */
    method Oldest() returns (s: SnapshotImpl)
      requires Valid() && live != []
      ensures s == live[0] && forall x | x in live :: s.sequenceNumber <= x.sequenceNumber
    {
      assert Linked(At(head, live, 0), At(head, live, 0 + 1));
      s := head.next;
    }

    method Newest() returns (s: SnapshotImpl)
      requires Valid() && live != []
      ensures s == live[|live| - 1] && forall x | x in live :: x.sequenceNumber <= s.sequenceNumber
    {
      assert Linked(At(head, live, |live|), At(head, live, |live| + 1));
      s := head.prev;
    }

    method New(sequenceNumber: SequenceNumber) returns (s: SnapshotImpl)
      requires Valid() && forall x | x in live :: x.sequenceNumber <= sequenceNumber
      modifies this, head, Elems(live)
      ensures Valid() && fresh(s) && s.sequenceNumber == sequenceNumber
      ensures live == old(live) + [s]
    {
      hide Circle;
      s := new SnapshotImpl(sequenceNumber);
      LinkLast(head, s, live);
      live := live + [s];
    }

    /** The snapshot must be one of this list. */
    method Delete(s: SnapshotImpl)
      requires Valid() && s in live
      modifies this, head, Elems(live)
      ensures Valid() && exists k :: 0 <= k < |old(live)| && old(live)[k] == s && live == Without(old(live), k)
    {
      hide Circle;
      ghost var k :| 0 <= k < |live| && live[k] == s;
      Unlink(head, s, live, k);
      live := Without(live, k);
    }
  }

  function Without(items: seq<SnapshotImpl>, k: nat): (r: seq<SnapshotImpl>)
    requires k < |items|
    ensures |r| == |items| - 1 && forall i | 0 <= i < |r| :: r[i] == items[if i < k then i else i + 1]
  {
    items[..k] + items[k + 1..]
  }

  method LinkLast(head: SnapshotImpl, s: SnapshotImpl, ghost items: seq<SnapshotImpl>)
    requires Circle(head, items) && s !in items && s != head
    modifies head`next, head`prev, Elems(items)`next, Elems(items)`prev, s`next, s`prev
    ensures Circle(head, items + [s])
  {
    ghost var n := |items|;
    assert Linked(At(head, items, n), At(head, items, n + 1));
    s.next := head;
    s.prev := head.prev;
    s.prev.next := s;
    s.next.prev := s;
    ghost var r := items + [s];
    forall i {:trigger At(head, r, i)} | 0 <= i <= |r| ensures Linked(At(head, r, i), At(head, r, i + 1)) {
      if i < n {
        assert old(Linked(At(head, items, i), At(head, items, i + 1)));
      }
    }
  }

  method Unlink(head: SnapshotImpl, s: SnapshotImpl, ghost items: seq<SnapshotImpl>, ghost k: nat)
    requires Circle(head, items) && k < |items| && s == items[k]
    modifies head`next, head`prev, Elems(items)`next, Elems(items)`prev
    ensures Circle(head, Without(items, k))
  {
    assert Linked(At(head, items, k), At(head, items, k + 1))
      && Linked(At(head, items, k + 1), At(head, items, k + 1 + 1));
    ghost var r := Without(items, k);
    s.prev.next := s.next;
    s.next.prev := s.prev;
    forall i {:trigger At(head, r, i)} | 0 <= i <= |r| ensures Linked(At(head, r, i), At(head, r, i + 1)) {
      var j := if i <= k then i else i + 1;
      assert At(head, r, i) == At(head, items, j);
      assert old(Linked(At(head, items, j), At(head, items, j + 1)));
    }
  }
}
