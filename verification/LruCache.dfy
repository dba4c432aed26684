/**
 The LRU cache (cache.cc): handles on two circular doubly linked lists, a hash table chained through the same handles,
 and reference counts that decide which list a handle is on and when its deleter runs.
 */
module LruCaches {
  import opened InternalKeys
  import opened Coding

  class LRUHandle {
    const key: Bytes
    const hash: Word
    const value: Bytes
    const charge: nat
    var next: LRUHandle?
    var prev: LRUHandle?
    var nextHash: LRUHandle?
    var inCache: bool
    var refs: nat

    /** A handle that is on no list and in no table. */
    constructor (key: Bytes, hash: Word, value: Bytes, charge: nat, refs: nat)
      ensures this.key == key && this.hash == hash && this.value == value
      ensures this.charge == charge
      ensures this.refs == refs && !inCache && next == null
      ensures prev == null && nextHash == null
    {
      this.key, this.hash, this.value, this.charge := key, hash, value, charge;
      this.refs, inCache, next, prev, nextHash := refs, false, null, null, null;
    }
  }

  // ----- the lists -----

  ghost predicate Distinct(items: seq<LRUHandle>) {
    forall i, j | 0 <= i < j < |items| :: items[i] != items[j]
  }

  ghost function Elems(items: seq<LRUHandle>): (r: set<LRUHandle>) {
    set h | h in items
  }

  /** Going around the circle: the head, then the items, then the head again. */
  ghost function At(head: LRUHandle, items: seq<LRUHandle>, i: nat): (r: LRUHandle)
    requires i <= |items| + 1
    ensures r == head || r in Elems(items)
  {
    if 1 <= i <= |items| then items[i - 1] else head
  }

  ghost predicate Linked(a: LRUHandle, b: LRUHandle)
    reads a`next, b`prev
  {
    a.next == b && b.prev == a
  }

  /** The places around the ring are different, but for the head's at the start and at the end. */
  lemma PlacesDiffer(head: LRUHandle, items: seq<LRUHandle>, i: nat, j: nat)
    requires Distinct(items) && head !in items
    requires i != j && ((i <= |items| && j <= |items|) || (1 <= i <= |items| + 1 && 1 <= j <= |items| + 1))
    ensures At(head, items, i) != At(head, items, j)
  {
  }

  lemma PlacesWithout(head: LRUHandle, items: seq<LRUHandle>, k: nat, i: nat)
    requires k < |items| && i < |items|
    ensures |Without(items, k)| == |items| - 1
    ensures At(head, Without(items, k), i) == At(head, items, if i <= k then i else i + 1)
    ensures At(head, Without(items, k), i + 1) == At(head, items, if i < k then i + 1 else i + 2)
  {
  }

  /** `items` is the circular list with dummy head `head`, the oldest item first. */
  ghost predicate Ring(head: LRUHandle, items: seq<LRUHandle>)
    reads head`next, head`prev, Elems(items)`next, Elems(items)`prev
  {
    && Distinct(items) && head !in items
    && forall i {:trigger At(head, items, i)} | 0 <= i <= |items| :: Linked(At(head, items, i), At(head, items, i + 1))
  }

  function Without(items: seq<LRUHandle>, k: nat): (r: seq<LRUHandle>)
    requires k < |items|
    ensures |r| == |items| - 1
  {
    items[..k] + items[k + 1..]
  }

  lemma WithoutKeeps(items: seq<LRUHandle>, k: nat)
    requires k < |items| && Distinct(items)
    ensures Distinct(Without(items, k))
    ensures Elems(Without(items, k)) == Elems(items) - {items[k]}
  {
    var r := Without(items, k);
    forall h | h in items && h != items[k] ensures h in r {
      var i :| 0 <= i < |items| && items[i] == h;
      assert r[if i < k then i else i - 1] == h;
    }
    assert forall i | 0 <= i < |r| :: r[i] == items[if i < k then i else i + 1];
  }

  method LruRemove(e: LRUHandle, ghost head: LRUHandle, ghost items: seq<LRUHandle>, ghost k: nat)
    requires Ring(head, items) && k < |items| && e == items[k]
    modifies head`next, head`prev, Elems(items)`next, Elems(items)`prev
    ensures Ring(head, Without(items, k)) && e.next == old(e.next) && e.prev == old(e.prev)
  {
    assert Linked(At(head, items, k), At(head, items, k + 1))
      && Linked(At(head, items, k + 1), At(head, items, k + 1 + 1));
    WithoutKeeps(items, k);
    ghost var r := Without(items, k);
    e.next.prev := e.prev;
    e.prev.next := e.next;
    forall i {:trigger At(head, r, i)} | 0 <= i <= |r| ensures Linked(At(head, r, i), At(head, r, i + 1)) {
      PlacesWithout(head, items, k, i);
      if i != k {
        var j := if i < k then i else i + 1;
        assert old(Linked(At(head, items, j), At(head, items, j + 1)));
        PlacesDiffer(head, items, j, k);
        PlacesDiffer(head, items, j + 1, k + 2);
      }
    }
  }

  /** Makes `e` the newest item. */
  method LruAppend(head: LRUHandle, e: LRUHandle, ghost items: seq<LRUHandle>)
    requires Ring(head, items) && e !in items && e != head
    modifies head`next, head`prev, Elems(items)`next, Elems(items)`prev, e`next, e`prev
    ensures Ring(head, items + [e])
  {
    ghost var n := |items|;
    assert Linked(At(head, items, n), At(head, items, n + 1));
    e.next := head;
    e.prev := head.prev;
    e.prev.next := e;
    e.next.prev := e;
    ghost var r := items + [e];
    forall i {:trigger At(head, r, i)} | 0 <= i <= |r| ensures Linked(At(head, r, i), At(head, r, i + 1)) {
      if i < n {
        assert old(Linked(At(head, items, i), At(head, items, i + 1)));
      }
    }
  }

  // ----- the hash table -----

  predicate IsPowerOfTwo(n: nat) {
    n == 1 || (n > 0 && n % 2 == 0 && IsPowerOfTwo(n / 2))
  }

  /** `hash & (length - 1)`: the length is a power of two. */
  function Bucket(hash: Word, length: nat): (r: nat)
    requires length > 0
    ensures r < length
  {
    hash % length
  }

  predicate HasKey(h: LRUHandle, key: Bytes, hash: Word) {
    h.hash == hash && h.key == key
  }

  /** No two handles have one key. */
  ghost predicate UniqueKeys(handles: set<LRUHandle>) {
    forall g, h | g in handles && h in handles && HasKey(g, h.key, h.hash) :: g == h
  }

  /** What the slot in front of position `i` points to. */
  ghost function NextIn(items: seq<LRUHandle>, i: nat): (r: LRUHandle?) {
    if i < |items| then items[i] else null
  }

  /** A bucket's list. */
  ghost predicate Chain(first: LRUHandle?, items: seq<LRUHandle>)
    reads items`nextHash
  {
    Distinct(items) && first == NextIn(items, 0) && forall i | 0 <= i < |items| ::
      items[i].nextHash == NextIn(items, i + 1)
  }

  ghost function InBucket(handles: set<LRUHandle>, b: nat, length: nat): (r: set<LRUHandle>)
    requires length > 0
  {
    set h | h in handles && Bucket(h.hash, length) == b
  }

  /** Every handle is in the bucket of its hash. */
  ghost predicate Placed(chains: seq<seq<LRUHandle>>, handles: set<LRUHandle>) {
    |chains| > 0 && forall b {:trigger chains[b]} | 0 <= b < |chains| ::
      Elems(chains[b]) == InBucket(handles, b, |chains|)
  }

  lemma IsPlaced(chains: seq<seq<LRUHandle>>, handles: set<LRUHandle>, b: nat, i: nat)
    requires Placed(chains, handles) && b < |chains| && i < |chains[b]|
    ensures chains[b][i] in handles && Bucket(chains[b][i].hash, |chains|) == b
  {
    assert chains[b][i] in Elems(chains[b]);
  }

  lemma PlacedRemoved(chains: seq<seq<LRUHandle>>, handles: set<LRUHandle>, b: nat, i: nat)
    requires Placed(chains, handles) && b < |chains| && i < |chains[b]|
    requires Distinct(chains[b])
    ensures Placed(chains[b := chains[b][..i] + chains[b][i + 1..]], handles - {chains[b][i]})
    ensures Distinct(chains[b][..i] + chains[b][i + 1..])
  {
    hide Bucket;
    assert Without(chains[b], i) == chains[b][..i] + chains[b][i + 1..];
    WithoutKeeps(chains[b], i);
    IsPlaced(chains, handles, b, i);
    BucketsOf(handles, chains[b][i], b, |chains|);
  }

  /** One handle more or less changes one bucket. */
  lemma BucketsOf(handles: set<LRUHandle>, h: LRUHandle, b: nat, length: nat)
    requires length > 0 && Bucket(h.hash, length) == b
    ensures InBucket(handles - {h}, b, length) == InBucket(handles, b, length) - {h}
    ensures InBucket(handles + {h}, b, length) == InBucket(handles, b, length) + {h}
    ensures forall c: nat {:trigger InBucket(handles - {h}, c, length)} | c != b ::
      InBucket(handles - {h}, c, length) == InBucket(handles, c, length)
    ensures forall c: nat {:trigger InBucket(handles + {h}, c, length)} | c != b ::
      InBucket(handles + {h}, c, length) == InBucket(handles, c, length)
  {
    hide Bucket;
  }

  /** `h` in place of item `i`, or behind the last one. */
  function Put(items: seq<LRUHandle>, i: nat, h: LRUHandle): (r: seq<LRUHandle>)
    requires i <= |items|
  {
    items[..i] + ([h] + if i == |items| then [] else items[i + 1..])
  }

  lemma PutKeeps(items: seq<LRUHandle>, i: nat, h: LRUHandle)
    requires i <= |items| && Distinct(items) && h !in items
    ensures Distinct(Put(items, i, h))
    ensures Elems(Put(items, i, h)) == Elems(items) + {h} - if i == |items| then {} else {items[i]}
  {
    var r := Put(items, i, h);
    assert forall j | 0 <= j < |r| :: r[j] == if j == i then h else items[j];
    assert r[i] == h;
    forall g | g in items && (i == |items| || g != items[i]) ensures g in r {
      var j :| 0 <= j < |items| && items[j] == g;
      assert r[j] == g;
    }
  }

  lemma PlacedInserted(chains: seq<seq<LRUHandle>>, handles: set<LRUHandle>, b: nat, i: nat, h: LRUHandle)
    requires Placed(chains, handles) && h !in handles && b == Bucket(h.hash, |chains|)
    requires i <= |chains[b]| && Distinct(chains[b])
    ensures Distinct(Put(chains[b], i, h))
    ensures Placed(chains[b := Put(chains[b], i, h)], handles + {h} - if i == |chains[b]| then {} else {chains[b][i]})
  {
    hide Put;
    hide Bucket;
    assert h !in Elems(chains[b]);
    PutKeeps(chains[b], i, h);
    BucketsOf(handles, h, b, |chains|);
    if i < |chains[b]| {
      IsPlaced(chains, handles, b, i);
      BucketsOf(handles + {h}, chains[b][i], b, |chains|);
    } else {
      assert handles + {h} - {} == handles + {h};
    }
  }

  lemma EmptyChain()
    ensures Chain(null, [])
  {
  }

  lemma PutTail(items: seq<LRUHandle>, i: nat, h: LRUHandle)
    requires i <= |items| && Distinct(Put(items, i, h))
    ensures h !in (if i == |items| then [] else items[i + 1..])
  {
    var tail := if i == |items| then [] else items[i + 1..];
    var r := Put(items, i, h);
    assert forall j | 0 <= j < |tail| :: r[i] != r[i + 1 + j] && r[i + 1 + j] == tail[j];
    assert r[i] == h;
  }

  lemma ChainTail(first: LRUHandle?, items: seq<LRUHandle>, i: nat)
    requires Chain(first, items) && i < |items|
    ensures Chain(items[i].nextHash, items[i + 1..])
  {
  }

  /** Puts `h` in front of a list. */
  method PutFirst(h: LRUHandle, x: LRUHandle?, ghost tail: seq<LRUHandle>)
    requires Chain(x, tail) && h !in tail
    modifies h`nextHash
    ensures Chain(h, [h] + tail)
  {
    h.nextHash := x;
  }

  /** The table holds the handles: `chains` are its buckets' lists. */
  ghost predicate Holds(list: array<LRUHandle?>, chains: seq<seq<LRUHandle>>, handles: set<LRUHandle>)
    reads list, handles`nextHash
  {
    && list.Length == |chains| > 0 && Placed(chains, handles)
    && forall b | 0 <= b < |chains| ::
      assert Elems(chains[b]) == InBucket(handles, b, |chains|);
      assert forall h | h in chains[b] :: h in Elems(chains[b]);
      assert forall h | h in chains[b] :: h in InBucket(handles, b, |chains|) && h in handles;
      Chain(list[b], chains[b])
  }

  lemma NothingHeld(list: array<LRUHandle?>, chains: seq<seq<LRUHandle>>)
    requires list.Length == |chains| > 0 && forall b | 0 <= b < |chains| :: list[b] == null && chains[b] == []
    ensures Holds(list, chains, {})
  {
    hide Bucket;
    assert Elems([]) == {};
  }

  lemma NotInChains(chains: seq<seq<LRUHandle>>, handles: set<LRUHandle>, h: LRUHandle)
    requires Placed(chains, handles) && h !in handles
    ensures forall c | 0 <= c < |chains| :: h !in chains[c]
  {
    hide Bucket;
    forall c | 0 <= c < |chains| ensures h !in chains[c] {
      assert h !in Elems(chains[c]);
    }
  }

  lemma PlacedInFront(chains: seq<seq<LRUHandle>>, handles: set<LRUHandle>, b: nat, h: LRUHandle)
    requires Placed(chains, handles) && h !in handles && b == Bucket(h.hash, |chains|)
    ensures Placed(chains[b := [h] + chains[b]], handles + {h})
  {
    hide Bucket;
    assert Elems([h] + chains[b]) == Elems(chains[b]) + {h};
    BucketsOf(handles, h, b, |chains|);
  }

  /** Puts a handle in front of the list of its bucket. */
  method Push(list: array<LRUHandle?>, h: LRUHandle, ghost chains: seq<seq<LRUHandle>>, ghost handles: set<LRUHandle>)
    returns (ghost chains': seq<seq<LRUHandle>>)
    requires Holds(list, chains, handles) && h !in handles
    modifies list, h`nextHash
    ensures Holds(list, chains', handles + {h})
  {
    hide Bucket;
    hide Chain;
    hide Placed;
    var b := Bucket(h.hash, list.Length);
    NotInChains(chains, handles, h);
    PlacedInFront(chains, handles, b, h);
    PutFirst(h, list[b], chains[b]);
    list[b] := h;
    chains' := chains[b := [h] + chains[b]];
  }

  /** The list when the links are those of `nexts`. */
  ghost predicate ChainIn(nexts: map<LRUHandle, LRUHandle?>, first: LRUHandle?, items: seq<LRUHandle>) {
    && Distinct(items) && first == NextIn(items, 0)
    && forall i | 0 <= i < |items| :: items[i] in nexts && nexts[items[i]] == NextIn(items, i + 1)
  }

  lemma ChainsIn(list: array<LRUHandle?>, chains: seq<seq<LRUHandle>>, handles: set<LRUHandle>, nexts: map<LRUHandle,
      LRUHandle?>)
    requires Holds(list, chains, handles) && nexts.Keys == handles && forall h | h in handles :: nexts[h] == h.nextHash
    ensures forall b | 0 <= b < |chains| :: ChainIn(nexts, list[b], chains[b])
  {
    hide Bucket;
    forall b | 0 <= b < |chains| ensures ChainIn(nexts, list[b], chains[b]) {
      forall i | 0 <= i < |chains[b]| ensures chains[b][i] in handles {
        IsPlaced(chains, handles, b, i);
      }
    }
  }

  lemma UniqueInserted(handles: set<LRUHandle>, h: LRUHandle, was: LRUHandle?)
    requires UniqueKeys(handles) && h !in handles
    requires if was == null then forall g | g in handles ::
      !HasKey(g, h.key, h.hash) else was in handles && HasKey(was, h.key, h.hash)
    ensures UniqueKeys(handles + {h} - if was == null then {} else {was})
    ensures |handles + {h} - if was == null then {} else {was}| == |handles| + if was == null then 1 else 0
  {
  }

  class HandleTable {
    var length: nat
    var elems: nat
    var list: array<LRUHandle?>
    ghost var chains: seq<seq<LRUHandle>>
    /** What is in the table. */
    ghost var handles: set<LRUHandle>

    ghost predicate Valid()
      reads this, list, handles`nextHash
    {
      length == list.Length && IsPowerOfTwo(length) && elems == |handles| && Holds(list, chains, handles)
        && UniqueKeys(handles)
    }

    /** The first Resize, from no buckets to four. */
    constructor ()
      ensures Valid() && fresh(list) && handles == {} && elems <= length
    {
      length, elems, handles := 4, 0, {};
      list := new LRUHandle?[4](_ => null);
      chains := [[], [], [], []];
      new;
      assert IsPowerOfTwo(2);
      NothingHeld(list, chains);
    }

    /** Goes to the slot that points to the handle with the key, or to the last slot of its bucket. */
    method FindPointer(key: Bytes, hash: Word) returns (before: LRUHandle?, result: LRUHandle?, ghost i: nat)
      requires Valid()
      ensures var items := chains[Bucket(hash, length)];
        && Distinct(items) && i <= |items| && result == NextIn(items, i)
        && before == (if i == 0 then null else items[i - 1])
        && (result != null ==> HasKey(result, key, hash)) && forall j | 0 <= j < i :: !HasKey(items[j], key, hash)
    {
      hide Bucket;
      var b := Bucket(hash, length);
      ghost var items := chains[b];
      before, result, i := null, list[b], 0;
      while result != null && !HasKey(result, key, hash)
        invariant i <= |items| && result == NextIn(items, i) && before == (if i == 0 then null else items[i - 1])
        invariant forall j | 0 <= j < i :: !HasKey(items[j], key, hash)
        decreases |items| - i
      {
        before := result;
        result := result.nextHash;
        i := i + 1;
      }
    }

    method Lookup(key: Bytes, hash: Word) returns (result: LRUHandle?)
      requires Valid()
      ensures result != null ==> result in handles && HasKey(result, key, hash)
      ensures result == null ==> forall h | h in handles :: !HasKey(h, key, hash)
    {
      hide Bucket;
      var before;
      ghost var i;
      before, result, i := FindPointer(key, hash);
      NothingBefore(key, hash, i);
    }

    lemma NothingBefore(key: Bytes, hash: Word, i: nat)
      requires Valid() && i <= |chains[Bucket(hash, length)]|
      requires forall j | 0 <= j < i :: !HasKey(chains[Bucket(hash, length)][j], key, hash)
      ensures i < |chains[Bucket(hash, length)]| ==> chains[Bucket(hash, length)][i] in handles
      ensures i == |chains[Bucket(hash, length)]| ==> forall h | h in handles :: !HasKey(h, key, hash)
    {
      hide Bucket;
      var b := Bucket(hash, length);
      var items := chains[b];
      if i < |items| {
        IsPlaced(chains, handles, b, i);
      } else {
        forall h | h in handles ensures !HasKey(h, key, hash) {
          if h.hash == hash {
            assert h in InBucket(handles, b, length) && h in Elems(chains[b]);
            var j :| 0 <= j < |items| && items[j] == h;
          }
        }
      }
    }

    /** Stores into the slot at position `i` of a bucket: what comes behind it is now the list that starts at `x`. */
    method SetSlot(b: nat, before: LRUHandle?, x: LRUHandle?, ghost i: nat, ghost tail: seq<LRUHandle>)
      requires b < length && list.Length == length == |chains|
      requires Chain(list[b], chains[b]) && i <= |chains[b]| && before == (if i == 0 then null else chains[b][i - 1])
      requires Chain(x, tail) && Distinct(chains[b][..i] + tail)
      requires forall c | 0 <= c < length && c != b ::
        Chain(list[c], chains[c]) && (before != null ==> before !in chains[c])
      modifies list, (if before == null then {} else {before})`nextHash, `chains
      ensures chains == old(chains)[b := old(chains)[b][..i] + tail] && Chain(list[b], chains[b])
      ensures forall c | 0 <= c < length && c != b :: Chain(list[c], chains[c])
    {
      ghost var r := chains[b][..i] + tail;
      if before == null {
        list[b] := x;
      } else {
        before.nextHash := x;
        assert r[i - 1] == before;
      }
      chains := chains[b := r];
    }

    /** The slot that FindPointer has found is in no other bucket. */
    lemma OnlyHere(b: nat, i: nat)
      requires Valid() && b < length && 0 < i <= |chains[b]|
      ensures chains[b][i - 1] in handles && forall c | 0 <= c < length && c != b :: chains[b][i - 1] !in chains[c]
    {
      hide Bucket;
      IsPlaced(chains, handles, b, i - 1);
      forall c | 0 <= c < length && c != b ensures chains[b][i - 1] !in chains[c] {
        assert chains[b][i - 1] !in Elems(chains[c]);
      }
    }

    /** Links `h` into the slot, with what is behind `was`, the handle found there, if there is one. */
    method ReplaceAt(before: LRUHandle?, was: LRUHandle?, h: LRUHandle, b: nat, ghost i: nat)
      requires Valid() && h !in handles && b < length
      requires i <= |chains[b]| && was == NextIn(chains[b], i)
      requires before == (if i == 0 then null else chains[b][i - 1])
      requires Distinct(Put(chains[b], i, h))
      modifies list, handles`nextHash, h`nextHash, `chains
      ensures chains == old(chains)[b := Put(old(chains)[b], i, h)]
      ensures forall c | 0 <= c < length :: Chain(list[c], chains[c])
    {
      hide Bucket;
      hide Chain;
      hide Distinct;
      ghost var items := chains[b];
      ghost var tail := if was == null then [] else items[i + 1..];
      if i > 0 { OnlyHere(b, i); }
      NotInChains(chains, handles, h);
      PutTail(items, i, h);
      if was == null {
        EmptyChain();
        PutFirst(h, null, []);
      } else {
        ChainTail(list[b], items, i);
        PutFirst(h, was.nextHash, tail);
      }
      SetSlot(b, before, h, i, [h] + tail);
    }

    lemma KeysAreUnique()
      requires Valid()
      ensures UniqueKeys(handles)
    {
    }

    /** Adds the handle; the one with its key, if there is one, is taken out and returned. */
    method Insert(h: LRUHandle) returns (was: LRUHandle?)
      requires Valid() && h !in handles
      modifies this, list, handles`nextHash, h`nextHash
      ensures Valid() && (list == old(list) || fresh(list))
      ensures handles == old(handles) + {h} - (if was == null then {} else {was})
      ensures was != null ==> was in old(handles) && HasKey(was, h.key, h.hash)
      ensures was == null ==> forall g | g in old(handles) :: !HasKey(g, h.key, h.hash)
      ensures old(elems <= length) ==> elems <= length
      ensures list == old(list) || (elems > old(length) && (length == 4 || length < 2 * elems))
    {
      hide Bucket;
      hide Chain;
      hide Distinct;
      hide Put;
      hide Placed;
      hide UniqueKeys;
      hide HasKey;
      var before;
      ghost var i;
      before, was, i := FindPointer(h.key, h.hash);
      ghost var b := Bucket(h.hash, length);
      ghost var items := chains[b];
      NothingBefore(h.key, h.hash, i);
      assert i <= |items|;
      PlacedInserted(chains, handles, b, i, h);
      UniqueInserted(handles, h, was);
      ReplaceAt(before, was, h, Bucket(h.hash, length), i);
      handles := handles + {h} - (if was == null then {} else {was});
      if was == null {
        elems := elems + 1;
        if elems > length {
          Resize();
        }
      }
    }

    method Remove(key: Bytes, hash: Word) returns (result: LRUHandle?)
      requires Valid()
      modifies this, list, handles`nextHash
      ensures Valid() && list == old(list)
      ensures handles == old(handles) - (if result == null then {} else {result})
      ensures result != null ==> result in old(handles) && HasKey(result, key, hash)
      ensures result == null ==> forall g | g in old(handles) :: !HasKey(g, key, hash)
    {
      hide Bucket;
      hide Chain;
      hide Distinct;
      var before;
      ghost var i;
      before, result, i := FindPointer(key, hash);
      ghost var b := Bucket(hash, length);
      ghost var items := chains[b];
      NothingBefore(key, hash, i);
      if result != null {
        if i > 0 { OnlyHere(b, i); }
        PlacedRemoved(chains, handles, b, i);
        ChainTail(list[b], items, i);
        SetSlot(Bucket(hash, length), before, result.nextHash, i, items[i + 1..]);
        handles := handles - {result};
        elems := elems - 1;
      }
    }

    /** Moves every handle to a table of at least as many buckets as there are handles. */
    method Resize()
      requires Valid()
      modifies this, handles`nextHash
      ensures Valid() && fresh(list) && handles == old(handles)
      ensures elems == old(elems) && elems <= length && (length == 4 || length < 2 * elems)
    {
      hide Bucket;
      hide Chain;
      hide ChainIn;
      hide Placed;
      hide Holds;
      hide UniqueKeys;
      var newLength := NewLength();
      var newList := new LRUHandle?[newLength](_ => null);
      ghost var newChains: seq<seq<LRUHandle>> := seq(newLength, _ => []);
      ghost var nexts := map h | h in handles :: h.nextHash;
      var count := 0;
      NothingHeld(newList, newChains);
      ChainsIn(list, chains, handles, nexts);
      HoldsSizes(list, chains, handles);
      BelowSteps(chains, handles);
      for i := 0 to length
        modifies newList, handles`nextHash
        invariant Holds(newList, newChains, Below(handles, i, length)) && count == |Below(handles, i, length)|
        invariant StillLinked(nexts, Below(handles, i, length))
      {
        newChains, count := MoveBucket(i, newList, newChains, count, nexts);
      }
      assert elems == count;
      list, length, chains := newList, newLength, newChains;
      HoldsSizes(list, chains, handles);
    }

    method NewLength() returns (newLength: nat)
      ensures newLength > 0 && IsPowerOfTwo(newLength)
      ensures newLength >= elems && (newLength == 4 || newLength < 2 * elems)
    {
      newLength := 4;
      assert IsPowerOfTwo(2);
      while newLength < elems
        invariant newLength > 0 && IsPowerOfTwo(newLength) && (newLength == 4 || newLength < 2 * elems)
        decreases elems - newLength
      {
        newLength := newLength * 2;
      }
    }

    /** The handles that have not been moved are linked as they were. */
    ghost predicate StillLinked(nexts: map<LRUHandle, LRUHandle?>, moved: set<LRUHandle>)
      reads this, handles`nextHash
    {
      forall h | h in handles && h !in moved :: h in nexts && h.nextHash == nexts[h]
    }

    method MoveOne(h: LRUHandle, newList: array<LRUHandle?>, ghost newChains: seq<seq<LRUHandle>>,
        ghost moved: set<LRUHandle>, ghost nexts: map<LRUHandle, LRUHandle?>)
      returns (next: LRUHandle?, ghost newChains': seq<seq<LRUHandle>>)
      requires h in handles && h !in moved && Holds(newList, newChains, moved)
      requires StillLinked(nexts, moved)
      modifies newList, h`nextHash
      ensures h in nexts && next == nexts[h] && Holds(newList, newChains', moved + {h})
      ensures StillLinked(nexts, moved + {h})
    {
      hide Holds;
      next := h.nextHash;
      newChains' := Push(newList, h, newChains, moved);
    }

    /** Moves the handles of one bucket. */
    method MoveBucket(i: nat, newList: array<LRUHandle?>, ghost newChains: seq<seq<LRUHandle>>, count: nat,
        ghost nexts: map<LRUHandle, LRUHandle?>)
      returns (ghost newChains': seq<seq<LRUHandle>>, count': nat)
      requires i < length == list.Length == |chains| && Placed(chains, handles) && ChainIn(nexts, list[i], chains[i])
      requires newList != list && Holds(newList, newChains, Below(handles, i, length))
      requires count == |Below(handles, i, length)|
      requires StillLinked(nexts, Below(handles, i, length))
      modifies newList, handles`nextHash
      ensures Holds(newList, newChains', Below(handles, i + 1, length)) && count' == |Below(handles, i + 1, length)|
      ensures StillLinked(nexts, Below(handles, i + 1, length))
    {
      hide Bucket;
      hide Placed;
      hide Holds;
      hide Below;
      hide StillLinked;
      hide Distinct;
      hide Moved;
      newChains', count' := newChains, count;
      var h := list[i];
      ghost var k, items := 0, chains[i];
      assert Distinct(items);
      MovedSteps(chains, handles, i);
      while h != null
        invariant k <= |items| && h == NextIn(items, k)
        invariant Holds(newList, newChains', Moved(chains, handles, i, k))
        invariant StillLinked(nexts, Moved(chains, handles, i, k))
        invariant count' == |Moved(chains, handles, i, k)|
        decreases |items| - k
      {
        NextMoved(chains, handles, i, k);
        var next;
        next, newChains' := MoveOne(h, newList, newChains', Moved(chains, handles, i, k), nexts);
        count' := count' + 1;
        k := k + 1;
        h := next;
      }
    }
  }

  /** The handles in the first `i` buckets. */
  ghost function Below(handles: set<LRUHandle>, i: nat, length: nat): (r: set<LRUHandle>)
    requires length > 0
  {
    set h | h in handles && Bucket(h.hash, length) < i
  }

  lemma BelowSteps(chains: seq<seq<LRUHandle>>, handles: set<LRUHandle>)
    requires Placed(chains, handles)
    ensures Below(handles, 0, |chains|) == {} && Below(handles, |chains|, |chains|) == handles
    ensures forall i | 0 <= i < |chains| ::
      Below(handles, i, |chains|) + Elems(chains[i]) == Below(handles, i + 1, |chains|)
  {
    hide Bucket;
  }

  /** The handles in the first `i` buckets and the first `k` of the next one. */
  ghost function Moved(chains: seq<seq<LRUHandle>>, handles: set<LRUHandle>, i: nat, k: nat): (r: set<LRUHandle>)
    requires i < |chains| && k <= |chains[i]|
  {
    Below(handles, i, |chains|) + Elems(chains[i][..k])
  }

  lemma MovedSteps(chains: seq<seq<LRUHandle>>, handles: set<LRUHandle>, i: nat)
    requires i < |chains| && Placed(chains, handles)
    ensures Moved(chains, handles, i, 0) == Below(handles, i, |chains|)
    ensures Moved(chains, handles, i, |chains[i]|) == Below(handles, i + 1, |chains|)
  {
    hide Bucket;
    hide Below;
    BelowSteps(chains, handles);
    assert chains[i][..|chains[i]|] == chains[i] && Elems(chains[i][..0]) == {};
  }

  lemma NextMoved(chains: seq<seq<LRUHandle>>, handles: set<LRUHandle>, i: nat, k: nat)
    requires i < |chains| && Placed(chains, handles) && k < |chains[i]|
    requires Distinct(chains[i])
    ensures chains[i][k] in handles && chains[i][k] !in Moved(chains, handles, i, k)
    ensures Moved(chains, handles, i, k + 1) == Moved(chains, handles, i, k) + {chains[i][k]}
  {
    hide Bucket;
    var items := chains[i];
    IsPlaced(chains, handles, i, k);
    assert items[..k + 1] == items[..k] + [items[k]];
    assert Elems(items[..k + 1]) == Elems(items[..k]) + {items[k]};
  }

  lemma HoldsSizes(list: array<LRUHandle?>, chains: seq<seq<LRUHandle>>, handles: set<LRUHandle>)
    requires Holds(list, chains, handles)
    ensures list.Length == |chains| > 0 && Placed(chains, handles)
  {
    hide Chain;
    hide Bucket;
  }

  // ----- the cache -----

  function Drop(items: seq<LRUHandle>, h: LRUHandle): (r: seq<LRUHandle>) {
    if items == [] then [] else if items[0] == h then items[1..] else [items[0]] + Drop(items[1..], h)
  }

  function Charge(items: seq<LRUHandle>): (r: nat) {
    if items == [] then 0 else items[0].charge + Charge(items[1..])
  }

  lemma {:induction false} DropIsWithout(items: seq<LRUHandle>, k: nat)
    requires k < |items| && Distinct(items)
    ensures Drop(items, items[k]) == Without(items, k)
    ensures Charge(items) == items[k].charge + Charge(Without(items, k))
  {
    if k > 0 {
      DropIsWithout(items[1..], k - 1);
      assert Without(items, k)[1..] == Without(items[1..], k - 1);
    } else {
      assert Without(items, 0) == items[1..];
    }
  }

  lemma {:induction false} DropAbsent(items: seq<LRUHandle>, h: LRUHandle)
    requires h !in items
    ensures Drop(items, h) == items
  {
    if items != [] { DropAbsent(items[1..], h); }
  }

  lemma {:induction false} ChargeAppends(items: seq<LRUHandle>, e: LRUHandle)
    ensures Charge(items + [e]) == Charge(items) + e.charge
  {
    if items == [] {
      assert [e][1..] == [];
    } else {
      assert (items + [e])[1..] == items[1..] + [e];
      ChargeAppends(items[1..], e);
    }
  }

  /** The lists, oldest first, the references that clients hold, and the deleter calls so far. */
  datatype CacheState = CacheState(lru: seq<LRUHandle>, inUse: seq<LRUHandle>, held: map<LRUHandle, nat>,
      deleted: seq<LRUHandle>)

  /** An entry leaves the cache; if no client holds it, its deleter runs. */
  function Erased(s: CacheState, e: LRUHandle): (r: CacheState) {
    var left := s.(lru := Drop(s.lru, e), inUse := Drop(s.inUse, e));
    if e in s.held && s.held[e] == 0 then left.(held := s.held - {e}, deleted := s.deleted + [e]) else left
  }

  /** The cached entry with the key leaves, if there is one; keys are unique. */
  ghost function ErasedKey(s: CacheState, cached: set<LRUHandle>, key: Bytes, hash: Word): (r: CacheState) {
    if exists h :: h in cached && HasKey(h, key, hash) then
      var h :| h in cached && HasKey(h, key, hash);
      Erased(s, h)
    else s
  }

  /** The `n` oldest entries leave. */
  ghost function Evicted(s: CacheState, n: nat): (r: CacheState)
    requires n <= |s.lru|
  {
    CacheState(s.lru[n..], s.inUse, s.held - Elems(s.lru[..n]), s.deleted + s.lru[..n])
  }

  /** How many of the oldest entries have to leave before the rest fits. */
  function EvictCount(items: seq<LRUHandle>, usage: int, capacity: nat): (n: nat)
    ensures n <= |items|
  {
    if usage <= capacity || items == [] then 0 else 1 + EvictCount(items[1..], usage - items[0].charge, capacity)
  }

  ghost function Total(s: CacheState): (r: nat) {
    Charge(s.lru) + Charge(s.inUse)
  }

  /** As few as possible leave: what is left fits, or nothing is left to evict, and one less would not have done. */
  lemma {:induction false} EvictCountIsLeast(items: seq<LRUHandle>, usage: int, capacity: nat)
    ensures var n := EvictCount(items, usage, capacity);
      && (n == |items| || usage - Charge(items[..n]) <= capacity)
      && forall m | 0 <= m < n :: usage - Charge(items[..m]) > capacity
  {
    var n := EvictCount(items, usage, capacity);
    if n > 0 {
      EvictCountIsLeast(items[1..], usage - items[0].charge, capacity);
      assert items[..n][1..] == items[1..][..n - 1];
      forall m | 0 <= m < n ensures usage - Charge(items[..m]) > capacity {
        if m > 0 { assert items[..m][1..] == items[1..][..m - 1]; }
      }
    }
  }

  lemma EvictMore(s: CacheState, n: nat)
    requires n < |s.lru|
    ensures Evicted(Evicted(s, n), 1) == Evicted(s, n + 1)
  {
    assert s.lru[n..][..1] == [s.lru[n]] && s.lru[..n + 1] == s.lru[..n] + [s.lru[n]];
    assert s.lru[n..][1..] == s.lru[n + 1..];
    assert Elems(s.lru[..n + 1]) == Elems(s.lru[..n]) + Elems([s.lru[n]]);
    assert s.held - Elems(s.lru[..n]) - Elems([s.lru[n]]) == s.held - Elems(s.lru[..n + 1]);
  }

  lemma EvictNone(s: CacheState)
    ensures Evicted(s, 0) == s
  {
    assert s.held - Elems(s.lru[..0]) == s.held;
  }

  lemma EvictOne(s: CacheState)
    requires s.lru != [] && s.lru[0] !in s.inUse && s.lru[0] in s.held
    requires s.held[s.lru[0]] == 0
    ensures Evicted(s, 1) == Erased(s, s.lru[0])
  {
    DropAbsent(s.inUse, s.lru[0]);
    assert s.lru[..1] == [s.lru[0]];
    assert Elems([s.lru[0]]) == {s.lru[0]};
  }

  /** Takes an item off its list. */
  method Unlink(e: LRUHandle, ghost head: LRUHandle, ghost items: seq<LRUHandle>)
    requires Ring(head, items) && e in items
    modifies head`next, head`prev, Elems(items)`next, Elems(items)`prev
    ensures Ring(head, Drop(items, e)) && Elems(Drop(items, e)) == Elems(items) - {e}
    ensures Charge(items) == e.charge + Charge(Drop(items, e))
  {
    hide Drop;
    ghost var k :| 0 <= k < |items| && items[k] == e;
    DropIsWithout(items, k);
    WithoutKeeps(items, k);
    LruRemove(e, head, items, k);
  }

  lemma NextInRing(head: LRUHandle, items: seq<LRUHandle>, n: nat)
    requires Ring(head, items) && n < |items|
    ensures items[n].next == NextOf(head, items, n + 1)
    ensures forall k | n < k < |items| :: items[k] != items[n]
  {
    assert Linked(At(head, items, n + 1), At(head, items, n + 1 + 1));
  }

  /** The item at position `n`, or the head behind the last one. */
  ghost function NextOf(head: LRUHandle, items: seq<LRUHandle>, n: nat): (r: LRUHandle) {
    if n < |items| then items[n] else head
  }

  class LRUCache {
    var capacity: nat
    var usage: nat
    /** Dummy head of the list of entries that only the cache refers to; `lru.next` is the oldest. */
    const lru: LRUHandle
    /** Dummy head of the list of entries that clients use. */
    const inUse: LRUHandle
    const table: HandleTable
    /** The handles whose deleter has been called, in order. */
    var deleted: seq<LRUHandle>

    ghost var lruItems: seq<LRUHandle>
    ghost var inUseItems: seq<LRUHandle>
    /** The handles that have not been freed, and how many references clients hold. */
    ghost var held: map<LRUHandle, nat>
    /** Every entry that Insert has made. */
    ghost var inserted: set<LRUHandle>

    ghost function State(): (r: CacheState)
      reads `lruItems, `inUseItems, `held, `deleted
    {
      CacheState(lruItems, inUseItems, held, deleted)
    }

    ghost function Listed(): (r: set<LRUHandle>)
      reads `lruItems, `inUseItems
    {
      Elems(lruItems) + Elems(inUseItems)
    }

    ghost predicate ListsOk()
      reads `lruItems, `inUseItems, `held, lru`next, lru`prev, inUse`next, inUse`prev, held.Keys`next, held.Keys`prev
    {
      && Elems(lruItems) <= held.Keys && Elems(inUseItems) <= held.Keys && Elems(lruItems) !! Elems(inUseItems)
      && Ring(lru, lruItems) && Ring(inUse, inUseItems) && lru != inUse && lru !in held && inUse !in held
    }

    /** `extra` has one reference more than it should: it is about to be dropped. */
    ghost predicate CountOk(h: LRUHandle, extra: LRUHandle?)
      requires h in held
      reads `lruItems, `inUseItems, `held, h`refs, h`inCache
    {
      && h.refs == held[h] + (if h.inCache then 1 else 0) + (if h == extra then 1 else 0)
      && (h.inCache <==> h in Listed())
      && (h in Elems(lruItems) <==> h.inCache && held[h] == 0 && h != extra)
      && (!h.inCache ==> held[h] > 0 || h == extra)
    }

    ghost predicate CountsOk(extra: LRUHandle?)
      reads `lruItems, `inUseItems, `held, held.Keys`refs, held.Keys`inCache
    {
      forall h | h in held :: CountOk(h, extra)
    }

    /** What is on the lists is in the table, but for `pending`. */
    ghost predicate TableOk(pending: set<LRUHandle>)
      reads `lruItems, `inUseItems, table, table.list, table.handles`nextHash
    {
      table.Valid() && table.handles == Listed() - pending
    }

    ghost predicate UsageOk()
      reads `usage, `lruItems, `inUseItems
    {
      usage == Charge(lruItems) + Charge(inUseItems)
    }

    ghost predicate TraceOk()
      reads `deleted, `held, `inserted
    {
      Traced(deleted, held, inserted)
    }

    ghost predicate TotalsOk()
      reads `usage, `deleted, `lruItems, `inUseItems, `held, `inserted
    {
      UsageOk() && TraceOk()
    }

    ghost predicate Valid()
      reads this, lru, inUse, held.Keys, table, table.list, table.handles
    {
      ListsOk() && CountsOk(null) && TableOk({}) && TotalsOk()
    }

    /** Everything the cache may change. */
    ghost function Repr(): (r: set<object>)
      reads this, table
    {
      {this, lru, inUse, table, table.list} + held.Keys
    }

    constructor ()
      ensures Valid() && fresh(Repr()) && capacity == 0
      ensures usage == 0
      ensures lruItems == [] && inUseItems == [] && held == map[] && deleted == [] && inserted == {}
    {
      hide ListsOk;
      hide CountsOk;
      hide TableOk;
      hide TotalsOk;
      hide HandleTable.Valid;
      capacity, usage, deleted := 0, 0, [];
      lruItems, inUseItems, held, inserted := [], [], map[], {};
      var l := new LRUHandle([], 0, [], 0, 0);
      var u := new LRUHandle([], 0, [], 0, 0);
      l.next, l.prev := l, l;
      u.next, u.prev := u, u;
      lru, inUse := l, u;
      table := new HandleTable();
      new;
      StartsOk();
    }

    lemma StartsOk()
      requires lruItems == [] && inUseItems == [] && held == map[] && deleted == [] && usage == 0 && inserted == {}
      requires lru != inUse && lru.next == lru && lru.prev == lru
      requires inUse.next == inUse && inUse.prev == inUse
      requires table.Valid() && table.handles == {}
      ensures ListsOk() && CountsOk(null) && TableOk({})
      ensures TotalsOk()
    {
      hide HandleTable.Valid;
      assert Elems([]) == {};
    }

    method SetCapacity(capacity: nat)
      requires Valid()
      modifies `capacity
      ensures Valid() && this.capacity == capacity
    {
      hide ListsOk;
      hide CountsOk;
      hide TableOk;
      hide TotalsOk;
      this.capacity := capacity;
    }

    /** An entry that is cached is on the one list if only the cache refers to it, and on the other if clients do. */
    lemma RefsTellList(h: LRUHandle)
      requires Valid() && h in held
      ensures h in lruItems <==> h.inCache && h.refs == 1
      ensures h in inUseItems <==> h.inCache && h.refs >= 2
      ensures h.inCache <==> h in table.handles
      ensures h.refs >= 1
    {
      hide Ring;
      assert CountOk(h, null);
      assert h in Elems(lruItems) <==> h in lruItems;
      assert h in Elems(inUseItems) <==> h in inUseItems;
    }

    lemma InElems(h: LRUHandle)
      ensures h in Elems(lruItems) <==> h in lruItems
      ensures h in Elems(inUseItems) <==> h in inUseItems
    {
    }

    method Ref(e: LRUHandle)
      requires ListsOk() && CountsOk(null) && TotalsOk()
      requires e in held
      modifies `lruItems, `inUseItems, `held, lru`next, lru`prev, inUse`next, inUse`prev, held.Keys`next,
        held.Keys`prev, e`refs
      ensures ListsOk() && CountsOk(null) && TotalsOk()
      ensures Listed() == old(Listed())
      ensures held == old(held)[e := old(held)[e] + 1]
      ensures if e in old(lruItems) then lruItems == Drop(old(lruItems), e) && inUseItems == old(inUseItems) + [e]
        else lruItems == old(lruItems) && inUseItems == old(inUseItems)
    {
      hide Traced;
      hide UsageOk;
      hide HandleTable.Valid;
      hide Ring;
      hide Drop;
      hide Charge;
      hide Distinct;
      hide Elems;
      assert CountOk(e, null);
      InElems(e);
      if e.refs == 1 && e.inCache {
        MoveToInUse(e);
      }
      assert e !in Elems(lruItems);
      AddRef(e);
    }

    method AddRef(e: LRUHandle)
      requires ListsOk() && TotalsOk() && e in held
      requires e !in Elems(lruItems)
      requires e.refs == held[e] + (if e.inCache then 1 else 0) && (e.inCache <==> e in Listed())
      requires forall h | h in held && h != e :: CountOk(h, null)
      modifies `held, e`refs
      ensures ListsOk() && CountsOk(null) && TotalsOk()
      ensures held == old(held)[e := old(held)[e] + 1]
    {
      hide Traced;
      hide UsageOk;
      hide Ring;
      hide Elems;
      e.refs := e.refs + 1;
      CountKeeps(deleted, held, inserted, e, held[e] + 1);
      held := held[e := held[e] + 1];
    }

    method MoveToInUse(e: LRUHandle)
      requires ListsOk() && TotalsOk() && e in lruItems
      modifies `lruItems, `inUseItems, lru`next, lru`prev, inUse`next, inUse`prev, held.Keys`next, held.Keys`prev
      ensures ListsOk() && TotalsOk() && Listed() == old(Listed())
      ensures lruItems == Drop(old(lruItems), e) && inUseItems == old(inUseItems) + [e]
      ensures Elems(lruItems) == Elems(old(lruItems)) - {e}
    {
      hide Ring;
      hide Drop;
      hide Charge;
      hide Distinct;
      assert e in Elems(lruItems);
      Unlink(e, lru, lruItems);
      lruItems := Drop(lruItems, e);
      LruAppend(inUse, e, inUseItems);
      ChargeAppends(inUseItems, e);
      assert Elems(inUseItems + [e]) == Elems(inUseItems) + {e};
      inUseItems := inUseItems + [e];
    }

    /**
     Drops one reference; the last one frees the entry, and the last one of a client makes it the newest on the LRU
     list.
     */
    method Unref(e: LRUHandle)
      requires ListsOk() && CountsOk(e) && TotalsOk()
      requires e in held
      modifies `lruItems, `inUseItems, `held, `deleted, lru`next, lru`prev, inUse`next, inUse`prev
      modifies held.Keys`next, held.Keys`prev, e`refs
      ensures ListsOk() && CountsOk(null) && TotalsOk()
      ensures Listed() == old(Listed())
      ensures if !e.inCache && old(held)[e] == 0 then held == old(held) - {e} && deleted == old(deleted) + [e]
        else held == old(held) && deleted == old(deleted)
      ensures if e.inCache && old(held)[e] == 0 then lruItems == old(lruItems) + [e]
        && inUseItems == Drop(old(inUseItems), e)
        else lruItems == old(lruItems) && inUseItems == old(inUseItems)
    {
      hide Traced;
      hide UsageOk;
      hide Ring;
      hide Drop;
      hide Charge;
      hide Distinct;
      hide Elems;
      assert CountOk(e, e);
      e.refs := e.refs - 1;
      if e.refs == 0 {
        DeleteKeeps(deleted, held, inserted, e);
        deleted := deleted + [e];
        held := held - {e};
      } else if e.inCache && e.refs == 1 {
        MoveToLru(e);
      }
    }

    method MoveToLru(e: LRUHandle)
      requires ListsOk() && TotalsOk() && e in Elems(inUseItems)
      modifies `lruItems, `inUseItems, lru`next, lru`prev, inUse`next, inUse`prev, held.Keys`next, held.Keys`prev
      ensures ListsOk() && TotalsOk() && Listed() == old(Listed())
      ensures inUseItems == Drop(old(inUseItems), e) && lruItems == old(lruItems) + [e]
      ensures Elems(lruItems) == Elems(old(lruItems)) + {e}
    {
      hide Ring;
      hide Drop;
      hide Charge;
      hide Distinct;
      Unlink(e, inUse, inUseItems);
      inUseItems := Drop(inUseItems, e);
      LruAppend(lru, e, lruItems);
      ChargeAppends(lruItems, e);
      assert Elems(lruItems + [e]) == Elems(lruItems) + {e};
      lruItems := lruItems + [e];
    }

    /** The cache lets go of an entry; its reference is still counted. */
    method LetGo(e: LRUHandle)
      requires ListsOk() && CountsOk(null) && TotalsOk()
      requires e in Listed()
      modifies `lruItems, `inUseItems, `usage, lru`next, lru`prev, inUse`next, inUse`prev
      modifies held.Keys`next, held.Keys`prev, e`inCache
      ensures ListsOk() && CountsOk(e) && TotalsOk()
      ensures e in held && !e.inCache
      ensures lruItems == Drop(old(lruItems), e) && inUseItems == Drop(old(inUseItems), e)
      ensures usage == old(usage) - e.charge
      ensures Listed() == old(Listed()) - {e}
    {
      hide Traced;
      hide Elems;
      hide Ring;
      hide Drop;
      hide Charge;
      hide Distinct;
      hide TraceOk;
      assert CountOk(e, null);
      LeaveList(e);
      e.inCache := false;
      usage := usage - e.charge;
    }

    /** Finishes taking an entry out of the cache; it has left the hash table already. */
    method FinishErase(e: LRUHandle?) returns (erased: bool)
      requires ListsOk() && CountsOk(null) && TotalsOk()
      requires if e == null then TableOk({}) else TableOk({e}) && e in Listed()
      modifies `lruItems, `inUseItems, `held, `deleted, `usage, lru`next, lru`prev, inUse`next, inUse`prev
      modifies held.Keys`next, held.Keys`prev, held.Keys`refs, held.Keys`inCache
      ensures ListsOk() && CountsOk(null) && TotalsOk()
      ensures TableOk({}) && erased == (e != null)
      ensures e == null ==>
        lruItems == old(lruItems) && inUseItems == old(inUseItems) && held == old(held) && deleted == old(deleted)
        && usage == old(usage)
      ensures e != null ==>
        && lruItems == Drop(old(lruItems), e) && inUseItems == Drop(old(inUseItems), e)
        && usage == old(usage) - e.charge
        && if old(held)[e] == 0 then held == old(held) - {e} && deleted == old(deleted) + [e]
          else held == old(held) && deleted == old(deleted)
    {
      hide ListsOk;
      hide CountsOk;
      hide TotalsOk;
      hide Elems;
      hide Drop;
      hide HandleTable.Valid;
      if e != null {
        ListedIsHeld();
        LetGo(e);
        Unref(e);
      }
      erased := e != null;
    }

    method LeaveList(e: LRUHandle)
      requires ListsOk() && e in Listed()
      modifies `lruItems, `inUseItems, lru`next, lru`prev, inUse`next, inUse`prev, held.Keys`next, held.Keys`prev
      ensures ListsOk() && lruItems == Drop(old(lruItems), e) && inUseItems == Drop(old(inUseItems), e)
      ensures Elems(lruItems) == Elems(old(lruItems)) - {e} && Elems(inUseItems) == Elems(old(inUseItems)) - {e}
      ensures Charge(old(lruItems)) + Charge(old(inUseItems)) == e.charge + Charge(lruItems) + Charge(inUseItems)
    {
      hide Ring;
      hide Drop;
      hide Charge;
      hide Distinct;
      InElems(e);
      ghost var onLru := e in lruItems;
      DropAbsent(if onLru then inUseItems else lruItems, e);
      Unlink(e, if onLru then lru else inUse, if onLru then lruItems else inUseItems);
      lruItems, inUseItems := Drop(lruItems, e), Drop(inUseItems, e);
    }

    /** The cached entry with the key; the caller gets a reference to it. */
    method Lookup(key: Bytes, hash: Word) returns (e: LRUHandle?)
      requires Valid()
      modifies Repr()
      ensures Valid() && table.handles == old(table.handles) && deleted == old(deleted)
      ensures usage == old(usage) && capacity == old(capacity) && inserted == old(inserted)
      ensures table.list == old(table.list)
      ensures e == null ==>
        && (forall h | h in old(table.handles) :: !HasKey(h, key, hash))
        && lruItems == old(lruItems) && inUseItems == old(inUseItems) && held == old(held)
      ensures e != null ==>
        && e in table.handles && HasKey(e, key, hash) && held == old(held)[e := old(held)[e] + 1]
        && if e in old(lruItems) then lruItems == Drop(old(lruItems), e) && inUseItems == old(inUseItems) + [e]
           else lruItems == old(lruItems) && inUseItems == old(inUseItems)
    {
      hide Ring;
      hide Drop;
      hide Charge;
      hide Distinct;
      hide Elems;
      hide HandleTable.Valid;
      hide TotalsOk;
      hide CountsOk;
      e := table.Lookup(key, hash);
      if e != null {
        Ref(e);
      }
    }

    /** A client gives back a reference it holds. */
    method Release(e: LRUHandle)
      requires Valid() && e in held && held[e] > 0
      modifies Repr()
      ensures Valid() && table.handles == old(table.handles) && usage == old(usage)
      ensures capacity == old(capacity) && table.list == old(table.list)
      ensures inserted == old(inserted)
      ensures old(held)[e] > 1 ==>
        held == old(held)[e := old(held)[e] - 1] && deleted == old(deleted) && lruItems == old(lruItems)
          && inUseItems == old(inUseItems)
      ensures old(held)[e] == 1 && e in table.handles ==>
        held == old(held)[e := 0] && deleted == old(deleted) && lruItems == old(lruItems) + [e]
          && inUseItems == Drop(old(inUseItems), e)
      ensures old(held)[e] == 1 && e !in table.handles ==>
        held == old(held) - {e} && deleted == old(deleted) + [e] && lruItems == old(lruItems)
          && inUseItems == old(inUseItems)
    {
      hide Traced;
      hide UsageOk;
      hide Ring;
      hide Drop;
      hide Charge;
      hide Distinct;
      hide Elems;
      hide HandleTable.Valid;
      assert CountOk(e, null);
      CountKeeps(deleted, held, inserted, e, held[e] - 1);
      held := held[e := held[e] - 1];
      Unref(e);
    }

    /** The entry with the key leaves the cache; it lives on while clients hold references. */
    method Erase(key: Bytes, hash: Word)
      requires Valid()
      modifies Repr()
      ensures Valid() && capacity == old(capacity) && table.list == old(table.list)
      ensures inserted == old(inserted)
      ensures State() == ErasedKey(old(State()), old(table.handles), key, hash)
    {
      hide Ring;
      hide Drop;
      hide Charge;
      hide Distinct;
      hide Elems;
      hide TotalsOk;
      hide CountsOk;
      hide HandleTable.Valid;
      table.KeysAreUnique();
      var e := table.Remove(key, hash);
      var erased := FinishErase(e);
    }

    lemma Oldest()
      requires ListsOk()
      ensures lru.next == if lruItems == [] then lru else lruItems[0]
      ensures lruItems != [] ==> lruItems[0] != lru && lruItems[0] in Elems(lruItems)
    {
      assert Linked(At(lru, lruItems, 0), At(lru, lruItems, 0 + 1));
    }

    /** Evicts the oldest entry that no client uses. */
    method EvictOldest()
      requires Valid() && lruItems != []
      modifies Repr()
      ensures Valid() && capacity == old(capacity) && table.list == old(table.list)
      ensures inserted == old(inserted)
      ensures State() == Evicted(old(State()), 1) && usage == old(usage) - old(lruItems)[0].charge
    {
      hide Ring;
      hide Charge;
      hide Distinct;
      hide Elems;
      hide TotalsOk;
      hide HandleTable.Valid;
      Oldest();
      var e := lru.next;
      assert CountOk(e, null);
      table.KeysAreUnique();
      assert e in Listed() && e in table.handles && HasKey(e, e.key, e.hash);
      var removed := table.Remove(e.key, e.hash);
      assert removed == e;
      InElems(e);
      EvictOne(State());
      var erased := FinishErase(removed);
    }

    /** The new entry goes into the cache; one with the same key leaves it. */
    method AddToCache(e: LRUHandle)
      requires Valid() && IsNew(e)
      modifies Repr(), e
      ensures Valid() && capacity == old(capacity)
      ensures table.list == old(table.list) || fresh(table.list)
      ensures held.Keys <= old(held.Keys) + {e} && inserted == old(inserted) + {e}
      ensures State() == ErasedKey(old(State()).(inUse := old(inUseItems) + [e], held := old(held)[e := 1]),
        old(table.handles), e.key, e.hash)
    {
      hide ListsOk;
      hide CountsOk;
      hide TotalsOk;
      hide Drop;
      hide Elems;
      hide HandleTable.Valid;
      ListedIsHeld();
      Enter(e);
      table.KeysAreUnique();
      var was := table.Insert(e);
      var erased := FinishErase(was);
    }

    lemma ListedIsHeld()
      requires ListsOk()
      ensures Listed() <= held.Keys && Elems(inUseItems) <= Listed()
      ensures TableOk({}) ==> table.handles == Listed()
    {
      hide Ring;
      hide HandleTable.Valid;
    }

    ghost predicate IsNew(e: LRUHandle)
      reads `held, `deleted, e`refs, e`inCache
    {
      e !in held && e !in deleted && e != lru && e != inUse && e.refs == 1 && !e.inCache
    }

    /** On the list, but not in the table yet. */
    method Enter(e: LRUHandle)
      requires Valid() && IsNew(e)
      modifies `inUseItems, `held, `inserted, `usage, inUse`next, inUse`prev, Elems(inUseItems)`next,
        Elems(inUseItems)`prev, e`next, e`prev, e`refs, e`inCache
      ensures ListsOk() && CountsOk(null) && TotalsOk()
      ensures TableOk({e}) && table.handles == old(table.handles) && e !in table.handles
      ensures inserted == old(inserted) + {e}
      ensures State() == old(State()).(inUse := old(inUseItems) + [e], held := old(held)[e := 1])
      ensures Listed() == old(Listed()) + {e}
    {
      hide Traced;
      hide Elems;
      hide Ring;
      hide Charge;
      hide Distinct;
      hide HandleTable.Valid;
      ListedIsHeld();
      InsertKeeps(deleted, held, inserted, e);
      assert e !in Listed();
      e.refs := e.refs + 1;
      e.inCache := true;
      LinkNew(e);
      inserted := inserted + {e};
      usage := usage + e.charge;
    }

    /** Caching is turned off: only the caller refers to the new entry. */
    method LeaveOut(e: LRUHandle)
      requires Valid() && IsNew(e)
      modifies `held, `inserted, e`next
      ensures Valid() && inserted == old(inserted) + {e} && State() == old(State()).(held := old(held)[e := 1])
    {
      hide Traced;
      hide Ring;
      hide Charge;
      hide Distinct;
      hide HandleTable.Valid;
      InsertKeeps(deleted, held, inserted, e);
      assert e !in Listed();
      e.next := null;
      held := held[e := 1];
      inserted := inserted + {e};
    }

    method LinkNew(e: LRUHandle)
      requires ListsOk() && e !in held && e != lru
      requires e != inUse
      modifies `inUseItems, `held, inUse`next, inUse`prev, Elems(inUseItems)`next, Elems(inUseItems)`prev, e`next,
        e`prev
      ensures ListsOk() && inUseItems == old(inUseItems) + [e] && held == old(held)[e := 1]
      ensures Elems(inUseItems) == Elems(old(inUseItems)) + {e}
      ensures Charge(inUseItems) == Charge(old(inUseItems)) + e.charge
    {
      hide Ring;
      hide Charge;
      hide Distinct;
      assert e !in Listed();
      ChargeAppends(inUseItems, e);
      LruAppend(inUse, e, inUseItems);
      inUseItems := inUseItems + [e];
      held := held[e := 1];
    }

    /**
     A new entry, referenced by the caller; unless caching is turned off it is cached in place of the one with its key.
     Then the oldest unused entries leave, as few as make the cache fit.
     */
    method Insert(key: Bytes, hash: Word, value: Bytes, charge: nat) returns (e: LRUHandle)
      requires Valid()
      modifies Repr()
      ensures Valid() && fresh(e) && e.key == key
      ensures e.hash == hash && e.value == value && e.charge == charge
      ensures capacity == old(capacity) && inserted == old(inserted) + {e}
      ensures var s := old(State()).(held := old(held)[e := 1]);
        var added := if capacity == 0 then s else ErasedKey(s.(inUse := s.inUse + [e]), old(table.handles), key, hash);
        State() == Evicted(added, EvictCount(added.lru, Total(added), capacity))
      ensures usage <= capacity || lruItems == []
    {
      hide ListsOk;
      hide CountsOk;
      hide TableOk;
      hide TotalsOk;
      hide ErasedKey;
      hide Erased;
      e := new LRUHandle(key, hash, value, charge, 1);
      if capacity > 0 {
        AddToCache(e);
      } else {
        LeaveOut(e);
      }
      EvictDownTo();
    }

    /** Evicts until the cache fits or nothing is left to evict. */
    method EvictDownTo()
      requires Valid()
      modifies Repr()
      ensures Valid() && capacity == old(capacity) && table.list == old(table.list)
      ensures (usage <= capacity || lruItems == []) && inserted == old(inserted)
      ensures State() == Evicted(old(State()), EvictCount(old(lruItems), Total(old(State())), capacity))
    {
      hide ListsOk;
      hide CountsOk;
      hide TableOk;
      hide TraceOk;
      hide Charge;
      hide Elems;
      hide Ring;
      hide HandleTable.Valid;
      ghost var s, n := State(), 0;
      Oldest();
      EvictNone(s);
      assert s.lru[0..] == s.lru;
      while usage > capacity && lru.next != lru
        invariant Valid() && capacity == old(capacity) && table.list == old(table.list)
        invariant inserted == old(inserted)
        invariant n <= |s.lru| && State() == Evicted(s, n) && (lru.next == lru <==> lruItems == [])
        invariant EvictCount(s.lru, Total(s), capacity) == n + EvictCount(s.lru[n..], usage, capacity)
        decreases |lruItems|
      {
        EvictMore(s, n);
        EvictOldest();
        Oldest();
        assert s.lru[n..][1..] == s.lru[n + 1..];
        n := n + 1;
      }
    }

    /** Every entry ever inserted is either alive or has had its deleter run, and no deleter runs twice. */
    lemma DeletedOnce(e: LRUHandle)
      requires Valid()
      ensures forall i, j | 0 <= i < j < |deleted| :: deleted[i] != deleted[j]
      ensures e in inserted <==> e in held || e in deleted
      ensures !(e in held && e in deleted)
    {
      hide Ring;
      assert e in Elems(deleted) <==> e in deleted;
    }

    /** The destructor: no client may hold a cached entry any more; what the cache holds is deleted. */
    method Destroy()
      requires Valid() && inUseItems == []
      modifies Repr()
      ensures State() == old(State()).(held := old(held) - Elems(old(lruItems)),
        deleted := old(deleted) + old(lruItems))
      ensures TraceOk() && inserted == old(inserted)
    {
      hide Traced;
      hide Ring;
      hide Distinct;
      hide Charge;
      hide HandleTable.Valid;
      hide TraceOk;
      ghost var s, n := State(), 0;
      Oldest();
      OnlyTheCacheHolds();
      EvictNone(s);
      assert s.deleted + s.lru[..0] == s.deleted;
      var e := lru.next;
      while e != lru
        invariant n <= |s.lru| && e == NextOf(lru, s.lru, n) && Ring(lru, s.lru)
        invariant lruItems == s.lru && inUseItems == s.inUse && inserted == old(inserted)
        invariant TraceOk()
        invariant deleted == s.deleted + s.lru[..n] && held == s.held - Elems(s.lru[..n])
        invariant forall k | n <= k < |s.lru| :: s.lru[k] in held && s.lru[k].refs == 1
        decreases |s.lru| - n
      {
        EvictMore(s, n);
        NextInRing(lru, s.lru, n);
        e := DestroyOne(e, n);
        n := n + 1;
      }
      assert s.lru[..n] == s.lru;
    }

    /** Drops the last reference to an entry and goes on to the next one. */
    method DestroyOne(e: LRUHandle, ghost n: nat) returns (next: LRUHandle)
      requires Ring(lru, lruItems) && n < |lruItems| && e == lruItems[n]
      requires TraceOk() && e in held && e.refs == 1
      modifies `held, `deleted, e`refs, e`inCache
      ensures Ring(lru, lruItems) && next == NextOf(lru, lruItems, n + 1)
      ensures TraceOk() && held == old(held) - {e} && deleted == old(deleted) + [e]
    {
      hide Traced;
      hide Ring;
      NextInRing(lru, lruItems, n);
      DeleteKeeps(deleted, held, inserted, e);
      next := e.next;
      e.inCache := false;
      e.refs := e.refs - 1;
      if e.refs == 0 {
        deleted := deleted + [e];
        held := held - {e};
      }
    }

    lemma OnlyTheCacheHolds()
      requires Valid()
      ensures forall k | 0 <= k < |lruItems| :: lruItems[k] in held && lruItems[k].refs == 1
    {
      hide Ring;
      forall k | 0 <= k < |lruItems| ensures lruItems[k] in held && lruItems[k].refs == 1 {
        assert lruItems[k] in Elems(lruItems);
        assert CountOk(lruItems[k], null);
      }
    }

    method Prune()
      requires Valid()
      modifies Repr()
      ensures Valid() && capacity == old(capacity) && inserted == old(inserted)
      ensures State() == Evicted(old(State()), |old(lruItems)|)
    {
      hide ListsOk;
      hide CountsOk;
      hide TableOk;
      hide TotalsOk;
      ghost var s, n := State(), 0;
      Oldest();
      EvictNone(s);
      while lru.next != lru
        invariant Valid() && capacity == old(capacity) && table.list == old(table.list)
        invariant inserted == old(inserted)
        invariant n <= |s.lru| && State() == Evicted(s, n) && (lru.next == lru <==> lruItems == [])
        decreases |lruItems|
      {
        EvictMore(s, n);
        EvictOldest();
        Oldest();
        n := n + 1;
      }
    }
  }

  /** Every entry ever inserted is alive or has had its deleter run, once. */
  ghost predicate Traced(deleted: seq<LRUHandle>, held: map<LRUHandle, nat>, inserted: set<LRUHandle>) {
    Distinct(deleted) && Elems(deleted) !! held.Keys && inserted == held.Keys + Elems(deleted)
  }

  lemma InsertKeeps(deleted: seq<LRUHandle>, held: map<LRUHandle, nat>, inserted: set<LRUHandle>, e: LRUHandle)
    requires Traced(deleted, held, inserted) && e !in held && e !in deleted
    ensures Traced(deleted, held[e := 1], inserted + {e})
  {
  }

  lemma CountKeeps(deleted: seq<LRUHandle>, held: map<LRUHandle, nat>, inserted: set<LRUHandle>, e: LRUHandle, n: nat)
    requires Traced(deleted, held, inserted) && e in held
    ensures Traced(deleted, held[e := n], inserted)
  {
    assert held[e := n].Keys == held.Keys;
  }

  lemma DeleteKeeps(deleted: seq<LRUHandle>, held: map<LRUHandle, nat>, inserted: set<LRUHandle>, e: LRUHandle)
    requires Traced(deleted, held, inserted) && e in held
    ensures Traced(deleted + [e], held - {e}, inserted)
  {
    assert forall i | 0 <= i < |deleted| :: deleted[i] in Elems(deleted);
  }
}
