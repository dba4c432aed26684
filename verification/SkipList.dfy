/**
 The skip list (skiplist.h) as a step model: one writer, any number of readers that run while it links a node, every
 pointer store a step of its own.  Pointers are indices into the arena; node 0 is `head_`.
 */
module SkipLists {

  /** The rank of a key in the order of the list's comparator. */
  type Key = real

  const MAX_HEIGHT := 12

  datatype Pointer = Null | To(node: nat)

  /** `next[l]` is the successor at level l; there are as many as the node is high. */
  datatype Node = Node(key: Key, next: seq<Pointer>)

  datatype List = List(nodes: seq<Node>, maxHeight: nat)

  // ----- what the links mean -----

  ghost predicate Before(nodes: seq<Node>, a: nat, b: nat) {
    a < |nodes| && 0 < b < |nodes| && (a == 0 || nodes[a].key < nodes[b].key)
  }

  ghost predicate Links(nodes: seq<Node>, l: nat, chain: seq<nat>, k: nat) {
    k < |chain| && chain[k] < |nodes| && l < |nodes[chain[k]].next|
    && nodes[chain[k]].next[l] == if k + 1 < |chain| then To(chain[k + 1]) else Null
  }

  /** `chain` is what a walk from the head along level l visits, the head first, in ascending order of keys. */
  ghost predicate ChainOk(nodes: seq<Node>, l: nat, chain: seq<nat>) {
    && |chain| > 0 && chain[0] == 0
    && (forall i, j {:trigger Before(nodes, chain[i], chain[j])} | 0 <= i < j < |chain| ::
      Before(nodes, chain[i], chain[j]))
    && (forall k {:trigger Links(nodes, l, chain, k)} | 0 <= k < |chain| :: Links(nodes, l, chain, k))
  }

  /** Every level is a sublist of the one below. */
  ghost predicate Nested(chains: seq<seq<nat>>) {
    forall l, x {:trigger x in chains[l]} | 0 < l < |chains| && x in chains[l] :: x in chains[l - 1]
  }

  ghost predicate ListOk(list: List, chains: seq<seq<nat>>) {
    && |chains| == MAX_HEIGHT && 1 <= list.maxHeight <= MAX_HEIGHT
    && (forall l {:trigger chains[l]} | 0 <= l < MAX_HEIGHT :: ChainOk(list.nodes, l, chains[l]))
    && Nested(chains)
    && (forall l {:trigger chains[l]} | list.maxHeight <= l < MAX_HEIGHT :: chains[l] == [0])
  }

  /** The set the list stands for: the keys on level 0. */
  ghost function KeysOf(nodes: seq<Node>, chain: seq<nat>): (r: set<Key>)
    requires forall x | x in chain :: x < |nodes|
  {
    set x | x in chain && x != 0 :: nodes[x].key
  }

  lemma ChainNodes(nodes: seq<Node>, l: nat, chain: seq<nat>, x: nat)
    requires ChainOk(nodes, l, chain) && x in chain
    ensures x < |nodes| && l < |nodes[x].next|
  {
    var k :| 0 <= k < |chain| && chain[k] == x;
    assert Links(nodes, l, chain, k);
  }

  ghost function Keys(list: List, chains: seq<seq<nat>>): (r: set<Key>)
    requires ListOk(list, chains)
  {
    forall x | x in chains[0] ensures x < |list.nodes| { ChainNodes(list.nodes, 0, chains[0], x); }
    KeysOf(list.nodes, chains[0])
  }

  // ----- searching -----

  /** KeyIsAfterNode; a null pointer counts as infinite. */
  predicate KeyIsAfter(nodes: seq<Node>, key: Key, p: Pointer)
    requires p.To? ==> p.node < |nodes|
  {
    p.To? && nodes[p.node].key < key
  }

  /** A search stands on a node of its level, and before its target. */
  ghost predicate StandsBefore(nodes: seq<Node>, chain: seq<nat>, x: nat, target: Key) {
    x in chain && x < |nodes| && (x == 0 || nodes[x].key < target)
  }

  /** `p` is the first node whose key is at or after the target, among the keys of `keys`. */
  ghost predicate IsFirstAtOrAfter(nodes: seq<Node>, chain: seq<nat>, target: Key, p: Pointer, keys: set<Key>) {
    && (p.To? ==> p.node in chain && 0 < p.node < |nodes| && nodes[p.node].key >= target)
    && forall k | k in keys && k >= target :: p.To? && p.node < |nodes| && nodes[p.node].key <= k
  }

  /** What one load on level l tells a search: the successor is on the level, or there is none. */
  lemma LoadOnLevel(nodes: seq<Node>, l: nat, chain: seq<nat>, x: nat, target: Key)
    requires ChainOk(nodes, l, chain) && StandsBefore(nodes, chain, x, target) && l < |nodes[x].next|
    ensures var p := nodes[x].next[l];
      && (p.To? ==> p.node in chain && 0 < p.node < |nodes|)
      && (p.To? && nodes[p.node].key < target ==> StandsBefore(nodes, chain, p.node, target))
  {
    var k :| 0 <= k < |chain| && chain[k] == x;
    assert Links(nodes, l, chain, k);
    assert k + 1 < |chain| ==> Before(nodes, chain[k], chain[k + 1]);
  }

  /** The load that ends a search gives the first key at or after the target in the list as it is at that moment. */
  lemma LastLoad(nodes: seq<Node>, chain: seq<nat>, x: nat, target: Key)
    requires ChainOk(nodes, 0, chain) && StandsBefore(nodes, chain, x, target) && 0 < |nodes[x].next|
    requires forall y | y in chain :: y < |nodes|
    requires var p := nodes[x].next[0]; p.To? ==> p.node < |nodes| && !KeyIsAfter(nodes, target, p)
    ensures IsFirstAtOrAfter(nodes, chain, target, nodes[x].next[0], KeysOf(nodes, chain))
  {
    var k :| 0 <= k < |chain| && chain[k] == x;
    assert Links(nodes, 0, chain, k);
    LoadOnLevel(nodes, 0, chain, x, target);
    forall y | y in chain && y != 0 && nodes[y].key >= target
      ensures k + 1 < |chain| && nodes[chain[k + 1]].key <= nodes[y].key
    {
      var j :| 0 <= j < |chain| && chain[j] == y;
      assert j < k ==> Before(nodes, chain[j], chain[k]);
      assert j > k + 1 ==> Before(nodes, chain[k + 1], chain[j]);
    }
  }

  // ----- linking -----

  /** The new node x belongs between `prev` and its successor on the chain. */
  ghost predicate BelongsAfter(nodes: seq<Node>, chain: seq<nat>, prev: nat, x: nat) {
    exists k {:trigger chain[k]} :: 0 <= k < |chain| && chain[k] == prev && Before(nodes, prev, x)
      && (k + 1 < |chain| ==> Before(nodes, x, chain[k + 1]))
  }

  ghost function Spliced(chain: seq<nat>, prev: nat, x: nat): (r: seq<nat>)
    requires prev in chain
  {
    var k :| 0 <= k < |chain| && chain[k] == prev;
    chain[..k + 1] + [x] + chain[k + 1..]
  }

  function SetNext(nodes: seq<Node>, x: nat, l: nat, p: Pointer): (r: seq<Node>)
    requires x < |nodes| && l < |nodes[x].next|
    ensures |r| == |nodes|
    ensures forall y | 0 <= y < |nodes| :: r[y].key == nodes[y].key && |r[y].next| == |nodes[y].next|
    ensures forall y, m | 0 <= y < |nodes| && 0 <= m < |nodes[y].next| ::
      r[y].next[m] == if y == x && m == l then p else nodes[y].next[m]
  {
    nodes[x := nodes[x].(next := nodes[x].next[l := p])]
  }

  /** Stores on one level leave the chains of the others alone, and a node that is not linked may be written freely. */
  lemma OtherChains(nodes: seq<Node>, x: nat, l: nat, p: Pointer, m: nat, chain: seq<nat>)
    requires x < |nodes| && l < |nodes[x].next| && ChainOk(nodes, m, chain)
    requires m != l || x !in chain
    ensures ChainOk(SetNext(nodes, x, l, p), m, chain)
  {
    var nodes' := SetNext(nodes, x, l, p);
    forall i, j | 0 <= i < j < |chain| ensures Before(nodes', chain[i], chain[j]) {
      assert Before(nodes, chain[i], chain[j]);
    }
    forall k | 0 <= k < |chain| ensures Links(nodes', m, chain, k) {
      assert Links(nodes, m, chain, k);
    }
  }

  /** The store that links x on level l splices it into the chain. */
  lemma LinkSplices(nodes: seq<Node>, l: nat, chain: seq<nat>, prev: nat, x: nat)
    requires ChainOk(nodes, l, chain) && BelongsAfter(nodes, chain, prev, x) && x !in chain
    requires x < |nodes| && l < |nodes[x].next| && prev < |nodes|
    requires l < |nodes[prev].next|
    requires nodes[x].next[l] == nodes[prev].next[l]
    ensures ChainOk(SetNext(nodes, prev, l, To(x)), l, Spliced(chain, prev, x))
    ensures forall y :: y in Spliced(chain, prev, x) <==> y in chain || y == x
  {
    var nodes' := SetNext(nodes, prev, l, To(x));
    var spliced := Spliced(chain, prev, x);
    var k :| 0 <= k < |chain| && chain[k] == prev && spliced == chain[..k + 1] + [x] + chain[k + 1..];
    PositionIsUnique(nodes, l, chain, prev, k);
    forall i, j | 0 <= i < j < |spliced| ensures Before(nodes', spliced[i], spliced[j]) {
      SplicedOrder(nodes, l, chain, prev, x, k, spliced, i, j);
      assert Before(nodes, spliced[i], spliced[j]);
    }
    forall i | 0 <= i < |spliced| ensures Links(nodes', l, spliced, i) {
      SplicedLinks(nodes, l, chain, prev, x, k, spliced, i);
    }
  }

  lemma SplicedLinks(nodes: seq<Node>, l: nat, chain: seq<nat>, prev: nat, x: nat, k: nat, spliced: seq<nat>, i: nat)
    requires ChainOk(nodes, l, chain) && x !in chain && k < |chain|
    requires chain[k] == prev
    requires forall m | 0 <= m < |chain| && chain[m] == prev :: m == k
    requires x < |nodes| && l < |nodes[x].next| && prev < |nodes|
    requires l < |nodes[prev].next|
    requires nodes[x].next[l] == nodes[prev].next[l]
    requires spliced == chain[..k + 1] + [x] + chain[k + 1..] && i < |spliced|
    ensures Links(SetNext(nodes, prev, l, To(x)), l, spliced, i)
  {
    assert Links(nodes, l, chain, k);
    if i <= k {
      assert Links(nodes, l, chain, i);
    } else if i > k + 1 {
      assert Links(nodes, l, chain, i - 1);
    }
  }

  lemma PositionIsUnique(nodes: seq<Node>, l: nat, chain: seq<nat>, x: nat, k: nat)
    requires ChainOk(nodes, l, chain) && k < |chain| && chain[k] == x
    ensures forall j | 0 <= j < |chain| && chain[j] == x :: j == k
  {
    forall j | 0 <= j < |chain| && j != k ensures chain[j] != x {
      if j < k { assert Before(nodes, chain[j], chain[k]); } else { assert Before(nodes, chain[k], chain[j]); }
    }
  }

  lemma SplicedOrder(nodes: seq<Node>, l: nat, chain: seq<nat>, prev: nat, x: nat, k: nat, spliced: seq<nat>, i: nat,
      j: nat)
    requires ChainOk(nodes, l, chain) && BelongsAfter(nodes, chain, prev, x) && k < |chain|
    requires chain[k] == prev
    requires forall m | 0 <= m < |chain| && chain[m] == prev :: m == k
    requires spliced == chain[..k + 1] + [x] + chain[k + 1..] && i < j < |spliced|
    ensures Before(nodes, spliced[i], spliced[j])
  {
    if j <= k {
      assert Before(nodes, chain[i], chain[j]);
    } else if i > k + 1 {
      assert Before(nodes, chain[i - 1], chain[j - 1]);
    } else if j == k + 1 {
      assert i < k ==> Before(nodes, chain[i], chain[k]);
    } else if i == k + 1 {
      assert j - 1 > k + 1 ==> Before(nodes, chain[k + 1], chain[j - 1]);
    } else {
      assert Before(nodes, chain[i], chain[j - 1]);
    }
  }

  // ----- the state machine -----

  /** An insert under way: the node to link, where, and on which level next; `own` once its own pointer there is set. */
  datatype Insertion = Insertion(node: nat, prev: seq<nat>, level: nat, own: bool)

  /** A FindGreaterOrEqual under way.  `start` is the set of keys that were in the list when it began. */
  datatype Search = Search(target: Key, at: nat, level: nat, start: set<Key>, answer: Answer)

  datatype Answer = Pending | Found(p: Pointer)

  datatype Option<T> = None | Some(value: T)

  datatype State = State(list: List, chains: seq<seq<nat>>, insertion: Option<Insertion>, readers: map<nat, Search>)

  ghost predicate OwnPointerSet(nodes: seq<Node>, i: Insertion)
    requires i.node < |nodes| && i.level < |i.prev| == |nodes[i.node].next|
  {
    && i.prev[i.level] < |nodes| && i.level < |nodes[i.prev[i.level]].next|
    && nodes[i.node].next[i.level] == nodes[i.prev[i.level]].next[i.level]
  }

  ghost predicate InsertionOk(list: List, chains: seq<seq<nat>>, i: Insertion)
    requires |chains| == MAX_HEIGHT
  {
    && 0 < i.node < |list.nodes| && i.level < |i.prev| == |list.nodes[i.node].next| <= list.maxHeight <= MAX_HEIGHT
    && (forall l {:trigger chains[l]} | i.level <= l < MAX_HEIGHT :: i.node !in chains[l])
    && (forall l {:trigger chains[l]} | 0 <= l < i.level :: i.node in chains[l])
    && (forall l {:trigger chains[l]} | i.level <= l < |i.prev| ::
      BelongsAfter(list.nodes, chains[l], i.prev[l], i.node))
    && (i.own ==> OwnPointerSet(list.nodes, i))
  }

  ghost predicate SearchOk(list: List, chains: seq<seq<nat>>, r: Search)
    requires ListOk(list, chains)
  {
    && r.level < MAX_HEIGHT && StandsBefore(list.nodes, chains[r.level], r.at, r.target)
    && r.start <= Keys(list, chains)
    && (r.answer.Found? ==> IsFirstAtOrAfter(list.nodes, chains[0], r.target, r.answer.p, r.start))
  }

  ghost predicate Inv(s: State) {
    && ListOk(s.list, s.chains)
    && (s.insertion.Some? ==> InsertionOk(s.list, s.chains, s.insertion.value))
    && (forall id {:trigger s.readers[id]} | id in s.readers :: SearchOk(s.list, s.chains, s.readers[id]))
  }

  ghost predicate Init(s: State) {
    && s.list == List([Node(0.0, seq(MAX_HEIGHT, _ => Null))], 1)
    && s.chains == seq(MAX_HEIGHT, _ => [0]) && s.insertion.None? && s.readers == map[]
  }

  ghost predicate PrevOk(list: List, chains: seq<seq<nat>>, prev: seq<nat>, x: nat, nodes: seq<Node>)
    requires |chains| == MAX_HEIGHT && |prev| <= MAX_HEIGHT
  {
    forall l {:trigger chains[l]} | 0 <= l < |prev| :: BelongsAfter(nodes, chains[l], prev[l], x)
  }

  /** Insert up to its first link store: the search for `prev`, the new maximum height and the new node. */
  ghost predicate BeginStep(s: State, s': State) {
    exists key, height: nat, prev :: BegunWith(s, s', key, height, prev)
  }

  ghost predicate BegunWith(s: State, s': State, key: Key, height: nat, prev: seq<nat>) {
    && s.insertion.None? && 1 <= height <= MAX_HEIGHT && |prev| == height && |s.chains| == MAX_HEIGHT
    && var x := |s.list.nodes|;
       var nodes := s.list.nodes + [Node(key, seq(height, _ => Null))];
       && PrevOk(s.list, s.chains, prev, x, nodes)
       && s' == s.(list := List(nodes, if height > s.list.maxHeight then height else s.list.maxHeight),
                   insertion := Some(Insertion(x, prev, 0, false)))
  }

  /** x->NoBarrier_SetNext: the new node's own pointer on the next level. */
  ghost predicate PrepareStep(s: State, s': State) {
    && s.insertion.Some?
    && var i := s.insertion.value;
       && !i.own && i.level < |i.prev| && i.prev[i.level] < |s.list.nodes| && i.node < |s.list.nodes|
       && i.level < |s.list.nodes[i.prev[i.level]].next| && i.level < |s.list.nodes[i.node].next|
       && s' == s.(list := s.list.(nodes := SetNext(s.list.nodes, i.node, i.level,
         s.list.nodes[i.prev[i.level]].next[i.level])),
                   insertion := Some(i.(own := true)))
  }

  /** prev[i]->SetNext: the store that makes the new node visible on the level. */
  ghost predicate PublishStep(s: State, s': State) {
    && s.insertion.Some?
    && var i := s.insertion.value;
       && i.own && i.level < |i.prev| && i.prev[i.level] < |s.list.nodes|
       && i.level < |s.list.nodes[i.prev[i.level]].next|
       && i.level < |s.chains| && i.prev[i.level] in s.chains[i.level]
       && s' == s.(list := s.list.(nodes := SetNext(s.list.nodes, i.prev[i.level], i.level, To(i.node))),
                   chains := s.chains[i.level := Spliced(s.chains[i.level], i.prev[i.level], i.node)],
                   insertion := if i.level + 1 == |i.prev| then None else Some(i.(level := i.level + 1, own := false)))
  }

  /** A reader begins at the head, on the top level of some height it has loaded, which may be stale. */
  ghost predicate SearchStep(s: State, s': State) {
    exists id: nat, target, height: nat :: StartedWith(s, s', id, target, height)
  }

  ghost predicate StartedWith(s: State, s': State, id: nat, target: Key, height: nat) {
    && ListOk(s.list, s.chains) && 1 <= height <= s.list.maxHeight
    && s' == s.(readers := s.readers[id := Search(target, 0, height - 1, Keys(s.list, s.chains), Pending)])
  }

  /** One turn of the loop of FindGreaterOrEqual: one load, then right, down, or done. */
  function Turn(nodes: seq<Node>, r: Search): (result: Search)
    requires r.at < |nodes| && r.level < |nodes[r.at].next|
    requires nodes[r.at].next[r.level].To? ==> nodes[r.at].next[r.level].node < |nodes|
  {
    var next := nodes[r.at].next[r.level];
    if KeyIsAfter(nodes, r.target, next) then r.(at := next.node)
    else if r.level == 0 then r.(answer := Found(next))
    else r.(level := r.level - 1)
  }

  ghost predicate TurnStep(s: State, s': State) {
    exists id :: id in s.readers && TurnOf(s, s', id)
  }

  ghost predicate CanTurn(nodes: seq<Node>, r: Search) {
    && r.answer.Pending? && r.at < |nodes| && r.level < |nodes[r.at].next|
    && (nodes[r.at].next[r.level].To? ==> nodes[r.at].next[r.level].node < |nodes|)
  }

  ghost predicate TurnOf(s: State, s': State, id: nat)
    requires id in s.readers
  {
    var nodes, r := s.list.nodes, s.readers[id];
    CanTurn(nodes, r) && s' == s.(readers := s.readers[id := Turn(nodes, r)])
  }

  ghost predicate Next(s: State, s': State) {
    BeginStep(s, s') || PrepareStep(s, s') || PublishStep(s, s') || SearchStep(s, s') || TurnStep(s, s')
  }

  // ----- the invariant -----

  lemma InitOk(s: State)
    requires Init(s)
    ensures Inv(s)
  {
    forall l | 0 <= l < MAX_HEIGHT ensures ChainOk(s.list.nodes, l, s.chains[l]) {
      assert Links(s.list.nodes, l, s.chains[l], 0);
    }
  }

  /** Appending a node leaves every chain and every search as it was. */
  lemma AppendKeeps(nodes: seq<Node>, node: Node, l: nat, chain: seq<nat>)
    requires ChainOk(nodes, l, chain)
    ensures ChainOk(nodes + [node], l, chain)
  {
    var nodes' := nodes + [node];
    forall i, j | 0 <= i < j < |chain| ensures Before(nodes', chain[i], chain[j]) {
      assert Before(nodes, chain[i], chain[j]);
    }
    forall k | 0 <= k < |chain| ensures Links(nodes', l, chain, k) {
      assert Links(nodes, l, chain, k);
    }
  }

  /** A search stays where it is allowed to stand when nodes keep their keys and chains only grow. */
  lemma SearchSurvives(a: List, ca: seq<seq<nat>>, b: List, cb: seq<seq<nat>>, r: Search)
    requires ListOk(a, ca) && ListOk(b, cb) && SearchOk(a, ca, r)
    requires |a.nodes| <= |b.nodes| && forall y | 0 <= y < |a.nodes| :: b.nodes[y].key == a.nodes[y].key
    requires forall l, y {:trigger y in ca[l]} | 0 <= l < MAX_HEIGHT && y in ca[l] :: y in cb[l]
    ensures SearchOk(b, cb, r) && Keys(a, ca) <= Keys(b, cb)
  {
    forall k | k in Keys(a, ca) ensures k in Keys(b, cb) {
      forall y | y in ca[0] ensures y < |a.nodes| { ChainNodes(a.nodes, 0, ca[0], y); }
      var y :| y in ca[0] && y != 0 && a.nodes[y].key == k;
      assert y in cb[0] && b.nodes[y].key == k;
    }
  }

  lemma BeginKeeps(s: State, s': State)
    requires Inv(s) && BeginStep(s, s')
    ensures Inv(s')
  {
    var key, height: nat, prev :| BegunWith(s, s', key, height, prev);
    ChainNodes(s.list.nodes, 0, s.chains[0], 0);
    forall l | 0 <= l < MAX_HEIGHT ensures ChainOk(s'.list.nodes, l, s.chains[l]) {
      AppendKeeps(s.list.nodes, Node(key, seq(height, _ => Null)), l, s.chains[l]);
    }
    forall l | 0 <= l < MAX_HEIGHT ensures |s.list.nodes| !in s.chains[l] {
      if |s.list.nodes| in s.chains[l] { ChainNodes(s.list.nodes, l, s.chains[l], |s.list.nodes|); }
    }
    forall id | id in s'.readers ensures SearchOk(s'.list, s'.chains, s'.readers[id]) {
      SearchSurvives(s.list, s.chains, s'.list, s'.chains, s.readers[id]);
    }
  }

  lemma BelongsSurvives(nodes: seq<Node>, nodes': seq<Node>, chain: seq<nat>, prev: nat, x: nat)
    requires BelongsAfter(nodes, chain, prev, x) && |nodes'| == |nodes|
    requires forall y | 0 <= y < |nodes| :: nodes'[y].key == nodes[y].key
    ensures BelongsAfter(nodes', chain, prev, x)
  {
    var k :| 0 <= k < |chain| && chain[k] == prev && Before(nodes, prev, x)
      && (k + 1 < |chain| ==> Before(nodes, x, chain[k + 1]));
    assert Before(nodes', prev, x) && (k + 1 < |chain| ==> Before(nodes', x, chain[k + 1]));
  }

  lemma PrepareKeeps(s: State, s': State)
    requires Inv(s) && PrepareStep(s, s')
    ensures Inv(s') && Keys(s'.list, s'.chains) == Keys(s.list, s.chains)
  {
    var i := s.insertion.value;
    var p := s.list.nodes[i.prev[i.level]].next[i.level];
    forall l | 0 <= l < MAX_HEIGHT ensures ChainOk(s'.list.nodes, l, s.chains[l]) {
      OtherChains(s.list.nodes, i.node, i.level, p, l, s.chains[l]);
    }
    forall l | i.level <= l < |i.prev| ensures BelongsAfter(s'.list.nodes, s.chains[l], i.prev[l], i.node) {
      BelongsSurvives(s.list.nodes, s'.list.nodes, s.chains[l], i.prev[l], i.node);
    }
    assert i.prev[i.level] != i.node by {
      assert BelongsAfter(s.list.nodes, s.chains[i.level], i.prev[i.level], i.node);
    }
    forall id | id in s'.readers ensures SearchOk(s'.list, s'.chains, s'.readers[id]) {
      SearchSurvives(s.list, s.chains, s'.list, s'.chains, s.readers[id]);
    }
    SameKeys(s.list, s.chains, s'.list, s'.chains);
  }

  lemma SameKeys(a: List, ca: seq<seq<nat>>, b: List, cb: seq<seq<nat>>)
    requires ListOk(a, ca) && ListOk(b, cb) && cb[0] == ca[0]
    requires |a.nodes| <= |b.nodes|
    requires forall y | 0 <= y < |a.nodes| :: b.nodes[y].key == a.nodes[y].key
    ensures Keys(b, cb) == Keys(a, ca)
  {
    forall y | y in ca[0] ensures y < |a.nodes| {
      ChainNodes(a.nodes, 0, ca[0], y);
    }
  }

  /** The list keeps its order and nesting through the store, and the set changes only on level 0, by the new key. */
  lemma PublishKeeps(s: State, s': State)
    requires Inv(s) && PublishStep(s, s')
    ensures Inv(s')
    ensures var i := s.insertion.value;
      Keys(s'.list, s'.chains) == Keys(s.list, s.chains) + if i.level == 0 then {s.list.nodes[i.node].key} else {}
  {
    PublishKeepsList(s, s');
    PublishKeepsInsertion(s, s');
    forall id | id in s'.readers ensures SearchOk(s'.list, s'.chains, s'.readers[id]) {
      SearchSurvives(s.list, s.chains, s'.list, s'.chains, s.readers[id]);
    }
    PublishKeys(s, s');
  }

  lemma PublishKeepsList(s: State, s': State)
    requires Inv(s) && PublishStep(s, s')
    ensures ListOk(s'.list, s'.chains)
    ensures forall l, y | 0 <= l < MAX_HEIGHT ::
      y in s'.chains[l] <==> y in s.chains[l] || (l == s.insertion.value.level && y == s.insertion.value.node)
  {
    var i := s.insertion.value;
    var chain := s.chains[i.level];
    LinkSplices(s.list.nodes, i.level, chain, i.prev[i.level], i.node);
    forall l | 0 <= l < MAX_HEIGHT ensures ChainOk(s'.list.nodes, l, s'.chains[l]) {
      if l != i.level { OtherChains(s.list.nodes, i.prev[i.level], i.level, To(i.node), l, s.chains[l]); }
    }
  }

  lemma PublishKeepsInsertion(s: State, s': State)
    requires Inv(s) && PublishStep(s, s') && ListOk(s'.list, s'.chains)
    requires forall l, y | 0 <= l < MAX_HEIGHT ::
      y in s'.chains[l] <==> y in s.chains[l] || (l == s.insertion.value.level && y == s.insertion.value.node)
    ensures s'.insertion.Some? ==> InsertionOk(s'.list, s'.chains, s'.insertion.value)
  {
    var i := s.insertion.value;
    forall l | i.level < l < |i.prev| ensures BelongsAfter(s'.list.nodes, s'.chains[l], i.prev[l], i.node) {
      BelongsSurvives(s.list.nodes, s'.list.nodes, s.chains[l], i.prev[l], i.node);
    }
  }

  lemma PublishKeys(s: State, s': State)
    requires Inv(s) && PublishStep(s, s') && ListOk(s'.list, s'.chains)
    requires forall l, y | 0 <= l < MAX_HEIGHT ::
      y in s'.chains[l] <==> y in s.chains[l] || (l == s.insertion.value.level && y == s.insertion.value.node)
    ensures var i := s.insertion.value;
      Keys(s'.list, s'.chains) == Keys(s.list, s.chains) + if i.level == 0 then {s.list.nodes[i.node].key} else {}
  {
    forall y | y in s'.chains[0] ensures y < |s.list.nodes| {
      ChainNodes(s'.list.nodes, 0, s'.chains[0], y);
    }
    var i := s.insertion.value;
    if i.level == 0 { assert i.node in s'.chains[0]; }
  }

  lemma SearchKeeps(s: State, s': State)
    requires Inv(s) && SearchStep(s, s')
    ensures Inv(s')
  {
    var id: nat, target, height: nat :| StartedWith(s, s', id, target, height);
    ChainNodes(s.list.nodes, height - 1, s.chains[height - 1], 0);
    assert s.chains[height - 1][0] == 0;
  }

  /** A turn leaves a search on its way or gives it the right answer. */
  lemma TurnKeepsSearch(list: List, chains: seq<seq<nat>>, r: Search)
    requires ListOk(list, chains) && SearchOk(list, chains, r) && CanTurn(list.nodes, r)
    ensures SearchOk(list, chains, Turn(list.nodes, r))
  {
    var nodes, chain := list.nodes, chains[r.level];
    LoadOnLevel(nodes, r.level, chain, r.at, r.target);
    if !KeyIsAfter(nodes, r.target, nodes[r.at].next[r.level]) && r.level == 0 {
      forall y | y in chains[0] ensures y < |nodes| { ChainNodes(nodes, 0, chains[0], y); }
      LastLoad(nodes, chains[0], r.at, r.target);
    }
  }

  lemma TurnKeeps(s: State, s': State)
    requires Inv(s) && TurnStep(s, s')
    ensures Inv(s')
  {
    hide ListOk;
    hide SearchOk;
    hide InsertionOk;
    hide Turn;
    var id :| id in s.readers && TurnOf(s, s', id);
    TurnKeepsSearch(s.list, s.chains, s.readers[id]);
  }

  /** Every step keeps the list sorted and nested, and every search on its way or rightly answered. */
  lemma StepKeeps(s: State, s': State)
    requires Inv(s) && Next(s, s')
    ensures Inv(s')
  {
    if BeginStep(s, s') { BeginKeeps(s, s'); }
    else if PrepareStep(s, s') { PrepareKeeps(s, s'); }
    else if PublishStep(s, s') { PublishKeeps(s, s'); }
    else if SearchStep(s, s') { SearchKeeps(s, s'); }
    else { TurnKeeps(s, s'); }
  }

  ghost predicate IsRun(run: seq<State>) {
    && |run| > 0 && Init(run[0])
    && forall i {:trigger run[i]} | 0 <= i < |run| - 1 :: Next(run[i], run[i + 1])
  }

  /**
   On every run, an answered search names a node of the list at or after its target, with no key of its start in
   between.
   */
  lemma {:induction false} EveryRunAnswersRightly(run: seq<State>, i: nat)
    requires IsRun(run) && i < |run|
    ensures Inv(run[i])
    ensures forall id | id in run[i].readers && run[i].readers[id].answer.Found? ::
      var r := run[i].readers[id];
      IsFirstAtOrAfter(run[i].list.nodes, run[i].chains[0], r.target, r.answer.p, r.start)
  {
    if i == 0 {
      InitOk(run[0]);
    } else {
      EveryRunAnswersRightly(run, i - 1);
      assert Next(run[i - 1], run[i - 1 + 1]);
      StepKeeps(run[i - 1], run[i]);
    }
  }

  // ----- the list object -----

  /** `p` is the last node of the chain whose key is before the target; the head if there is none. */
  ghost predicate IsLastBefore(nodes: seq<Node>, chain: seq<nat>, l: nat, x: nat, target: Key) {
    && StandsBefore(nodes, chain, x, target) && l < |nodes[x].next|
    && (nodes[x].next[l].To? ==> nodes[x].next[l].node < |nodes| && nodes[nodes[x].next[l].node].key >= target)
  }

  lemma BehindIsNotBefore(nodes: seq<Node>, l: nat, chain: seq<nat>, k: nat, j: nat, target: Key)
    requires ChainOk(nodes, l, chain) && k < j < |chain| && IsLastBefore(nodes, chain, l, chain[k], target)
    ensures chain[j] < |nodes| && nodes[chain[j]].key >= target
  {
    assert Links(nodes, l, chain, k) && Before(nodes, chain[k], chain[k + 1]);
    assert j > k + 1 ==> Before(nodes, chain[k + 1], chain[j]);
  }

  /** Nothing on the chain lies between that node and the target. */
  lemma LastBeforeIsTight(nodes: seq<Node>, l: nat, chain: seq<nat>, x: nat, target: Key, y: nat)
    requires ChainOk(nodes, l, chain) && IsLastBefore(nodes, chain, l, x, target)
    requires y in chain && 0 < y < |nodes| && nodes[y].key < target
    ensures x != 0 && nodes[y].key <= nodes[x].key
  {
    var k :| 0 <= k < |chain| && chain[k] == x;
    var j :| 0 <= j < |chain| && chain[j] == y;
    if j > k { BehindIsNotBefore(nodes, l, chain, k, j, target); }
    assert j < k ==> Before(nodes, chain[j], chain[k]);
  }

  /** The node at the end of the bottom chain has the greatest key. */
  lemma EndIsGreatest(list: List, chains: seq<seq<nat>>)
    requires ListOk(list, chains)
    ensures var chain := chains[0];
      var x := chain[|chain| - 1];
      && (x == 0 <==> Keys(list, chains) == {})
      && (x != 0 ==>
        x < |list.nodes| && list.nodes[x].key in Keys(list, chains) && forall k | k in Keys(list, chains) ::
        k <= list.nodes[x].key)
  {
    var chain := chains[0];
    var n := |chain| - 1;
    ChainNodes(list.nodes, 0, chain, chain[n]);
    forall k | k in Keys(list, chains) ensures chain[n] != 0 && k <= list.nodes[chain[n]].key {
      forall x | x in chain ensures x < |list.nodes| { ChainNodes(list.nodes, 0, chain, x); }
      var y :| y in chain && y != 0 && list.nodes[y].key == k;
      var j :| 0 <= j < |chain| && chain[j] == y;
      assert j < n ==> Before(list.nodes, chain[j], chain[n]);
    }
    if chain[n] != 0 { assert list.nodes[chain[n]].key in Keys(list, chains); }
  }

  class SkipList {
    var list: List
    var insertion: Option<Insertion>
    ghost var chains: seq<seq<nat>>
    ghost var readers: map<nat, Search>

    ghost function Abs(): (r: State)
      reads this
    {
      State(list, chains, insertion, readers)
    }

    ghost predicate Valid()
      reads this
    {
      Inv(Abs())
    }

    ghost function Contents(): (r: set<Key>)
      requires Valid()
      reads this
    {
      Keys(list, chains)
    }

    constructor ()
      ensures Valid() && Init(Abs()) && Contents() == {}
    {
      list := List([Node(0.0, seq(MAX_HEIGHT, _ => Null))], 1);
      insertion, readers := None, map[];
      chains := seq(MAX_HEIGHT, _ => [0]);
      new;
      InitOk(Abs());
    }

    /** A search by the list's own thread: right or down, never past the target. */
    method FindGreaterOrEqual(key: Key) returns (r: Pointer, prev: seq<nat>)
      requires Valid()
      ensures IsFirstAtOrAfter(list.nodes, chains[0], key, r, Contents())
      ensures |prev| == list.maxHeight
      ensures forall l {:trigger prev[l]} | 0 <= l < |prev| :: IsLastBefore(list.nodes, chains[l], l, prev[l], key)
    {
      var x := 0;
      var level := list.maxHeight - 1;
      prev := seq(list.maxHeight, _ => 0);
      ghost var k := 0;
      ChainNodes(list.nodes, level, chains[level], x);
      while true
        invariant 0 <= level < list.maxHeight && |prev| == list.maxHeight
        invariant k < |chains[level]| && chains[level][k] == x && StandsBefore(list.nodes, chains[level], x, key)
        invariant forall l {:trigger prev[l]} | level < l < |prev| ::
          IsLastBefore(list.nodes, chains[l], l, prev[l], key)
        decreases level, |chains[level]| - k
      {
        ChainNodes(list.nodes, level, chains[level], x);
        LoadOnLevel(list.nodes, level, chains[level], x, key);
        assert Links(list.nodes, level, chains[level], k);
        var next := list.nodes[x].next[level];
        if KeyIsAfter(list.nodes, key, next) {
          x := next.node;
          k := k + 1;
        } else {
          prev := prev[level := x];
          if level == 0 {
            forall y | y in chains[0] ensures y < |list.nodes| { ChainNodes(list.nodes, 0, chains[0], y); }
            LastLoad(list.nodes, chains[0], x, key);
            return next, prev;
          }
          level := level - 1;
          k :| 0 <= k < |chains[level]| && chains[level][k] == x;
        }
      }
    }

    method Contains(key: Key) returns (found: bool)
      requires Valid()
      ensures found <==> key in Contents()
    {
      var x, _ := FindGreaterOrEqual(key);
      found := x.To? && list.nodes[x.node].key == key;
      if found { assert x.node in chains[0]; }
    }

    /** The last node before the key, for Iterator::Prev. */
    method FindLessThan(key: Key) returns (x: nat)
      requires Valid()
      ensures IsLastBefore(list.nodes, chains[0], 0, x, key)
      ensures forall k | k in Contents() && k < key :: x != 0 && k <= list.nodes[x].key
    {
      x := 0;
      var level := list.maxHeight - 1;
      ghost var k := 0;
      ChainNodes(list.nodes, level, chains[level], x);
      while true
        invariant 0 <= level < list.maxHeight
        invariant k < |chains[level]| && chains[level][k] == x && StandsBefore(list.nodes, chains[level], x, key)
        decreases level, |chains[level]| - k
      {
        ChainNodes(list.nodes, level, chains[level], x);
        LoadOnLevel(list.nodes, level, chains[level], x, key);
        assert Links(list.nodes, level, chains[level], k);
        var next := list.nodes[x].next[level];
        if next.Null? || list.nodes[next.node].key >= key {
          if level == 0 {
            NothingBetween(list, chains, x, key);
            return;
          }
          level := level - 1;
          k :| 0 <= k < |chains[level]| && chains[level][k] == x;
        } else {
          x := next.node;
          k := k + 1;
        }
      }
    }

    /** The last node, for SeekToLast; the head if the list is empty. */
    method FindLast() returns (x: nat)
      requires Valid()
      ensures x in chains[0] && x < |list.nodes| && (x == 0 <==> Contents() == {})
      ensures x != 0 ==> list.nodes[x].key in Contents() && forall k | k in Contents() :: k <= list.nodes[x].key
    {
      x := 0;
      var level := list.maxHeight - 1;
      ghost var k := 0;
      ChainNodes(list.nodes, level, chains[level], x);
      while true
        invariant 0 <= level < list.maxHeight && x < |list.nodes|
        invariant k < |chains[level]| && chains[level][k] == x
        decreases level, |chains[level]| - k
      {
        ChainNodes(list.nodes, level, chains[level], x);
        assert Links(list.nodes, level, chains[level], k);
        var next := list.nodes[x].next[level];
        if next.Null? {
          if level == 0 {
            EndIsGreatest(list, chains);
            return;
          }
          level := level - 1;
          k :| 0 <= k < |chains[level]| && chains[level][k] == x;
        } else {
          assert Before(list.nodes, chains[level][k], chains[level][k + 1]);
          x := next.node;
          k := k + 1;
        }
      }
    }

    /** The part of Insert that runs before its first link store. */
    method BeginInsert(key: Key, height: nat)
      requires Valid() && insertion.None? && key !in Contents()
      requires 1 <= height <= MAX_HEIGHT
      modifies this
      ensures Valid() && BeginStep(old(Abs()), Abs()) && insertion.Some?
      ensures insertion.value.level == 0
      ensures list.nodes[insertion.value.node].key == key && Contents() == old(Contents())
    {
      ghost var s := Abs();
      var x, prev := FindGreaterOrEqual(key);
      assert x.To? ==> list.nodes[x.node].key != key by { if x.To? { assert x.node in chains[0]; } }
      var max := list.maxHeight;
      if height > max {
        prev := prev + seq(height - max, _ => 0);
      } else {
        prev := prev[..height];
      }
      var node := |list.nodes|;
      var nodes := list.nodes + [Node(key, seq(height, _ => Null))];
      PrevBelongs(list, chains, key, height, prev);
      list := List(nodes, if height > max then height else max);
      insertion := Some(Insertion(node, prev, 0, false));
      assert BegunWith(s, Abs(), key, height, prev);
      BeginKeeps(s, Abs());
      SameKeys(s.list, s.chains, list, chains);
    }

    method Prepare()
      requires Valid() && insertion.Some? && !insertion.value.own
      modifies this
      ensures Valid() && PrepareStep(old(Abs()), Abs()) && Contents() == old(Contents())
    {
      ghost var s := Abs();
      var i := insertion.value;
      PrevIsNode(list, chains, i);
      list := list.(nodes := SetNext(list.nodes, i.node, i.level, list.nodes[i.prev[i.level]].next[i.level]));
      insertion := Some(i.(own := true));
      assert PrepareStep(s, Abs());
      PrepareKeeps(s, Abs());
    }

    /** The store that publishes the node on the next level; on level 0 the key is in the set from here on. */
    method Publish()
      requires Valid() && insertion.Some? && insertion.value.own
      modifies this
      ensures Valid() && PublishStep(old(Abs()), Abs())
      ensures var i := old(insertion).value;
        Contents() == old(Contents()) + if i.level == 0 then {old(list).nodes[i.node].key} else {}
    {
      ghost var s := Abs();
      var i := insertion.value;
      PrevIsNode(list, chains, i);
      list := list.(nodes := SetNext(list.nodes, i.prev[i.level], i.level, To(i.node)));
      chains := chains[i.level := Spliced(chains[i.level], i.prev[i.level], i.node)];
      insertion := if i.level + 1 == |i.prev| then None else Some(i.(level := i.level + 1, own := false));
      assert PublishStep(s, Abs());
      PublishKeeps(s, Abs());
    }

    /** Links the node level by level, from the bottom; between any two stores readers may run. */
    method Insert(key: Key, height: nat)
      requires Valid() && insertion.None? && key !in Contents()
      requires 1 <= height <= MAX_HEIGHT
      modifies this
      ensures Valid() && insertion.None? && Contents() == old(Contents()) + {key}
    {
      BeginInsert(key, height);
      while insertion.Some?
        invariant Valid() && (insertion.Some? ==> !insertion.value.own)
        invariant insertion.Some? ==> list.nodes[insertion.value.node].key == key
        invariant Contents() == old(Contents()) + if insertion.Some? && insertion.value.level == 0 then {} else {key}
        decreases if insertion.Some? then |insertion.value.prev| - insertion.value.level else 0
      {
        Prepare();
        Publish();
      }
    }
  }

  lemma NothingBetween(list: List, chains: seq<seq<nat>>, x: nat, key: Key)
    requires ListOk(list, chains) && IsLastBefore(list.nodes, chains[0], 0, x, key)
    ensures forall k | k in Keys(list, chains) && k < key :: x != 0 && k <= list.nodes[x].key
  {
    forall y | y in chains[0] ensures y < |list.nodes| { ChainNodes(list.nodes, 0, chains[0], y); }
    forall y | y in chains[0] && y != 0 && list.nodes[y].key < key
      ensures x != 0 && list.nodes[y].key <= list.nodes[x].key
    {
      LastBeforeIsTight(list.nodes, 0, chains[0], x, key, y);
    }
  }

  lemma PrevIsNode(list: List, chains: seq<seq<nat>>, i: Insertion)
    requires ListOk(list, chains) && InsertionOk(list, chains, i)
    ensures i.prev[i.level] in chains[i.level] && i.prev[i.level] < |list.nodes|
    ensures i.level < |list.nodes[i.prev[i.level]].next|
  {
    assert BelongsAfter(list.nodes, chains[i.level], i.prev[i.level], i.node);
    ChainNodes(list.nodes, i.level, chains[i.level], i.prev[i.level]);
  }

  /** What the search found, with the head on the levels above, is where the new node belongs. */
  lemma PrevBelongs(list: List, chains: seq<seq<nat>>, key: Key, height: nat, prev: seq<nat>)
    requires ListOk(list, chains) && key !in Keys(list, chains) && |prev| == height <= MAX_HEIGHT
    requires forall l {:trigger prev[l]} | 0 <= l < height && l < list.maxHeight ::
      IsLastBefore(list.nodes, chains[l], l, prev[l], key)
    requires forall l {:trigger prev[l]} | list.maxHeight <= l < height :: prev[l] == 0
    ensures PrevOk(list, chains, prev, |list.nodes|, list.nodes + [Node(key, seq(height, _ => Null))])
  {
    var nodes := list.nodes + [Node(key, seq(height, _ => Null))];
    forall l | 0 <= l < height ensures BelongsAfter(nodes, chains[l], prev[l], |list.nodes|) {
      ChainNodes(list.nodes, l, chains[l], 0);
      if l < list.maxHeight {
        LevelBelongs(list, chains, key, l, prev[l], nodes);
      } else {
        assert chains[l][0] == prev[l];
      }
    }
  }

  lemma LevelBelongs(list: List, chains: seq<seq<nat>>, key: Key, l: nat, prev: nat, nodes: seq<Node>)
    requires ListOk(list, chains) && key !in Keys(list, chains) && l < MAX_HEIGHT
    requires IsLastBefore(list.nodes, chains[l], l, prev, key)
    requires |nodes| == |list.nodes| + 1 && nodes[..|list.nodes|] == list.nodes && nodes[|list.nodes|].key == key
    ensures BelongsAfter(nodes, chains[l], prev, |list.nodes|)
  {
    var chain, x := chains[l], |list.nodes|;
    var k :| 0 <= k < |chain| && chain[k] == prev;
    assert Before(nodes, prev, x) by { assert nodes[..x][prev] == nodes[prev]; ChainNodes(list.nodes, l, chain, 0); }
    if k + 1 < |chain| {
      BehindIsNotBefore(list.nodes, l, chain, k, k + 1, key);
      assert Before(list.nodes, chain[k], chain[k + 1]);
      KeyOfChain(list, chains, l, chain[k + 1]);
      assert nodes[..x][chain[k + 1]] == nodes[chain[k + 1]];
      assert Before(nodes, x, chain[k + 1]);
    }
  }

  lemma {:induction false} KeyOfChain(list: List, chains: seq<seq<nat>>, l: nat, x: nat)
    requires ListOk(list, chains) && l < MAX_HEIGHT && x in chains[l]
    requires x != 0
    ensures x < |list.nodes| && list.nodes[x].key in Keys(list, chains)
  {
    ChainNodes(list.nodes, l, chains[l], x);
    if l > 0 {
      KeyOfChain(list, chains, l - 1, x);
    }
  }
}
