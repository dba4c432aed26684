/**
 The write path on top of the database (db_impl.cc: Write, MakeRoomForWrite, GetSnapshot): groups are logged, applied
 and made visible while other threads read, take snapshots and compact.  What a reader sees is always the effect of a
 whole number of groups.
 */
module Committing {
  import opened InternalKeys
  import opened Versions
  import opened LogFormat
  import opened WriteBatches
  import opened GroupCommit
  import opened Database
  import opened DatabaseInvariant
  import opened LiveVersions
  import opened Lookups
  import D = DbImpl

  /** The place of a key in the order of the user comparator. */
  type Ranking = Bytes -> UserKey

  /** The entry that an operation becomes. */
  function EntryOf(rank: Ranking, op: Op, sequence: SequenceNumber): (r: Entry) {
    match op
    case Put(key, value) => Entry(InternalKey(rank(key), sequence, Value), value)
    case Delete(key) => Entry(InternalKey(rank(key), sequence, Deletion), [])
  }

  function OperationOf(rank: Ranking, op: Op): (r: D.Operation) {
    match op
    case Put(key, value) => D.Operation(rank(key), Value, value)
    case Delete(key) => D.Operation(rank(key), Deletion, [])
  }

  lemma OperationIsEntry(rank: Ranking, op: Op, sequence: SequenceNumber)
    ensures var o := OperationOf(rank, op);
      Entry(InternalKey(o.user, sequence, o.kind), o.value) == EntryOf(rank, op, sequence)
  {
  }

  /** The history that the operations make, numbered from 1. */
  function HistoryOf(rank: Ranking, ops: seq<Op>): (r: seq<Entry>)
    requires |ops| < MAX_SEQUENCE
    ensures |r| == |ops|
  {
    seq(|ops|, i requires 0 <= i < |ops| => EntryOf(rank, ops[i], i + 1))
  }

  // ----- snapshots and groups -----

  /** The sequence number after the first k groups. */
  ghost predicate IsBoundary(groups: seq<seq<Op>>, s: nat) {
    exists k :: 0 <= k <= |groups| && s == |Flat(groups[..k])|
  }

  /**
   The history is the committed groups and the part of the next one that is in the memtable; the last sequence number
   and every live snapshot lie between groups.
   */
  ghost predicate Aligned(rank: Ranking, st: State, groups: seq<seq<Op>>, done: seq<Op>) {
    && |Flat(groups) + done| < MAX_SEQUENCE && st.history == HistoryOf(rank, Flat(groups) + done)
    && st.lastSequence == |Flat(groups)|
    && forall s | s in st.snapshots :: IsBoundary(groups, s)
  }

  /** Whatever the database does besides applying operations and moving the last sequence number on keeps that. */
  lemma OthersKeepAligned(rank: Ranking, st: State, st': State, groups: seq<seq<Op>>, done: seq<Op>)
    requires Shape(st) && Aligned(rank, st, groups, done) && Next(st, st')
    requires !InsertStep(st, st') && (PublishStep(st, st') ==> done == [])
    ensures Aligned(rank, st', groups, done)
  {
    hide Shape;
    assert groups[..|groups|] == groups;
    if InstallStep(st, st') {
      var input, outs :| InstalledWith(st, st', input, outs);
    } else {
      QuietStepKeeps(st, st');
      LastIsBoundary(groups);
      if FlushStep(st, st') && st.imm.value != [] {
        var m, f :| FlushedTo(st, st', m, f);
      }
    }
  }

  lemma LastIsBoundary(groups: seq<seq<Op>>)
    ensures IsBoundary(groups, |Flat(groups)|)
  {
    assert groups[..|groups|] == groups;
  }

  lemma BoundariesStay(groups: seq<seq<Op>>, group: seq<Op>, s: nat)
    requires IsBoundary(groups, s)
    ensures IsBoundary(groups + [group], s)
  {
    var k :| 0 <= k <= |groups| && s == |Flat(groups[..k])|;
    assert (groups + [group])[..k] == groups[..k];
  }

  lemma {:induction false} FlatStarts(groups: seq<seq<Op>>, k: nat)
    requires k <= |groups|
    ensures Flat(groups[..k]) <= Flat(groups)
    decreases |groups| - k
  {
    if k == |groups| {
      assert groups[..k] == groups;
    } else {
      FlatPrefix(groups, k);
      FlatStarts(groups, k + 1);
    }
  }

  lemma {:induction false} LastWriteOfPrefix(history: seq<Entry>, user: UserKey, n: nat, s: nat)
    requires s <= n <= |history|
    ensures LastWrite(history[..n], user, s) == LastWrite(history, user, s)
  {
    if s > 0 { LastWriteOfPrefix(history, user, n, s - 1); }
  }

  lemma HistoryStarts(rank: Ranking, ops: seq<Op>, s: nat)
    requires s <= |ops| < MAX_SEQUENCE
    ensures HistoryOf(rank, ops)[..s] == HistoryOf(rank, ops[..s])
  {
  }

  /** The result of a read when exactly the first k groups have been written. */
  ghost predicate AfterGroups(rank: Ranking, groups: seq<seq<Op>>, k: nat, user: UserKey, s: nat, r: Option<Bytes>) {
    && k <= |groups| && s == |Flat(groups[..k])| < MAX_SEQUENCE
    && r == SpecGet(HistoryOf(rank, Flat(groups[..k])), user, s)
  }

  /** A read at a snapshot gives what the first k groups wrote, for some k: each group in full or not at all. */
  lemma ReadsWholeGroups(rank: Ranking, st: State, groups: seq<seq<Op>>, done: seq<Op>, user: UserKey, s: nat)
    requires Aligned(rank, st, groups, done) && (s == st.lastSequence || s in st.snapshots)
    ensures s <= |st.history|
    ensures exists k :: AfterGroups(rank, groups, k, user, s, SpecGet(st.history, user, s))
  {
    hide HistoryOf;
    hide Flat;
    LastIsBoundary(groups);
    var k :| 0 <= k <= |groups| && s == |Flat(groups[..k])|;
    FlatStarts(groups, k);
    var ops := Flat(groups) + done;
    assert ops[..s] == Flat(groups[..k]);
    HistoryStarts(rank, ops, s);
    LastWriteOfPrefix(st.history, user, s, s);
    assert AfterGroups(rank, groups, k, user, s, SpecGet(st.history, user, s));
  }

  /**
   So does a lookup that takes its time: whatever is committed, flushed and compacted between its start in state i and
   its end in state j, it gives what some number of the groups committed before its start wrote.
   */
  lemma LookupShowsWholeGroups(rank: Ranking, run: seq<State>, i: nat, k: nat, j: nat, groups: seq<seq<Op>>,
      done: seq<Op>, user: UserKey, s: nat, r: Option<Bytes>)
    requires IsRun(run) && i <= k <= j < |run| && ReadsAgreeOver(run[i]) && Aligned(rank, run[i], groups, done)
    requires s == run[i].lastSequence || s in run[i].snapshots
    requires s <= MAX_SEQUENCE && Sorted(MemTableAt(run, i, k)) && (run[i].imm.Some? ==> Sorted(run[i].imm.value))
    requires D.Answers(MemTableAt(run, i, k), run[i].imm, run[i].version, user, s, r)
    ensures exists n :: AfterGroups(rank, groups, n, user, s, r)
  {
    hide IsRun;
    hide Aligned;
    hide D.Answers;
    hide MemTableAt;
    hide ReadsAgreeOver;
    hide SpecGet;
    hide AfterGroups;
    LookupAcrossRun(run, i, k, j, user, s, r);
    SpecStays(run[i].history, run[j].history, user, s);
    ReadsWholeGroups(rank, run[i], groups, done, user, s);
  }

  // ----- the steps of a writer -----

  lemma {:induction false} FlatAppends(a: seq<seq<Op>>, b: seq<seq<Op>>)
    ensures Flat(a + b) == Flat(a) + Flat(b)
  {
    if b == [] {
      assert a + b == a;
    } else {
      var n := |b| - 1;
      assert (a + b)[..|a + b| - 1] == a + b[..n];
      FlatAppends(a, b[..n]);
    }
  }

  lemma ApplyKeepsAligned(rank: Ranking, st: State, st': State, groups: seq<seq<Op>>, done: seq<Op>, op: Op)
    requires Aligned(rank, st, groups, done) && |st.history| + 1 < MAX_SEQUENCE
    requires st' == st.(history := st.history + [EntryOf(rank, op, |st.history| + 1)], mem := st'.mem)
    ensures Aligned(rank, st', groups, done + [op])
  {
    assert Flat(groups) + (done + [op]) == (Flat(groups) + done) + [op];
  }

  lemma EndKeepsAligned(rank: Ranking, st: State, st': State, groups: seq<seq<Op>>, group: seq<Op>)
    requires Aligned(rank, st, groups, group) && PublishStep(st, st')
    ensures Aligned(rank, st', groups + [group], [])
  {
    FlatPrefix(groups + [group], |groups|);
    assert (groups + [group])[..|groups| + 1] == groups + [group] && (groups + [group])[..|groups|] == groups;
    assert Flat(groups + [group]) + [] == Flat(groups) + group;
    forall s | s in st.snapshots ensures IsBoundary(groups + [group], s) { BoundariesStay(groups, group, s); }
  }

  lemma AppliedNext(g: Group)
    requires g.applied < |g.ops|
    ensures AppliedOf(Some(g.(applied := g.applied + 1))) == AppliedOf(Some(g)) + [g.ops[g.applied]]
    ensures |AppliedOf(Some(g))| == g.applied
  {
  }

  class Committer {
    const rank: Ranking
    const db: D.DB
    var path: WritePath
    /** The groups in the logs before the current one. */
    ghost var earlier: seq<seq<Op>>

    ghost function Groups(): (r: seq<seq<Op>>)
      reads this, path
    {
      earlier + path.groups
    }

    /** The current log was started together with the current memtable. */
    ghost predicate Valid()
      reads this, path, path.log, db, db.versions, db.versions.dummyVersions, db.versions.created, db.versions.known
    {
      && db.Valid() && path.Valid() && path.start == db.memStart == |Flat(earlier)|
      && Aligned(rank, db.Abs(), Groups(), AppliedOf(path.group))
    }

    /** A new database. */
    constructor (rank: Ranking, checksum: Checksum, maxFileSize: nat, fileSize: seq<Entry> -> nat)
      ensures Valid() && Groups() == [] && Init(db.Abs())
      ensures path.group.None?
    {
      hide D.DB.Valid;
      hide WritePath.Valid;
      this.rank := rank;
      db := new D.DB(maxFileSize, fileSize);
      path := new WritePath(checksum, 0, []);
      earlier := [];
      new;
      assert Flat([]) == [] && AppliedOf(path.group) == [];
      assert db.memStart == db.Abs().memStart == 0 && path.start == 0;
    }

    /** A database that has been opened again: everything recovered is visible, and a new log is there. */
    constructor Resume(rank: Ranking, checksum: Checksum, db: D.DB, ghost groups: seq<seq<Op>>)
      requires db.Valid() && Aligned(rank, db.Abs(), groups, []) && db.memStart == |Flat(groups)|
      ensures Valid() && Groups() == groups && path.group.None? && this.db == db && this.rank == rank
      ensures path.checksum == checksum && path.writers == [] && fresh(path) && fresh(path.log)
    {
      hide D.DB.Valid;
      hide WritePath.Valid;
      this.rank, this.db := rank, db;
      path := new WritePath(checksum, db.lastSequence, []);
      earlier := groups;
      new;
      assert groups + [] == groups && AppliedOf(path.group) == [];
    }

    lemma LastIsLast()
      requires Valid()
      ensures path.lastSequence == db.lastSequence
      ensures path.group.Some? ==> |db.history| == path.lastSequence + |AppliedOf(path.group)|
      ensures path.group.None? ==> |db.history| == path.lastSequence
    {
      FlatAppends(earlier, path.groups);
    }

    /** MemTableInserter applies the next operation of the group; no reader sees it yet. */
    method ApplyOne()
      requires Valid() && path.group.Some? && path.group.value.logged
      requires path.group.value.applied < |path.group.value.ops| && |db.history| + 1 < MAX_SEQUENCE
      modifies path`group, path`mem, db
      ensures Valid() && path.group == Some(old(path.group).value.(applied := old(path.group).value.applied + 1))
      ensures |db.history| == old(|db.history|) + 1
      ensures db.lastSequence == old(db.lastSequence) && db.snapshots == old(db.snapshots)
    {
      hide D.DB.Valid;
      hide WritePath.Valid;
      hide Aligned;
      hide InsertStep;
      hide AppliedOf;
      hide OperationOf;
      hide EntryOf;
      LastIsLast();
      ghost var st, done := db.Abs(), AppliedOf(path.group);
      var g := path.group.value;
      var op := g.ops[g.applied];
      AppliedNext(g);
      path.ApplyOne();
      db.Insert(OperationOf(rank, op), path.lastSequence + 1 + g.applied);
      OperationIsEntry(rank, op, path.lastSequence + 1 + g.applied);
      ApplyKeepsAligned(rank, st, db.Abs(), Groups(), done, op);
    }

    /** A writer joins the queue. */
    method Enqueue(r: Request)
      requires Valid() && (r.batch.Some? ==> AllFit(r.batch.value))
      modifies path`writers, path`arrived
      ensures Valid() && path.arrived == old(path.arrived) + [r] && Groups() == old(Groups())
      ensures path.group == old(path.group)
    {
      hide D.DB.Valid;
      hide WritePath.Valid;
      hide Aligned;
      path.Enqueue(r);
    }

    /** The front writer builds its group, and logs it with the number after the last one visible. */
    method LogGroup()
      requires Valid() && path.group.None? && path.writers != []
      requires path.writers[0].batch.Some?
      modifies path`group, path.log
      ensures Valid() && Groups() == old(Groups())
      ensures path.group.Some? && path.group.value.logged && path.group.value.applied == 0
      ensures IsGroup(path.writers, path.group.value.ops, path.group.value.last)
    {
      hide D.DB.Valid;
      hide WritePath.Valid;
      hide Aligned;
      path.BeginGroup();
      path.AddToLog();
      assert AppliedOf(path.group) == [];
    }

    lemma GroupIsQueued()
      requires Valid() && path.group.Some?
      ensures |path.group.value.ops| <= |OpsOf(path.writers)|
    {
      hide D.DB.Valid;
      hide Aligned;
      hide QueueOk;
      hide LogOk;
      hide MemOk;
      hide OpsOf;
      hide AllFit;
      var n := path.group.value.last + 1;
      assert path.writers == path.writers[..n] + path.writers[n..];
      OpsOfAppends(path.writers[..n], path.writers[n..]);
    }

    /** The whole group becomes visible at once. */
    method EndGroup()
      requires Valid() && path.group.Some? && path.group.value.logged
      requires path.group.value.applied == |path.group.value.ops|
      modifies path`group, path`lastSequence, path`writers, path`groups, path`answered, db
      ensures Valid() && path.group.None? && Groups() == old(Groups()) + [old(path.group).value.ops]
      ensures path.arrived == old(path.arrived)
      ensures path.answered == old(path.answered) + old(path.group).value.last + 1
      ensures path.writers == old(path.writers)[old(path.group).value.last + 1..]
      ensures db.history == old(db.history) && db.snapshots == old(db.snapshots)
    {
      hide D.DB.Valid;
      hide WritePath.Valid;
      hide Aligned;
      ghost var st, groups, g := db.Abs(), Groups(), path.group.value;
      LastIsLast();
      assert AppliedOf(path.group) == g.ops;
      path.EndGroup();
      db.Publish(path.lastSequence);
      assert Groups() == groups + [g.ops];
      EndKeepsAligned(rank, st, db.Abs(), groups, g.ops);
    }

    /** A snapshot may be taken at any time, also in the middle of a group, and yet falls between groups. */
    method GetSnapshot() returns (s: nat)
      requires Valid()
      modifies db
      ensures Valid() && db.snapshots == old(db.snapshots) + [s] && db.history == old(db.history)
      ensures s == |Flat(Groups())|
    {
      hide D.DB.Valid;
      hide WritePath.Valid;
      ghost var st := db.Abs();
      s := db.GetSnapshot();
      LastIsBoundary(Groups());
    }

    method ReleaseSnapshot(i: nat)
      requires Valid() && i < |db.snapshots|
      modifies db
      ensures Valid() && db.history == old(db.history)
    {
      hide D.DB.Valid;
      hide WritePath.Valid;
      ghost var st := db.Abs();
      db.ReleaseSnapshot(i);
      ghost var st' := db.Abs();
      assert forall s | s in st'.snapshots :: s in st.snapshots;
    }

    /** A read, at any moment of any writer, gives what some number of whole groups wrote. */
    method Get(id: nat, user: UserKey, snapshot: Option<nat>) returns (r: Option<Bytes>)
      requires Valid() && ReadsAgree(db.Abs()) && Lookup(id) !in db.versions.holders
      requires snapshot.Some? ==> snapshot.value in db.snapshots
      modifies db.versions, db.versions.dummyVersions, db.versions.created, db.versions.known
      ensures Valid() && db.Abs() == old(db.Abs())
      ensures var s := if snapshot.Some? then snapshot.value else |Flat(Groups())|;
        exists k :: AfterGroups(rank, Groups(), k, user, s, r)
    {
      hide D.DB.Valid;
      hide WritePath.Valid;
      hide AfterGroups;
      hide ReadsAgree;
      ghost var s := if snapshot.Some? then snapshot.value else db.lastSequence;
      r := db.Get(id, user, snapshot);
      ReadsWholeGroups(rank, db.Abs(), Groups(), AppliedOf(path.group), user, s);
    }

    /** MakeRoomForWrite: a new log and a new memtable, between two groups; the queue stays. */
    method SwitchLog()
      requires Valid() && path.group.None? && db.imm.None?
      modifies this, db
      ensures Valid() && fresh(path) && fresh(path.log)
      ensures Groups() == old(Groups())
      ensures path.group.None? && path.writers == old(path.writers) && path.groups == []
    {
      hide D.DB.Valid;
      hide WritePath.Valid;
      hide Flat;
      hide HistoryOf;
      LastIsLast();
      ghost var groups := Groups();
      path.WritersFit();
      var next := new WritePath(path.checksum, path.lastSequence, path.writers);
      earlier := groups;
      path := next;
      assert Groups() == groups && AppliedOf(path.group) == [];
      db.SwitchMemTable();
    }
  }

  /**
   Write, for the writer at the front of the queue, when there is room in the memtable: it serves the first writers of
   the queue, up to `last`, and what becomes visible is exactly what they ask for.
   */
  method Write(c: Committer) returns (ghost last: nat)
    requires c.Valid() && c.path.group.None? && c.path.writers != []
    requires c.path.writers[0].batch.Some?
    requires |c.db.history| + |OpsOf(c.path.writers)| < MAX_SEQUENCE
    modifies c.path, c.path.log, c.db
    ensures c.Valid() && c.path.group.None? && last < |old(c.path.writers)|
    ensures c.path.answered == old(c.path.answered) + last + 1 && c.path.writers == old(c.path.writers)[last + 1..]
    ensures IsGroup(old(c.path.writers), OpsOf(old(c.path.writers)[..last + 1]), last)
    ensures c.Groups() == old(c.Groups()) + [OpsOf(old(c.path.writers)[..last + 1])]
    ensures c.path.arrived == old(c.path.arrived) && c.db.snapshots == old(c.db.snapshots)
  {
    hide Committer.Valid;
    hide OpsOf;
    hide SyncStops;
    hide SizeStops;
    ghost var groups := c.Groups();
    c.LogGroup();
    c.GroupIsQueued();
    ghost var group := c.path.group.value;
    last := group.last;
    c.LastIsLast();
    while c.path.group.value.applied < |c.path.group.value.ops|
      invariant c.Valid() && c.path.group.Some? && c.path.group == Some(group.(applied := c.path.group.value.applied))
      invariant c.path.group.value.applied <= |group.ops|
      invariant |c.db.history| == old(|c.db.history|) + c.path.group.value.applied
      invariant c.path.arrived == old(c.path.arrived) && c.path.answered == old(c.path.answered)
      invariant c.db.snapshots == old(c.db.snapshots) && c.Groups() == groups
      invariant c.path.writers == old(c.path.writers)
      decreases |group.ops| - c.path.group.value.applied
    {
      c.ApplyOne();
    }
    c.EndGroup();
  }
}
