/**
 The write path (db_impl.cc: Write, BuildBatchGroup, RecoverLogFile): waiting writers are committed in groups, each
 group is one log record, and replaying a log that a crash has cut rebuilds what the whole groups in it applied.
 */
module GroupCommit {
  import opened InternalKeys
  import opened Coding
  import opened LogFormat
  import opened LogReaders
  import opened WriteBatches

  /** A waiting writer; one without a batch only asks for the memtable to be compacted. */
  datatype Request = Request(batch: Option<seq<Op>>, sync: bool)

  // ----- what a list of writers asks for -----

  function OpsOf(writers: seq<Request>): (r: seq<Op>) {
    if writers == [] then []
    else
      var n := |writers| - 1;
      OpsOf(writers[..n]) + if writers[n].batch.Some? then writers[n].batch.value else []
  }

  /** The bytes of the batches, headers included. */
  function SizeOf(writers: seq<Request>): (r: nat) {
    if writers == [] then 0
    else
      var n := |writers| - 1;
      SizeOf(writers[..n]) + if writers[n].batch.Some? then HEADER + |EncodeOps(writers[n].batch.value)| else 0
  }

  lemma {:induction false} OneMore(writers: seq<Request>, i: nat)
    requires i < |writers|
    ensures OpsOf(writers[..i + 1]) == OpsOf(writers[..i]) + if writers[i].batch.Some? then writers[i].batch.value
      else []
    ensures SizeOf(writers[..i + 1]) == SizeOf(writers[..i]) + if writers[i].batch.Some? then HEADER
      + |EncodeOps(writers[i].batch.value)| else 0
  {
    assert writers[..i + 1][..i] == writers[..i];
  }

  lemma {:induction false} OnlyFirst(writers: seq<Request>)
    requires writers != [] && writers[0].batch.Some?
    ensures OpsOf(writers[..1]) == writers[0].batch.value
    ensures SizeOf(writers[..1]) == HEADER + |EncodeOps(writers[0].batch.value)|
  {
    OneMore(writers, 0);
    assert OpsOf(writers[..0]) == [] && SizeOf(writers[..0]) == 0;
  }

  lemma {:induction false} OpsOfAppends(a: seq<Request>, b: seq<Request>)
    ensures OpsOf(a + b) == OpsOf(a) + OpsOf(b)
  {
    if b == [] {
      assert a + b == a;
    } else {
      var n := |b| - 1;
      assert (a + b)[..|a + b| - 1] == a + b[..n];
      OpsOfAppends(a, b[..n]);
    }
  }

  // ----- BuildBatchGroup -----

  function MaxSize(first: nat): (r: nat) {
    if first <= 0x2_0000 then first + 0x2_0000 else 0x10_0000
  }

  ghost predicate SyncStops(writers: seq<Request>, i: nat)
    requires i < |writers|
  {
    writers[i].sync && !writers[0].sync
  }

  ghost predicate SizeStops(writers: seq<Request>, i: nat)
    requires i < |writers|
  {
    writers[i].batch.Some? && SizeOf(writers[..i + 1]) > MaxSize(SizeOf(writers[..1]))
  }

  /** The longest prefix of the queue that does not hide a sync write or grow too big, and what it writes. */
  ghost predicate IsGroup(writers: seq<Request>, group: seq<Op>, last: nat) {
    && last < |writers| && group == OpsOf(writers[..last + 1])
    && (forall i | 0 < i <= last :: !SyncStops(writers, i) && !SizeStops(writers, i))
    && (last + 1 < |writers| ==> SyncStops(writers, last + 1) || SizeStops(writers, last + 1))
  }

  method BuildBatchGroup(writers: seq<Request>) returns (group: seq<Op>, last: nat)
    requires writers != [] && writers[0].batch.Some?
    ensures IsGroup(writers, group, last)
  {
    hide EncodeOps;
    hide OpsOf;
    hide SizeOf;
    OnlyFirst(writers);
    group, last := writers[0].batch.value, 0;
    var size := HEADER + |EncodeOps(group)|;
    var maxSize := if size <= 0x2_0000 then size + 0x2_0000 else 0x10_0000;
    var i := 1;
    while i < |writers|
      invariant 1 <= i <= |writers| && last == i - 1
      invariant group == OpsOf(writers[..i]) && size == SizeOf(writers[..i])
      invariant maxSize == MaxSize(SizeOf(writers[..1]))
      invariant forall j | 0 < j < i :: !SyncStops(writers, j) && !SizeStops(writers, j)
    {
      var w := writers[i];
      OneMore(writers, i);
      if w.sync && !writers[0].sync {
        break;
      }
      if w.batch.Some? {
        size := size + HEADER + |EncodeOps(w.batch.value)|;
        if size > maxSize {
          break;
        }
        group := group + w.batch.value;
      }
      last := i;
      i := i + 1;
    }
  }

  lemma {:induction false} OpsTakeBytes(ops: seq<Op>)
    ensures |ops| <= |EncodeOps(ops)|
  {
    if ops != [] {
      OpsTakeBytes(ops[1..]);
    }
  }

  ghost predicate RequestsFit(writers: seq<Request>) {
    forall i | 0 <= i < |writers| && writers[i].batch.Some? :: AllFit(writers[i].batch.value)
  }

  lemma {:induction false} OpsOfFit(writers: seq<Request>)
    requires RequestsFit(writers)
    ensures forall i | 0 <= i < |OpsOf(writers)| :: Fits(OpsOf(writers)[i])
    ensures |OpsOf(writers)| <= SizeOf(writers)
  {
    if writers != [] {
      var n := |writers| - 1;
      OpsOfFit(writers[..n]);
      if writers[n].batch.Some? { OpsTakeBytes(writers[n].batch.value); }
    }
  }

  /** The count of a group fits its 32 bits. */
  lemma {:induction false} GroupFits(writers: seq<Request>, last: nat)
    requires writers != [] && writers[0].batch.Some? && last < |writers|
    requires RequestsFit(writers)
    requires forall i | 0 < i <= last :: !SizeStops(writers, i)
    ensures AllFit(OpsOf(writers[..last + 1]))
  {
    OpsOfFit(writers[..last + 1]);
    GroupIsBounded(writers, last);
    OnlyFirst(writers);
  }

  lemma {:induction false} GroupIsBounded(writers: seq<Request>, last: nat)
    requires writers != [] && writers[0].batch.Some? && last < |writers|
    requires forall i | 0 < i <= last :: !SizeStops(writers, i)
    ensures OpsOf(writers[..last + 1]) == OpsOf(writers[..1])
      || SizeOf(writers[..last + 1]) <= MaxSize(SizeOf(writers[..1])) <= 0x10_0000
    ensures SizeOf(writers[..1]) <= 0x2_0000 ==>
      OpsOf(writers[..last + 1]) == OpsOf(writers[..1])
      || SizeOf(writers[..last + 1]) <= SizeOf(writers[..1]) + 0x2_0000
  {
    if last > 0 {
      GroupIsBounded(writers, last - 1);
      OneMore(writers, last);
      assert !SizeStops(writers, last);
    }
  }

  // ----- groups, records and entries -----

  /** An operation with the sequence number it was applied with. */
  datatype Applied = Applied(sequence: nat, op: Op)

  /** MemTableInserter: consecutive sequence numbers after `start`. */
  function Numbered(start: nat, ops: seq<Op>): (r: seq<Applied>)
    ensures |r| == |ops| && forall i | 0 <= i < |ops| :: r[i] == Applied(start + 1 + i, ops[i])
  {
    if ops == [] then []
    else
      var n := |ops| - 1;
      Numbered(start, ops[..n]) + [Applied(start + 1 + n, ops[n])]
  }

  lemma {:induction false} NumberedAppends(start: nat, a: seq<Op>, b: seq<Op>)
    ensures Numbered(start, a + b) == Numbered(start, a) + Numbered(start + |a|, b)
  {
  }

  function Flat(groups: seq<seq<Op>>): (r: seq<Op>) {
    if groups == [] then [] else Flat(groups[..|groups| - 1]) + groups[|groups| - 1]
  }

  lemma {:induction false} FlatPrefix(groups: seq<seq<Op>>, k: nat)
    requires k < |groups|
    ensures Flat(groups[..k + 1]) == Flat(groups[..k]) + groups[k]
  {
    assert groups[..k + 1][..k] == groups[..k];
  }

  lemma {:induction false} FlatLength(groups: seq<seq<Op>>, k: nat)
    requires k <= |groups|
    ensures |Flat(groups[..k])| <= |Flat(groups)|
    decreases |groups| - k
  {
    if k == |groups| {
      assert groups[..k] == groups;
    } else {
      FlatPrefix(groups, k);
      FlatLength(groups, k + 1);
    }
  }

  ghost predicate GroupsFit(start: nat, groups: seq<seq<Op>>) {
    start + |Flat(groups)| < LONG_LIMIT - 1 && forall i | 0 <= i < |groups| :: AllFit(groups[i])
  }

  /** The log records of the groups committed since the log was started at sequence number `start`. */
  function Records(start: nat, groups: seq<seq<Op>>): (r: seq<Bytes>)
    ensures |r| == |groups|
  {
    seq(|groups|, k requires 0 <= k < |groups| => Rep(start + |Flat(groups[..k])| + 1, groups[k]))
  }

  lemma {:induction false} RecordsGrow(start: nat, groups: seq<seq<Op>>, group: seq<Op>)
    ensures Records(start, groups + [group]) == Records(start, groups) + [Rep(start + |Flat(groups)| + 1, group)]
    ensures Flat(groups + [group]) == Flat(groups) + group
  {
    hide Rep;
    hide EncodeOps;
    hide Flat;
    var more := groups + [group];
    assert more[..|groups|] == groups && more[..|groups| + 1] == more;
    FlatPrefix(more, |groups|);
    var a, b := Records(start, more), Records(start, groups) + [Rep(start + |Flat(groups)| + 1, group)];
    forall k | 0 <= k < |more| ensures a[k] == b[k] {
      if k < |groups| { assert more[..k] == groups[..k]; }
    }
  }

  // ----- recovery -----

  lemma NoGroups(start: nat, groups: seq<seq<Op>>)
    ensures Numbered(start, Flat(groups[..0])) == []
  {
  }

  /**
   RecoverLogFile: reads records until there is no more and applies each to a memtable.  A bad record is passed over,
   or ends the recovery if `paranoid`.
   */
  method RecoverLogFile(checksum: Checksum, file: Bytes, paranoid: bool, ghost start: nat, ghost groups: seq<seq<Op>>)
    returns (mem: seq<Applied>, maxSequence: nat, corrupt: bool)
    requires GroupsFit(start, groups) && file <= EncodeLog(checksum, Records(start, groups))
    ensures var k := Whole(checksum, Records(start, groups), |file|);
      && mem == Numbered(start, Flat(groups[..k])) && !corrupt
      && maxSequence == if k == 0 then 0 else start + |Flat(groups[..k])|
  {
    hide EncodeLog;
    hide RecordAt;
    hide Records;
    hide Flat;
    hide Numbered;
    hide GroupsFit;
    ghost var records := Records(start, groups);
    ghost var w := Whole(checksum, records, |file|);
    ghost var k := 0;
    var reader := new Reader(checksum, file);
    mem, maxSequence, corrupt := [], 0, false;
    NoGroups(start, groups);
    assert file == EncodeLog(checksum, records)[..|file|];
    EmptyLog(checksum, records);
    while !(corrupt && paranoid)
      invariant reader.Valid() && reader.checksum == checksum && reader.file == file
      invariant reader.reports == []
      invariant k <= w && reader.Offset() == |EncodeLog(checksum, records[..k])|
      invariant mem == Numbered(start, Flat(groups[..k])) && !corrupt
      invariant maxSequence == if k == 0 then 0 else start + |Flat(groups[..k])|
      decreases w - k
    {
      NextOfCutLog(checksum, records, |file|, k);
      var record := reader.ReadRecord();
      if record.None? {
        break;
      }
      assert record.value == records[k];
      mem, maxSequence, corrupt := ApplyRecord(record.value, paranoid, mem, maxSequence, corrupt, start, groups, k);
      k := k + 1;
    }
  }

  lemma {:induction false} RecordIsGroup(start: nat, groups: seq<seq<Op>>, k: nat)
    requires GroupsFit(start, groups) && k < |groups|
    ensures var record, before := Records(start, groups)[k], Flat(groups[..k]);
      && |record| >= 12 && Iterated(record) == (groups[k], Ok)
      && SequenceOf(record) == start + |before| + 1 && CountOf(record) == |groups[k]|
  {
    hide Iterated;
    hide SequenceOf;
    hide CountOf;
    hide EncodeOps;
    hide EncodeFixed32;
    hide EncodeFixed64;
    hide Flat;
    FlatLength(groups, k);
    var first := start + |Flat(groups[..k])| + 1;
    assert Records(start, groups)[k] == Rep(first, groups[k]);
    HeaderIsRead(first, groups[k]);
    IterationUndoesRep(first, groups[k]);
  }

  lemma {:induction false} GroupIsAppended(start: nat, groups: seq<seq<Op>>, k: nat)
    requires k < |groups|
    ensures var before := Flat(groups[..k]);
      && Flat(groups[..k + 1]) == before + groups[k]
      && Numbered(start, Flat(groups[..k + 1])) == Numbered(start, before) + Numbered(start + |before|, groups[k])
  {
    FlatPrefix(groups, k);
    NumberedAppends(start, Flat(groups[..k]), groups[k]);
  }

  /** The body of the loop: one record into the memtable. */
  method ApplyRecord(record: Bytes, paranoid: bool, mem: seq<Applied>, maxSequence: nat, corrupt: bool,
      ghost start: nat, ghost groups: seq<seq<Op>>, ghost k: nat)
    returns (mem': seq<Applied>, maxSequence': nat, corrupt': bool)
    requires GroupsFit(start, groups) && k < |groups| && record == Records(start, groups)[k]
    requires mem == Numbered(start, Flat(groups[..k]))
    requires maxSequence == if k == 0 then 0 else start + |Flat(groups[..k])|
    ensures mem' == Numbered(start, Flat(groups[..k + 1]))
    ensures maxSequence' == start + |Flat(groups[..k + 1])| && corrupt' == corrupt
  {
    hide Iterated;
    hide SequenceOf;
    hide CountOf;
    hide Records;
    hide Flat;
    RecordIsGroup(start, groups, k);
    GroupIsAppended(start, groups, k);
    mem', maxSequence', corrupt' := mem, maxSequence, corrupt;
    if |record| < HEADER {
      return mem, maxSequence, true;
    }
    var ops, status := Iterate(record);
    var sequence := SequenceOf(record);
    mem' := mem + Numbered(sequence - 1, ops);
    if !status.Ok? {
      corrupt' := true;
      if paranoid {
        return;
      }
    }
    var lastSeq := sequence + CountOf(record) - 1;
    if lastSeq > maxSequence {
      maxSequence' := lastSeq;
    }
  }

  // ----- committing -----

  /** The group under way: what it writes, the last writer it serves, and how far it has got. */
  datatype Group = Group(ops: seq<Op>, last: nat, logged: bool, applied: nat)

  /** The groups the log holds. */
  ghost function Logged(groups: seq<seq<Op>>, group: Option<Group>): (r: seq<seq<Op>>) {
    if group.Some? && group.value.logged then groups + [group.value.ops] else groups
  }

  /** The committed groups are the requests answered so far, each once and in the order of arrival; the rest waits. */
  ghost predicate QueueOk(arrived: seq<Request>, answered: nat, writers: seq<Request>, groups: seq<seq<Op>>) {
    && answered <= |arrived| && writers == arrived[answered..] && RequestsFit(arrived)
    && Flat(groups) == OpsOf(arrived[..answered]) && forall i | 0 <= i < |groups| :: AllFit(groups[i])
  }

  ghost predicate GroupOk(writers: seq<Request>, group: Option<Group>) {
    group.Some? ==>
      var g := group.value;
      && g.last < |writers| && g.ops == OpsOf(writers[..g.last + 1]) && AllFit(g.ops)
      && g.applied <= |g.ops| && (g.applied > 0 ==> g.logged)
  }

  ghost predicate LogOk(checksum: Checksum, start: nat, logged: seq<seq<Op>>, dest: Bytes) {
    dest == EncodeLog(checksum, Records(start, logged))
  }

  /** The memtable holds the committed groups and what has been applied of the current one. */
  ghost predicate MemOk(start: nat, groups: seq<seq<Op>>, done: seq<Op>, mem: seq<Applied>) {
    mem == Numbered(start, Flat(groups) + done)
  }

  /** The part of the current group that has been applied. */
  ghost function AppliedOf(group: Option<Group>): (r: seq<Op>) {
    if group.Some? && group.value.applied <= |group.value.ops| then group.value.ops[..group.value.applied] else []
  }

  lemma {:induction false} EnqueueKeeps(arrived: seq<Request>, answered: nat, writers: seq<Request>,
      groups: seq<seq<Op>>, group: Option<Group>, r: Request)
    requires QueueOk(arrived, answered, writers, groups) && GroupOk(writers, group)
    requires r.batch.Some? ==> AllFit(r.batch.value)
    ensures QueueOk(arrived + [r], answered, writers + [r], groups) && GroupOk(writers + [r], group)
  {
    assert (arrived + [r])[..answered] == arrived[..answered];
    if group.Some? { assert (writers + [r])[..group.value.last + 1] == writers[..group.value.last + 1]; }
  }

  lemma {:induction false} QueueFits(arrived: seq<Request>, answered: nat, writers: seq<Request>, groups: seq<seq<Op>>)
    requires QueueOk(arrived, answered, writers, groups)
    ensures RequestsFit(writers)
  {
  }

  lemma {:induction false} AnswerKeeps(arrived: seq<Request>, answered: nat, writers: seq<Request>,
      groups: seq<seq<Op>>)
    requires QueueOk(arrived, answered, writers, groups) && writers != [] && writers[0].batch.None?
    ensures QueueOk(arrived, answered + 1, writers[1..], groups)
  {
    OneMore(arrived, answered);
  }

  lemma {:induction false} LogKeeps(checksum: Checksum, start: nat, groups: seq<seq<Op>>, ops: seq<Op>, dest: Bytes)
    requires LogOk(checksum, start, groups, dest)
    ensures LogOk(checksum, start, groups + [ops],
      dest + EncodeRecord(checksum, |dest|, Rep(start + |Flat(groups)| + 1, ops)))
  {
    hide EncodeRecord;
    hide EncodeLog;
    hide Rep;
    RecordsGrow(start, groups, ops);
    LogGrows(checksum, Records(start, groups), Rep(start + |Flat(groups)| + 1, ops));
  }

  lemma {:induction false} ApplyKeeps(start: nat, groups: seq<seq<Op>>, g: Group, mem: seq<Applied>)
    requires g.applied < |g.ops| && MemOk(start, groups, AppliedOf(Some(g)), mem)
    ensures MemOk(start, groups, AppliedOf(Some(g.(applied := g.applied + 1))),
      mem + [Applied(start + |Flat(groups)| + 1 + g.applied, g.ops[g.applied])])
  {
    hide Flat;
    hide Numbered;
    var done, op := g.ops[..g.applied], g.ops[g.applied];
    assert g.ops[..g.applied + 1] == done + [op];
    assert Flat(groups) + (done + [op]) == (Flat(groups) + done) + [op];
    NumberedAppends(start, Flat(groups) + done, [op]);
    assert Numbered(start + |Flat(groups) + done|, [op]) == [Applied(start + |Flat(groups)| + 1 + g.applied, op)];
  }

  lemma {:induction false} EndKeeps(arrived: seq<Request>, answered: nat, writers: seq<Request>, groups: seq<seq<Op>>,
      g: Group)
    requires QueueOk(arrived, answered, writers, groups) && GroupOk(writers, Some(g))
    ensures QueueOk(arrived, answered + g.last + 1, writers[g.last + 1..], groups + [g.ops])
    ensures Flat(groups + [g.ops]) == Flat(groups) + g.ops
  {
    var n := answered + g.last + 1;
    assert arrived[..n] == arrived[..answered] + writers[..g.last + 1];
    OpsOfAppends(arrived[..answered], writers[..g.last + 1]);
    assert (groups + [g.ops])[..|groups|] == groups;
  }

  class WritePath {
    const checksum: Checksum
    const log: LogFormat.Writer
    /** The last sequence number when this log was started. */
    const start: nat
    var writers: seq<Request>
    var mem: seq<Applied>
    var lastSequence: nat
    var group: Option<Group>

    ghost var groups: seq<seq<Op>>
    /** Every request so far, and how many of them have been answered. */
    ghost var arrived: seq<Request>
    ghost var answered: nat

    ghost predicate Valid()
      reads this, log
    {
      && log.Valid() && log.checksum == checksum
      && QueueOk(arrived, answered, writers, groups) && GroupOk(writers, group)
      && LogOk(checksum, start, Logged(groups, group), log.dest)
      && MemOk(start, groups, AppliedOf(group), mem) && lastSequence == start + |Flat(groups)|
    }

    /** A new log; `waiting` are the writers in the queue at that moment. */
    constructor (checksum: Checksum, lastSequence: nat, waiting: seq<Request>)
      requires RequestsFit(waiting)
      ensures Valid() && fresh(log) && groups == []
      ensures group.None? && arrived == writers == waiting && answered == 0
      ensures start == lastSequence && mem == []
      ensures this.checksum == checksum
    {
      this.checksum, this.start, this.lastSequence := checksum, lastSequence, lastSequence;
      var w := new LogFormat.Writer(checksum, []);
      log := w;
      writers, mem, group := waiting, [], None;
      groups, arrived, answered := [], waiting, 0;
    }

    lemma WritersFit()
      requires Valid()
      ensures RequestsFit(writers)
    {
      QueueFits(arrived, answered, writers, groups);
    }

    /** A writer joins the queue; this may happen at any time, also while a group is being written. */
    method Enqueue(r: Request)
      requires Valid() && (r.batch.Some? ==> AllFit(r.batch.value))
      modifies `writers, `arrived
      ensures Valid() && arrived == old(arrived) + [r] && writers == old(writers) + [r]
    {
      EnqueueKeeps(arrived, answered, writers, groups, group, r);
      writers := writers + [r];
      arrived := arrived + [r];
    }

    /** A writer without a batch has had room made in the memtable, and is done. */
    method AnswerEmpty()
      requires Valid() && group.None? && writers != []
      requires writers[0].batch.None?
      modifies `writers, `answered
      ensures Valid() && writers == old(writers)[1..] && answered == old(answered) + 1
    {
      hide LogOk;
      hide MemOk;
      AnswerKeeps(arrived, answered, writers, groups);
      writers := writers[1..];
      answered := answered + 1;
    }

    /** The writer at the front builds its group. */
    method BeginGroup()
      requires Valid() && group.None? && writers != []
      requires writers[0].batch.Some?
      modifies `group
      ensures Valid() && group.Some? && !group.value.logged
      ensures group.value.applied == 0 && IsGroup(writers, group.value.ops, group.value.last)
    {
      hide QueueOk;
      hide LogOk;
      hide MemOk;
      hide RequestsFit;
      hide SizeStops;
      hide SyncStops;
      hide EncodeOps;
      var ops, last := BuildBatchGroup(writers);
      QueueFits(arrived, answered, writers, groups);
      GroupFits(writers, last);
      group := Some(Group(ops, last, false, 0));
    }

    /** The mutex is not held here: others may join the queue or read, but the group is this writer's alone. */
    method AddToLog()
      requires Valid() && group.Some? && !group.value.logged
      modifies `group, log
      ensures Valid() && group == Some(old(group).value.(logged := true))
    {
      hide QueueOk;
      hide LogOk;
      hide MemOk;
      hide Rep;
      hide EncodeRecord;
      var g := group.value;
      LogKeeps(checksum, start, groups, g.ops, log.dest);
      log.AddRecord(Rep(lastSequence + 1, g.ops));
      group := Some(g.(logged := true));
    }

    /**
     MemTableInserter: the next operation of the group into the memtable; it is newer than anything readers may see.
     */
    method ApplyOne()
      requires Valid() && group.Some? && group.value.logged
      requires group.value.applied < |group.value.ops|
      modifies `group, `mem
      ensures Valid() && group == Some(old(group).value.(applied := old(group).value.applied + 1))
      ensures exists a :: mem == old(mem) + [a] && a.sequence > lastSequence
    {
      hide QueueOk;
      hide LogOk;
      hide MemOk;
      hide AppliedOf;
      var g := group.value;
      ApplyKeeps(start, groups, g, mem);
      mem := mem + [Applied(lastSequence + 1 + g.applied, g.ops[g.applied])];
      group := Some(g.(applied := g.applied + 1));
    }

    /** SetLastSequence, and the writers up to the last of the group are done. */
    method EndGroup()
      requires Valid() && group.Some? && group.value.logged
      requires group.value.applied == |group.value.ops|
      modifies `group, `lastSequence, `writers, `groups, `answered
      ensures Valid() && group.None? && groups == old(groups) + [old(group).value.ops]
      ensures writers == old(writers)[old(group).value.last + 1..]
      ensures answered == old(answered) + old(group).value.last + 1
      ensures lastSequence == old(lastSequence) + |old(group).value.ops|
    {
      hide QueueOk;
      hide LogOk;
      hide EncodeOps;
      var g := group.value;
      EndKeeps(arrived, answered, writers, groups, g);
      lastSequence := lastSequence + |g.ops|;
      writers := writers[g.last + 1..];
      group := None;
      answered := answered + g.last + 1;
      groups := groups + [g.ops];
      assert MemOk(start, groups, AppliedOf(group), mem) by {
        assert g.ops[..|g.ops|] == g.ops;
        assert Flat(groups) + [] == Flat(groups);
      }
    }
  }

  /** Write, for the writer at the front of the queue. */
  method Write(path: WritePath)
    requires path.Valid() && path.group.None? && path.writers != []
    modifies path, path.log
    ensures path.Valid() && path.group.None? && path.arrived == old(path.arrived)
    ensures path.answered > old(path.answered)
    ensures path.lastSequence >= old(path.lastSequence)
  {
    hide QueueOk;
    hide LogOk;
    hide MemOk;
    if path.writers[0].batch.None? {
      path.AnswerEmpty();
      return;
    }
    path.BeginGroup();
    path.AddToLog();
    while path.group.value.applied < |path.group.value.ops|
      invariant path.Valid() && path.group.Some? && path.group.value.logged
      invariant path.group.value.applied <= |path.group.value.ops|
      invariant path.arrived == old(path.arrived) && path.answered == old(path.answered)
      invariant path.lastSequence == old(path.lastSequence)
      decreases |path.group.value.ops| - path.group.value.applied
    {
      path.ApplyOne();
    }
    path.EndGroup();
  }

  /**
   A crash leaves the first `length` bytes of the log.  Recovery rebuilds exactly the groups that are whole in them,
   in the order of arrival and with their sequence numbers: a request is there with its whole group or not at all.
   */
  method RecoverAfterCrash(path: WritePath, length: nat, paranoid: bool)
      returns (mem: seq<Applied>, maxSequence: nat, ghost k: nat)
    requires path.Valid() && length <= |path.log.dest|
    requires GroupsFit(path.start, Logged(path.groups, path.group))
    ensures k <= |Logged(path.groups, path.group)|
    ensures var whole := k; mem == Numbered(path.start, Flat(Logged(path.groups, path.group)[..whole]))
    ensures k > 0 ==> maxSequence == path.start + |mem|
    ensures forall j | 0 <= j <= |Logged(path.groups, path.group)|
      && |EncodeLog(path.checksum, Records(path.start, Logged(path.groups, path.group))[..j])| <= length :: j <= k
    ensures length == |path.log.dest| && path.group.None? ==> mem == path.mem
  {
    hide QueueOk;
    hide GroupOk;
    hide EncodeLog;
    hide Records;
    hide Numbered;
    hide GroupsFit;
    ghost var logged := Logged(path.groups, path.group);
    ghost var records := Records(path.start, logged);
    var corrupt;
    mem, maxSequence, corrupt := RecoverLogFile(path.checksum, path.log.dest[..length], paranoid, path.start, logged);
    k := Whole(path.checksum, records, length);
    WholeIsGreatest(path.checksum, records, length);
    if length == |path.log.dest| {
      assert records[..|records|] == records && logged[..|logged|] == logged;
      assert Flat(path.groups) + [] == Flat(path.groups);
    }
  }

  lemma {:induction false} LogGrows(checksum: Checksum, records: seq<Bytes>, record: Bytes)
    ensures EncodeLog(checksum, records + [record])
         == EncodeLog(checksum, records) + EncodeRecord(checksum, |EncodeLog(checksum, records)|, record)
  {
    hide EncodeRecord;
    assert (records + [record])[..|records|] == records;
  }
}
