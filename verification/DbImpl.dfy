/**
 DBImpl (db_impl.cc): the methods that hold the mutex, each proved to be one step of the state machine.  Between
 `BackgroundCompaction` and `InstallCompactionResults` any other method may run, as it may while the mutex is released.
 */
module DbImpl {
  import opened InternalKeys
  import opened Versions
  import opened CompactionInputs
  import opened CompactionWork
  import opened VersionBuilder
  import opened LsmSteps
  import opened CompactionReads
  import opened Database
  import opened DatabaseInvariant
  import opened Runs
  import opened LiveVersions

  // ----- reading -----

  /** The entry a run supplies to a read that holds every write in (lo, hi]. */
  lemma RunDecides(history: seq<Entry>, run: seq<Entry>, lo: nat, hi: nat, held: iset<Entry>, user: UserKey,
      s: SequenceNumber)
    requires IsHistory(history) && HoldsWrites(history, run, lo, hi) && s <= |history|
    requires forall e | e in run :: e in held
    requires forall e | e in held && Matches(e, user, s) :: InHistory(history, e) && (e in run || e.key.sequence <= lo)
    ensures var r := RunGet(run, user, s); !r.NotFound? ==>
      View(history, held, user, s) == if r.Found? then Some(r.value) else None
  {
    var r := RunGet(run, user, s);
    if !r.NotFound? {
      var e :| e in run && Matches(e, user, s) && r == Saved(e) && forall x | x in run && Matches(x, user, s) ::
        x.key.sequence <= e.key.sequence;
      NewestIsShown(history, held, user, s, e);
    }
  }

  /** A held match that no other held match exceeds is what the read shows. */
  lemma NewestIsShown(history: seq<Entry>, held: iset<Entry>, user: UserKey, s: SequenceNumber, e: Entry)
    requires IsHistory(history) && s <= |history| && e in held
    requires InHistory(history, e) && Matches(e, user, s)
    requires forall x | x in held && Matches(x, user, s) :: x.key.sequence <= e.key.sequence
    ensures View(history, held, user, s) == if e.key.kind.Value? then Some(e.value) else None
  {
    forall i | e.key.sequence <= i < s && history[i].key.user == user ensures history[i] !in held {
      assert history[i].key.sequence == i + 1;
    }
    LastHeldIs(history, held, user, s, e.key.sequence);
  }

  lemma NothingIsShown(history: seq<Entry>, held: iset<Entry>, user: UserKey, s: SequenceNumber)
    requires IsHistory(history) && s <= |history|
    requires forall x | x in held :: !Matches(x, user, s)
    ensures View(history, held, user, s) == None
  {
    forall i | 0 <= i < s && history[i].key.user == user ensures history[i] !in held {
      assert history[i].key.sequence == i + 1;
    }
    LastHeldIs(history, held, user, s, 0);
  }

  lemma HeldInHistory(st: State)
    requires MemoryOk(st) && FilesOk(st)
    ensures forall e | e in All(st) :: InHistory(st.history, e) && (e in st.mem || e.key.sequence <= st.memStart)
    ensures forall e | e in All(st) && e !in st.mem ::
      (st.imm.Some? && e in st.imm.value) || (Stored(st.version, e) && e.key.sequence <= st.immStart)
  {
  }

  function ValueOf(found: Saver): (r: Option<Bytes>) {
    if found.Found? then Some(found.value) else None
  }

  /** The newest match in the files, if there is any. */
  ghost predicate FoundInFiles(v: Version, user: UserKey, s: SequenceNumber, found: Saver) {
    && (found.NotFound? ==> forall e | Stored(v, e) :: !Matches(e, user, s))
    && (!found.NotFound? ==> exists e :: NewestIn(v, user, s, e) && found == Saved(e))
  }

  /** Memtable first, then the immutable one, then the files; the first that knows the key decides. */
  ghost predicate Answers(mem: seq<Entry>, imm: Option<seq<Entry>>, v: Version, user: UserKey, s: SequenceNumber,
      r: Option<Bytes>)
    requires Sorted(mem) && (imm.Some? ==> Sorted(imm.value))
  {
    if !RunGet(mem, user, s).NotFound? then r == ValueOf(RunGet(mem, user, s))
    else if imm.Some? && !RunGet(imm.value, user, s).NotFound? then r == ValueOf(RunGet(imm.value, user, s))
    else exists found :: FoundInFiles(v, user, s, found) && r == ValueOf(found)
  }

  /** The part of a lookup that runs without the mutex, on what was captured under it. */
  method DbGet(mem: seq<Entry>, imm: Option<seq<Entry>>, version: Version, user: UserKey, s: SequenceNumber)
    returns (r: Option<Bytes>)
    requires Sorted(mem) && (imm.Some? ==> Sorted(imm.value)) && LsmInvariant(version)
    ensures Answers(mem, imm, version, user, s, r)
  {
    var found := RunGet(mem, user, s);
    if found.NotFound? && imm.Some? {
      found := RunGet(imm.value, user, s);
    }
    if found.NotFound? {
      found := Get(version, user, s);
      assert FoundInFiles(version, user, s, found);
    }
    r := ValueOf(found);
  }

  lemma CapturedIsReady(st: State)
    requires Shape(st)
    ensures Sorted(st.mem) && (st.imm.Some? ==> Sorted(st.imm.value)) && LsmInvariant(st.version)
  {
  }

  /**
   That is exactly the newest entry held at or below `s`, and stays so when the memtable has grown since by writes that
   the read does not see.
   */
  lemma AnswersIsView(st: State, mem: seq<Entry>, user: UserKey, s: SequenceNumber, r: Option<Bytes>)
    requires MemoryOk(st) && FilesOk(st) && s <= |st.history|
    requires Sorted(mem) && RunGet(mem, user, s) == RunGet(st.mem, user, s)
    requires (st.imm.Some? ==> Sorted(st.imm.value)) && Answers(mem, st.imm, st.version, user, s, r)
    ensures r == View(st.history, All(st), user, s)
  {
    hide View;
    hide LsmInvariant;
    HeldInHistory(st);
    if !RunGet(mem, user, s).NotFound? {
      RunDecides(st.history, st.mem, st.memStart, |st.history|, All(st), user, s);
    } else if st.imm.Some? && !RunGet(st.imm.value, user, s).NotFound? {
      ImmDecides(st, user, s);
    } else {
      var found :| FoundInFiles(st.version, user, s, found) && r == ValueOf(found);
      FilesDecide(st, user, s, found);
    }
  }

  /** So a lookup at a live snapshot, or at the last sequence number, gives what was written. */
  lemma AnswersAsWritten(st: State, mem: seq<Entry>, user: UserKey, s: nat, r: Option<Bytes>)
    requires Inv(st) && (s == st.lastSequence || s in st.snapshots)
    requires Sorted(mem) && (st.imm.Some? ==> Sorted(st.imm.value))
    requires s <= MAX_SEQUENCE && RunGet(mem, user, s) == RunGet(st.mem, user, s)
    requires Answers(mem, st.imm, st.version, user, s, r)
    ensures s <= |st.history| && r == SpecGet(st.history, user, s)
  {
    hide ReadsAgree;
    hide View;
    hide SpecGet;
    hide Answers;
    LiveReadsAgree(st, user, s);
    AnswersIsView(st, mem, user, s, r);
  }

  lemma ImmDecides(st: State, user: UserKey, s: SequenceNumber)
    requires MemoryOk(st) && FilesOk(st) && s <= |st.history|
    requires st.imm.Some?
    requires RunGet(st.mem, user, s).NotFound?
    ensures var r := RunGet(st.imm.value, user, s);
      !r.NotFound? ==> View(st.history, All(st), user, s) == if r.Found? then Some(r.value) else None
  {
    HeldInHistory(st);
    RunDecides(st.history, st.imm.value, st.immStart, st.memStart, All(st), user, s);
  }

  lemma FilesDecide(st: State, user: UserKey, s: SequenceNumber, found: Saver)
    requires MemoryOk(st) && FilesOk(st) && s <= |st.history|
    requires RunGet(st.mem, user, s).NotFound? && (st.imm.Some? ==> RunGet(st.imm.value, user, s).NotFound?)
    requires found.NotFound? ==> forall e | Stored(st.version, e) :: !Matches(e, user, s)
    requires !found.NotFound? ==> exists e :: NewestIn(st.version, user, s, e) && found == Saved(e)
    ensures View(st.history, All(st), user, s) == if found.Found? then Some(found.value) else None
  {
    HeldInHistory(st);
    assert forall e | e in All(st) && Matches(e, user, s) :: Stored(st.version, e);
    if found.NotFound? {
      NothingIsShown(st.history, All(st), user, s);
    } else {
      var e :| NewestIn(st.version, user, s, e) && found == Saved(e);
      NewestIsShown(st.history, All(st), user, s, e);
    }
  }

  /** A reader that captured the memtable at snapshot `s` is not disturbed by writes that arrive later. */
  lemma LaterWritesInvisible(mem: seq<Entry>, e: Entry, user: UserKey, s: SequenceNumber)
    requires Sorted(mem) && (forall x | x in mem :: x.key.sequence < e.key.sequence) && e.key.sequence > s
    requires forall x, y | x in mem && y in mem && x.key.sequence == y.key.sequence :: x == y
    ensures RunGet(InsertSorted(mem, e), user, s) == RunGet(mem, user, s)
  {
    var mem' := InsertSorted(mem, e);
    var r, r' := RunGet(mem, user, s), RunGet(mem', user, s);
    if !r.NotFound? {
      var x :| x in mem && Matches(x, user, s) && r == Saved(x) && forall z | z in mem && Matches(z, user, s) ::
        z.key.sequence <= x.key.sequence;
      assert x in mem';
      var y :| y in mem' && Matches(y, user, s) && r' == Saved(y) && forall z | z in mem' && Matches(z, user, s) ::
        z.key.sequence <= y.key.sequence;
      assert y in mem && x.key.sequence == y.key.sequence;
    }
    assert forall y | y in mem' && Matches(y, user, s) :: y in mem;
  }

  lemma ShapeParts(st: State)
    requires Shape(st)
    ensures MemoryOk(st) && FilesOk(st) && st.horizon <= |st.history|
    ensures st.lastSequence <= |st.history|
    ensures st.running.Some? ==> st.running.value.c.level + 1 < NUM_LEVELS
  {
  }

  lemma SnapshotIsLive(st: State, s: nat)
    requires Shape(st) && (s == st.lastSequence || s in st.snapshots)
    ensures st.horizon <= s <= |st.history| < MAX_SEQUENCE
  {
    if s in st.snapshots {
      var i :| 0 <= i < |st.snapshots| && st.snapshots[i] == s;
    }
  }

  lemma SnapshotsFit(st: State)
    requires Shape(st)
    ensures SmallestSnapshot(st) <= MAX_SEQUENCE
  {
  }

  /** What picking a compaction needs. */
  lemma PickIsReady(st: State)
    requires Shape(st)
    ensures LsmInvariant(st.version) && Tidy(st.version)
  {
    InvariantIsTidy(st.version);
  }

  lemma IdleHoldsNothing(st: State)
    requires Shape(st) && st.running.None?
    ensures RunningCompaction !in st.holders && SmallestSnapshot(st) <= MAX_SEQUENCE
  {
  }

  lemma MemInHistory(st: State)
    requires Shape(st)
    ensures Sorted(st.mem) && forall x | x in st.mem :: InHistory(st.history, x)
  {
  }

  /** Nothing is chosen exactly when there is no need. */
  lemma OneNeed(v: Version, fileToCompact: Option<(nat, File)>, pointers: seq<Option<InternalKey>>, maxFileSize: nat,
      c: Option<Inputs>)
    requires exists need :: Chooses(v, fileToCompact, need, pointers, maxFileSize, c)
    ensures IsNeed(v, fileToCompact, Idle) <==> c.None?
  {
  }

  /** One file that needs no merging and would not overlap too much two levels down just moves. */
  predicate IsTrivialMove(c: Inputs, maxFileSize: nat) {
    |c.in0| == 1 && c.in1 == [] && TotalFileSize(c.grandparents) <= 10 * maxFileSize
  }

  /** What comes of a choice: nothing, a moved file, or a running compaction, and the pointer of the level moves on. */
  ghost predicate Scheduled(st: State, st': State, pointers: seq<Option<InternalKey>>,
      pointers': seq<Option<InternalKey>>, maxFileSize: nat, c: Option<Inputs>)
    requires SmallestSnapshot(st) <= MAX_SEQUENCE
  {
    match c
    case None => st' == st && pointers' == pointers
    case Some(chosen) =>
      && (exists f :: IsLargest(chosen.in0, f) && chosen.level < |pointers|
           && pointers' == pointers[chosen.level := Some(f.largest)])
      && if IsTrivialMove(chosen, maxFileSize) then MovedBy(st, st', chosen) else PickedTo(st, st', chosen)
  }

  ghost predicate ScheduledFor(st: State, st': State, pointers: seq<Option<InternalKey>>,
      pointers': seq<Option<InternalKey>>, maxFileSize: nat, fileToCompact: Option<(nat, File)>, need: Trigger,
      c: Option<Inputs>)
  {
    && SmallestSnapshot(st) <= MAX_SEQUENCE && Chooses(st.version, fileToCompact, need, pointers, maxFileSize, c)
    && Scheduled(st, st', pointers, pointers', maxFileSize, c)
  }

  lemma LevelOfChoice(v: Version, fileToCompact: Option<(nat, File)>, need: Trigger,
      pointers: seq<Option<InternalKey>>, maxFileSize: nat, c: Option<Inputs>)
    requires Chooses(v, fileToCompact, need, pointers, maxFileSize, c)
    ensures c.Some? ==> c.value.level + 1 < NUM_LEVELS
  {
  }

  // ----- from outputs to files -----

  function OutputFile(o: Output, number: nat, size: nat): (r: File) {
    File(number, size, o.smallest, o.largest, o.entries)
  }

  lemma {:induction false} FlattenAt(outputs: seq<Output>, i: nat, j: nat, x: Entry, y: Entry)
    requires i < j < |outputs| && Sorted(Flatten(outputs)) && x in outputs[i].entries
    requires y in outputs[j].entries
    ensures Less(x.key, y.key)
  {
    var n := |outputs| - 1;
    var front := outputs[..n];
    assert Flatten(outputs) == Flatten(front) + outputs[n].entries;
    FlattenPrefixSorted(Flatten(front), outputs[n].entries);
    if j < n {
      assert front[i] == outputs[i] && front[j] == outputs[j];
      FlattenAt(front, i, j, x, y);
    } else {
      FlattenHas(front, i, x);
      var a :| 0 <= a < |Flatten(front)| && Flatten(front)[a] == x;
      var b :| 0 <= b < |outputs[n].entries| && outputs[n].entries[b] == y;
      assert Flatten(outputs)[a] == x && Flatten(outputs)[|Flatten(front)| + b] == y;
    }
  }

  lemma FlattenPrefixSorted(a: seq<Entry>, b: seq<Entry>)
    requires Sorted(a + b)
    ensures Sorted(a) && Sorted(b)
  {
    forall i, j | 0 <= i < j < |a| ensures Less(a[i].key, a[j].key) {
      assert (a + b)[i] == a[i] && (a + b)[j] == a[j];
    }
    forall i, j | 0 <= i < j < |b| ensures Less(b[i].key, b[j].key) {
      assert (a + b)[|a| + i] == b[i] && (a + b)[|a| + j] == b[j];
    }
  }

  lemma {:induction false} FlattenHas(outputs: seq<Output>, i: nat, x: Entry)
    requires i < |outputs| && x in outputs[i].entries
    ensures x in Flatten(outputs)
  {
    if i < |outputs| - 1 {
      assert outputs[..|outputs| - 1][i] == outputs[i];
      FlattenHas(outputs[..|outputs| - 1], i, x);
    }
  }

  lemma {:induction false} FlattenFrom(outputs: seq<Output>, x: Entry) returns (i: nat)
    requires x in Flatten(outputs)
    ensures i < |outputs| && x in outputs[i].entries
  {
    var n := |outputs| - 1;
    if x in outputs[n].entries {
      i := n;
    } else {
      i := FlattenFrom(outputs[..n], x);
    }
  }

  lemma {:induction false} OutputSorted(outputs: seq<Output>, i: nat)
    requires i < |outputs| && Sorted(Flatten(outputs))
    ensures Sorted(outputs[i].entries)
  {
    var n := |outputs| - 1;
    FlattenPrefixSorted(Flatten(outputs[..n]), outputs[n].entries);
    if i < n {
      assert outputs[..n][i] == outputs[i];
      OutputSorted(outputs[..n], i);
    }
  }

  ghost predicate AreFiles(outputs: seq<Output>, outs: seq<File>) {
    |outs| == |outputs| && forall i {:trigger outs[i]} | 0 <= i < |outs| ::
      outs[i].smallest == outputs[i].smallest && outs[i].largest == outputs[i].largest
        && outs[i].entries == outputs[i].entries
  }

  ghost predicate DistinctFileNumbers(outs: seq<File>) {
    forall i, j | 0 <= i < j < |outs| :: outs[i].number != outs[j].number
  }

  /** The outputs of the compaction loop, written to files with fresh numbers, are what an install expects. */
  lemma OutputsAreProduced(st: State, r: Running, input: seq<Entry>, outputs: seq<Output>, outs: seq<File>)
    requires Sorted(input) && forall e :: e in input <==> FromInputs(r.c, e)
    requires OutputsWellFormed(outputs) && Sorted(Flatten(outputs))
    requires forall e :: e in Flatten(outputs) <==>
      e in input && !Dropped(e, input, r.smallestSnapshot, r.base, r.c.level)
    requires AreFiles(outputs, outs) && DistinctFileNumbers(outs)
    requires forall o | o in outs :: o.number in st.pendingOutputs
    ensures Produced(st, r, input, outs)
  {
    forall o, p | o in outs && p in outs ensures o.number == p.number ==> o == p {
      var i :| 0 <= i < |outs| && outs[i] == o;
      var j :| 0 <= j < |outs| && outs[j] == p;
    }
    forall o | o in outs ensures WellFormed(o) {
      var i :| 0 <= i < |outs| && outs[i] == o;
      assert outputs[i].entries == o.entries;
      OutputSorted(outputs, i);
    }
    forall o, p | o in outs && p in outs && o != p ensures Apart(o, p) {
      var i :| 0 <= i < |outs| && outs[i] == o;
      var j :| 0 <= j < |outs| && outs[j] == p;
      OutputsApart(outputs, outs, i, j);
    }
    assert OutputsKeep(r.c, input, r.smallestSnapshot, r.base, outs) by {
      FilesKeep(r.c, input, r.smallestSnapshot, r.base, outputs, outs);
    }
  }

  lemma OutputsApart(outputs: seq<Output>, outs: seq<File>, i: nat, j: nat)
    requires OutputsWellFormed(outputs) && Sorted(Flatten(outputs)) && AreFiles(outputs, outs)
    requires i < |outs| && j < |outs| && i != j
    ensures Apart(outs[i], outs[j])
  {
    assert outputs[i].entries == outs[i].entries && outputs[j].entries == outs[j].entries;
    var a, b := outputs[i].entries, outputs[j].entries;
    if i < j {
      FlattenAt(outputs, i, j, a[|a| - 1], b[0]);
    } else {
      FlattenAt(outputs, j, i, b[|b| - 1], a[0]);
    }
  }

  lemma FilesKeep(c: Inputs, input: seq<Entry>, smallestSnapshot: SequenceNumber, base: Version, outputs: seq<Output>,
      outs: seq<File>)
    requires forall e :: e in input <==> FromInputs(c, e)
    requires AreFiles(outputs, outs)
    requires forall e :: e in Flatten(outputs) <==> e in input && !Dropped(e, input, smallestSnapshot, base, c.level)
    ensures OutputsKeep(c, input, smallestSnapshot, base, outs)
  {
    forall o, e | o in outs && e in o.entries ensures e in Flatten(outputs) {
      var i :| 0 <= i < |outs| && outs[i] == o;
      FlattenHas(outputs, i, e);
    }
    forall e | e in Flatten(outputs) ensures exists o :: o in outs && e in o.entries {
      var i := FlattenFrom(outputs, e);
      assert outs[i] in outs && e in outs[i].entries;
    }
  }

  // ----- steps on values -----

  lemma FlushedStep(st: State, level: nat, f: File, v: Version) returns (st': State)
    requires Shape(st) && st.imm.Some? && st.imm.value != []
    requires level < NUM_LEVELS && WellFormed(f) && f.entries == st.imm.value
    requires f.number == st.nextFile && FlushLevelOk(st.version, f, level) && AddedTo(st.version, level, f, v)
    ensures st' == st.(imm := None, immStart := st.memStart, version := v, nextFile := st.nextFile + 1,
      disk := st.disk + {f.number})
    ensures FlushStep(st, st') && Shape(st') && FlushedTo(st, st', level, f)
  {
    st' := st.(imm := None, immStart := st.memStart, version := v, nextFile := st.nextFile + 1,
      disk := st.disk + {f.number});
    assert FlushedTo(st, st', level, f);
    FlushKeepsShape(st, st');
  }

  /** The table goes to the level that the picker finds for it. */
  ghost predicate FlushedAt(st: State, st': State, maxFileSize: nat, level: nat, f: File) {
    && st.imm.Some? && FlushedTo(st, st', level, f)
    && LandsAt(st.version, f.smallest.user, f.largest.user, maxFileSize, level)
  }

  lemma EmptyFlushStep(st: State) returns (st': State)
    requires Shape(st) && st.imm == Some([])
    ensures st' == st.(imm := None, immStart := st.memStart, nextFile := st.nextFile + 1)
    ensures FlushStep(st, st') && Shape(st')
  {
    st' := st.(imm := None, immStart := st.memStart, nextFile := st.nextFile + 1);
    FlushKeepsShape(st, st');
  }

  lemma MovedStep(st: State, c: Inputs, v: Version) returns (st': State)
    requires Shape(st) && st.running.None? && Picked(st.version, c)
    requires |c.in0| == 1 && c.in1 == []
    requires Edited(st.version, CompactionEdit(c, c.in0), v)
    ensures st' == st.(version := v) && TrivialMoveStep(st, st') && Shape(st')
  {
    st' := st.(version := v);
    assert MovedBy(st, st', c);
    MoveKeepsShape(st, st');
  }

  lemma PickedStep(st: State, c: Inputs) returns (st': State)
    requires Shape(st) && st.running.None? && SmallestSnapshot(st) <= MAX_SEQUENCE
    requires Picked(st.version, c)
    ensures st' == st.(running := Some(Running(c, SmallestSnapshot(st), st.version)),
      holders := st.holders[RunningCompaction := st.version])
    ensures PickStep(st, st') && Shape(st')
  {
    hide Shape;
    hide Picked;
    st' := st.(running := Some(Running(c, SmallestSnapshot(st), st.version)),
      holders := st.holders[RunningCompaction := st.version]);
    assert PickedTo(st, st', c);
    PickKeepsShape(st, st');
  }

  lemma InstalledStep(st: State, input: seq<Entry>, outs: seq<File>, v: Version) returns (st': State)
    requires Shape(st) && st.running.Some? && Produced(st, st.running.value, input, outs)
    requires Edited(st.version, CompactionEdit(st.running.value.c, outs), v)
    ensures var r := st.running.value;
      st' == st.(version := v, running := None, pendingOutputs := {}, holders := st.holders - {RunningCompaction},
                 horizon := if st.horizon < r.smallestSnapshot then r.smallestSnapshot else st.horizon)
    ensures InstallStep(st, st') && Shape(st')
    ensures ReadsAgree(st) ==> (ReadsAgree(st') <==> !ResurrectingInstall(st, st'))
  {
    var r := st.running.value;
    st' := st.(version := v, running := None, pendingOutputs := {}, holders := st.holders - {RunningCompaction},
               horizon := if st.horizon < r.smallestSnapshot then r.smallestSnapshot else st.horizon);
    assert InstalledWith(st, st', input, outs);
    InstallKeepsShape(st, st');
    if ReadsAgree(st) { InstallKeepsReadsIff(st, st'); }
  }

  /** Opening output files changes nothing a read depends on. */
  ghost predicate SameReads(st: State, st': State) {
    st' == st.(nextFile := st'.nextFile, pendingOutputs := st'.pendingOutputs, disk := st'.disk)
  }

  lemma InstallEnds(st: State, st': State)
    requires InstallStep(st, st')
    ensures st'.running.None? && st'.history == st.history
  {
    hide Produced;
    hide Edited;
  }

  lemma ClosedInstallKeepsReads(st: State, st1: State, st2: State)
    requires Shape(st) && st.running.Some? && SameReads(st, st1)
    requires ReadsAgree(st) && NextLevelClosed(st.version, st.running.value.c)
    requires InstallStep(st1, st2)
    requires ReadsAgree(st1) ==> (st2.horizon <= |st2.history| && (ReadsAgree(st2) <==> !ResurrectingInstall(st1, st2)))
    ensures st2.horizon <= |st2.history| && ReadsAgree(st2)
  {
    assert All(st1) == All(st);
    SameHeldSameReads(st, st1);
    var r := st.running.value;
    if st2.horizon <= |st1.history| {
      ClosedNeverResurrects(st1.history, Upper(st1), st1.version, r.c, r.smallestSnapshot, r.base, st2.horizon);
    }
  }

  // ----- a version from its files -----

  /** The edit that adds every file of a version. */
  method FilesOfVersion(v: Version) returns (newFiles: seq<(nat, File)>)
    ensures forall a: (nat, File) | a in newFiles :: a.0 < NUM_LEVELS
    ensures forall l: nat | l < NUM_LEVELS :: AddedAt(newFiles, l) == Files(v[l])
  {
    newFiles := [];
    for level := 0 to NUM_LEVELS
      invariant forall a: (nat, File) | a in newFiles :: a.0 < level
      invariant forall l: nat | l < level :: AddedAt(newFiles, l) == Files(v[l])
    {
      ghost var before := newFiles;
      for i := 0 to |v[level]|
        invariant forall a: (nat, File) | a in newFiles :: a.0 <= level
        invariant forall l: nat | l < level :: AddedAt(newFiles, l) == Files(v[l])
        invariant AddedAt(newFiles, level) == Files(v[level][..i])
      {
        AddedMore(newFiles, level, v[level][i]);
        assert Files(v[level][..i + 1]) == Files(v[level][..i]) + {v[level][i]};
        newFiles := newFiles + [(level, v[level][i])];
      }
      assert v[level][..|v[level]|] == v[level];
    }
  }

  lemma AddedMore(newFiles: seq<(nat, File)>, level: nat, f: File)
    ensures forall l: nat ::
      AddedAt(newFiles + [(level, f)], l) == AddedAt(newFiles, l) + if l == level then {f} else {}
  {
  }

  /** Installed on an empty version, all files of a version give that version. */
  lemma AllFilesGiveVersion(v: Version, empty: Version, newFiles: seq<(nat, File)>, v': Version)
    requires LsmInvariant(v) && empty == [[], [], [], [], [], [], []]
    requires forall l: nat | l < NUM_LEVELS :: AddedAt(newFiles, l) == Files(v[l])
    requires Edited(empty, VersionEdit({}, newFiles), v')
    ensures v' == v
  {
    forall l: nat | l < NUM_LEVELS ensures v'[l] == v[l] {
      assert ChangeAt(VersionEdit({}, newFiles), l) == Change({}, Files(v[l]));
      assert Files(empty[l]) == {};
      assert Files(v'[l]) == Files(v[l]);
      SortedIsUnique(v'[l], v[l]);
    }
  }

  lemma AllFilesInstallable(v: Version, empty: Version, newFiles: seq<(nat, File)>)
    requires LsmInvariant(v) && empty == [[], [], [], [], [], [], []]
    requires forall a: (nat, File) | a in newFiles :: a.0 < NUM_LEVELS
    requires forall l: nat | l < NUM_LEVELS :: AddedAt(newFiles, l) == Files(v[l])
    ensures CanInstall(empty, VersionEdit({}, newFiles))
  {
    forall l: nat | l < NUM_LEVELS
      ensures NumbersNameFiles(Files(empty[l]) + AddedAt(newFiles, l)) && Files(empty[l]) !! AddedAt(newFiles, l)
    {
      assert Files(empty[l]) == {};
      forall f, g | f in Files(v[l]) && g in Files(v[l]) && f.number == g.number ensures f == g {
        assert SameNumber(l, f, l, g);
      }
    }
  }

  /** A list of versions whose current one is the version given. */
  method ListOf(v: Version) returns (vs: VersionList)
    requires LsmInvariant(v)
    ensures fresh(vs) && fresh(vs.dummyVersions) && fresh(vs.created) && fresh(vs.known)
    ensures vs.Valid() && vs.CurrentValue() == v && vs.holders == map[] && vs.Held() == map[]
  {
    hide Edited;
    hide LsmInvariant;
    hide AddedAt;
    hide Files;
    hide NumbersNameFiles;
    hide VersionList.LinksOk;
    hide VersionList.RefsOk;
    hide VersionList.FilesOk;
    vs := new VersionList();
    var newFiles := FilesOfVersion(v);
    ghost var empty := vs.CurrentValue();
    AllFilesInstallable(v, empty, newFiles);
    vs.LogAndApply(VersionEdit({}, newFiles));
    AllFilesGiveVersion(v, empty, newFiles, vs.CurrentValue());
  }

  lemma StartIsSound(history: seq<Entry>, v: Version, nextFile: nat, present: set<nat>)
    requires Shape(FromTables(history, v, nextFile, present))
    ensures LsmInvariant(v)
  {
  }

  // ----- the database object -----

  datatype Operation = Operation(user: UserKey, kind: ValueType, value: Bytes)

  class DB {
    const maxFileSize: nat
    const fileSize: seq<Entry> -> nat
    const versions: VersionList

    var mem: seq<Entry>
    var imm: Option<seq<Entry>>
    var lastSequence: nat
    var snapshots: seq<nat>
    var running: Option<Running>
    /** The version that the running compaction holds. */
    var inputVersion: LiveVersion?
    var nextFile: nat
    var pendingOutputs: set<nat>
    var disk: set<nat>
    var compactPointer: seq<Option<InternalKey>>

    ghost var history: seq<Entry>
    ghost var memStart: nat
    ghost var immStart: nat
    ghost var horizon: nat

    ghost function Abs(): (r: State)
      reads this, versions
    {
      State(history, mem, imm, memStart, immStart, versions.CurrentValue(), lastSequence, snapshots, running, horizon,
        nextFile, pendingOutputs, versions.Held(), disk)
    }

    ghost predicate InputOk()
      reads `running, `inputVersion, versions
    {
      running.Some? ==>
        inputVersion != null && RunningCompaction in versions.holders
          && versions.holders[RunningCompaction] == inputVersion
    }

    ghost predicate Valid()
      reads this, versions, versions.dummyVersions, versions.created, versions.known
    {
      Shape(Abs()) && versions.Valid() && InputOk() && |compactPointer| == NUM_LEVELS
    }

    constructor (maxFileSize: nat, fileSize: seq<Entry> -> nat)
      ensures Valid() && Init(Abs())
      ensures fresh(versions) && fresh(versions.dummyVersions) && fresh(versions.created)
      ensures fresh(versions.known)
    {
      hide VersionList.Valid;
      hide VersionList.CurrentValue;
      hide VersionList.Held;
      hide Shape;
      hide ReadsAgree;
      hide VersionList.LinksOk;
      hide Nodes;
      this.maxFileSize, this.fileSize := maxFileSize, fileSize;
      mem, imm, lastSequence, snapshots, running, inputVersion := [], None, 0, [], None, null;
      nextFile, pendingOutputs, disk := 2, {}, {};
      compactPointer := seq(NUM_LEVELS, _ => None);
      history, memStart, immStart, horizon := [], 0, 0, 0;
      var vs := new VersionList();
      versions := vs;
      new;
      InitIsOk(Abs());
    }

    /** A database that starts with a recovered version: the version becomes the current one of a new list. */
    constructor FromVersion(maxFileSize: nat, fileSize: seq<Entry> -> nat, version: Version, lastSequence: nat,
        nextFile: nat, present: set<nat>, ghost history: seq<Entry>)
      requires Inv(FromTables(history, version, nextFile, present)) && lastSequence == |history|
      ensures Valid() && Abs() == FromTables(history, version, nextFile, present)
      ensures fresh(versions) && fresh(versions.dummyVersions) && fresh(versions.created)
      ensures fresh(versions.known)
    {
      hide VersionList.Valid;
      hide VersionList.CurrentValue;
      hide VersionList.Held;
      hide Shape;
      hide ReadsAgree;
      hide VersionList.LinksOk;
      hide Nodes;
      hide Edited;
      hide CanInstall;
      this.maxFileSize, this.fileSize := maxFileSize, fileSize;
      mem, imm, snapshots, running, inputVersion := [], None, [], None, null;
      this.lastSequence, this.nextFile, pendingOutputs, disk := lastSequence, nextFile, {}, present;
      compactPointer := seq(NUM_LEVELS, _ => None);
      this.history, memStart, immStart, horizon := history, lastSequence, lastSequence, lastSequence;
      StartIsSound(history, version, nextFile, present);
      var vs := ListOf(version);
      versions := vs;
    }

    // ----- references to versions -----

    /** A reader gets the current version to hold on to, whatever happens to the database. */
    method RefVersion(ghost h: Holder) returns (v: LiveVersion)
      requires Valid() && IsReader(h) && h !in versions.holders
      modifies versions`holders, versions.created`refs
      ensures Valid() && PinStep(old(Abs()), Abs()) && v.Value() == old(Abs()).version
      ensures Abs() == old(Abs()).(holders := old(Abs()).holders[h := v.Value()])
      ensures versions.holders == old(versions.holders)[h := v]
    {
      hide VersionList.Valid;
      ghost var st := Abs();
      CurrentIsThere();
      v := versions.Ref(h);
      HeldMore(old(versions.holders), h, v);
      assert Abs() == st.(holders := st.holders[h := v.Value()]);
      assert PinStep(st, Abs());
      FileStepsKeepShape(st, Abs());
    }

    method UnrefVersion(ghost h: Holder, v: LiveVersion)
      requires Valid() && IsReader(h) && h in versions.holders
      requires versions.holders[h] == v
      modifies versions`holders, versions`live, versions`known, versions.dummyVersions, versions.created
      modifies versions.known`refs
      ensures Valid() && UnpinStep(old(Abs()), Abs()) && Abs() == old(Abs()).(holders := old(Abs()).holders - {h})
      ensures versions.holders == old(versions.holders) - {h} && versions.known <= old(versions.known)
    {
      hide VersionList.Valid;
      ghost var st := Abs();
      versions.Release(h, v);
      HeldLess(old(versions.holders), h);
      assert Abs() == st.(holders := st.holders - {h});
      assert UnpinStep(st, Abs());
      FileStepsKeepShape(st, Abs());
    }

    lemma CurrentIsThere()
      requires versions.Valid()
      ensures versions.current != null && versions.CurrentValue() == versions.current.Value()
    {
    }

    /**
     The start of a lookup: it captures the memtables and the current version, which it holds from now on, and lets the
     mutex go.  Any other method may run before it has the mutex again.
     */
    method BeginGet(id: nat, snapshot: Option<nat>)
        returns (s: nat, captured: seq<Entry>, capturedImm: Option<seq<Entry>>, current: LiveVersion)
      requires Valid() && Lookup(id) !in versions.holders && (snapshot.Some? ==> snapshot.value in snapshots)
      modifies versions`holders, versions.created`refs
      ensures Valid() && PinStep(old(Abs()), Abs()) && versions.holders == old(versions.holders)[Lookup(id) := current]
      ensures Abs() == old(Abs()).(holders := old(Abs()).holders[Lookup(id) := current.Value()])
      ensures s == if snapshot.Some? then snapshot.value else lastSequence
      ensures captured == mem && capturedImm == imm && current.Value() == old(Abs()).version
    {
      s := if snapshot.Some? then snapshot.value else lastSequence;
      captured, capturedImm := mem, imm;
      current := RefVersion(Lookup(id));
    }

    /** A lookup during which nothing else happens; `Lookups` has the others. */
    method Get(id: nat, user: UserKey, snapshot: Option<nat>) returns (r: Option<Bytes>)
      requires Valid() && ReadsAgree(Abs()) && Lookup(id) !in versions.holders
      requires snapshot.Some? ==> snapshot.value in snapshots
      modifies versions, versions.dummyVersions, versions.created, versions.known
      ensures Valid() && Abs() == old(Abs()) && versions.known <= old(versions.known)
      ensures var s := if snapshot.Some? then snapshot.value else lastSequence;
        s <= |history| && r == SpecGet(history, user, s)
    {
      hide VersionList.Valid;
      hide VersionList.CurrentValue;
      hide VersionList.Held;
      hide Shape;
      hide ReadsAgree;
      hide MemoryOk;
      hide FilesOk;
      hide View;
      hide SpecGet;
      hide PinStep;
      hide UnpinStep;
      hide Answers;
      hide LsmInvariant;
      hide RunGet;
      hide Sorted;
      ghost var st := Abs();
      CapturedIsReady(st);
      var s, captured, capturedImm, current := BeginGet(id, snapshot);
      SnapshotIsLive(st, s);
      r := DbGet(captured, capturedImm, current.Value(), user, s);
      AnswersAsWritten(st, captured, user, s, r);
      UnrefVersion(Lookup(id), current);
      assert st.holders[Lookup(id) := current.Value()] - {Lookup(id)} == st.holders;
    }

    // ----- writing -----

    /** MemTableInserter: applies one operation of a group with the next sequence number. */
    method Insert(op: Operation, sequence: SequenceNumber)
      requires Valid() && sequence == |history| + 1 < MAX_SEQUENCE
      modifies this
      ensures Valid() && InsertStep(old(Abs()), Abs())
      ensures history == old(history) + [Entry(InternalKey(op.user, sequence, op.kind), op.value)]
      ensures Abs() == old(Abs()).(history := history, mem := mem)
    {
      hide VersionList.Valid;
      hide VersionList.CurrentValue;
      hide VersionList.Held;
      hide Shape;
      ghost var st := Abs();
      var e := Entry(InternalKey(op.user, sequence, op.kind), op.value);
      assert e == NewEntry(st, op.user, op.kind, op.value);
      MemInHistory(st);
      mem := InsertSorted(mem, e);
      history := history + [e];
      assert InsertStep(st, Abs());
      InsertKeepsShape(st, Abs());
    }

    /** The rest of a write group: the new last sequence becomes visible to readers in one step. */
    method Publish(sequence: nat)
      requires Valid() && sequence == |history|
      modifies this
      ensures Valid() && PublishStep(old(Abs()), Abs())
    {
      hide VersionList.Valid;
      hide VersionList.CurrentValue;
      hide VersionList.Held;
      hide Shape;
      ghost var st := Abs();
      lastSequence := sequence;
      PublishOrSnapshotKeepsShape(st, Abs());
    }

    /** MakeRoomForWrite's last case: the full memtable becomes the immutable one. */
    method SwitchMemTable()
      requires Valid() && imm.None? && lastSequence == |history|
      modifies this
      ensures Valid() && SwitchStep(old(Abs()), Abs())
    {
      hide VersionList.Valid;
      hide VersionList.CurrentValue;
      hide VersionList.Held;
      hide Shape;
      ghost var st := Abs();
      imm := Some(mem);
      mem := [];
      memStart := |history|;
      SwitchKeepsShape(st, Abs());
    }

    // ----- flushing -----

    method CompactMemTable()
      requires Valid() && imm.Some?
      modifies this, versions, versions.dummyVersions, versions.created, versions.known
      ensures Valid() && FlushStep(old(Abs()), Abs())
      ensures old(imm).value != [] ==>
        exists level, f :: FlushedAt(old(Abs()), Abs(), maxFileSize, level, f) && f.size == fileSize(f.entries)
      ensures fresh(versions.created - old(versions.created)) && fresh(versions.known - old(versions.known))
    {
      hide VersionList.Valid;
      hide Shape;
      hide FlushStep;
      if imm.value != [] {
        FlushTable();
      } else {
        FlushNothing();
      }
    }

    method FlushTable()
      requires Valid() && imm.Some? && imm.value != []
      modifies this, versions, versions.dummyVersions, versions.created, versions.known
      ensures Valid() && FlushStep(old(Abs()), Abs())
      ensures exists level, f :: FlushedAt(old(Abs()), Abs(), maxFileSize, level, f) && f.size == fileSize(f.entries)
      ensures fresh(versions.created - old(versions.created)) && fresh(versions.known - old(versions.known))
    {
      hide VersionList.Valid;
      hide VersionList.CurrentValue;
      hide VersionList.Held;
      hide Shape;
      hide FlushStep;
      hide CanInstall;
      hide Edited;
      hide FlushLevelOk;
      hide WellFormed;
      ghost var st := Abs();
      var level, f := WriteLevel0Table(imm.value, nextFile);
      var number := nextFile;
      Install(VersionEdit({}, [(level, f)]));
      FlushEditAdds(st.version, level, f, Abs().version);
      ghost var st' := FlushedStep(st, level, f, Abs().version);
      SetFlushed({number});
      assert Abs() == st';
      assert FlushedAt(st, st', maxFileSize, level, f);
    }

    /** Without a table the edit only says which log is needed from now on. */
    method FlushNothing()
      requires Valid() && imm == Some([])
      modifies this, versions, versions.dummyVersions, versions.created, versions.known
      ensures Valid() && FlushStep(old(Abs()), Abs())
      ensures fresh(versions.created - old(versions.created)) && fresh(versions.known - old(versions.known))
    {
      hide VersionList.Valid;
      hide VersionList.CurrentValue;
      hide VersionList.Held;
      hide Shape;
      hide FlushStep;
      hide CanInstall;
      hide Edited;
      ghost var st := Abs();
      EmptyIsInstallable(st);
      Install(VersionEdit({}, []));
      EmptyEditIsSame(st, Abs().version);
      ghost var st' := EmptyFlushStep(st);
      SetFlushed({});
      assert st'.disk + {} == st'.disk;
      assert Abs() == st';
    }

    /** VersionSet::LogAndApply: only the current version changes. */
    method Install(edit: VersionEdit)
      requires Valid() && CanInstall(Abs().version, edit)
      modifies versions, versions.dummyVersions, versions.created, versions.known
      ensures versions.Valid() && InputOk() && Edited(old(Abs()).version, edit, Abs().version)
      ensures Abs() == old(Abs()).(version := Abs().version) && versions.holders == old(versions.holders)
      ensures fresh(versions.created - old(versions.created)) && fresh(versions.known - old(versions.known))
    {
      hide VersionList.Valid;
      hide Edited;
      hide Shape;
      CurrentIsThere();
      NoEditUnderWay();
      versions.LogAndApply(edit);
      CurrentIsThere();
    }

    lemma NoEditUnderWay()
      requires Shape(Abs())
      ensures EditBase !in versions.holders
    {
      assert EditBase !in versions.Held();
    }

    method SetFlushed(written: set<nat>)
      modifies this
      ensures Abs() == old(Abs()).(imm := None, immStart := old(memStart), nextFile := old(nextFile) + 1,
        disk := old(disk) + written)
      ensures compactPointer == old(compactPointer) && inputVersion == old(inputVersion)
    {
      disk, imm, nextFile := disk + written, None, nextFile + 1;
      immStart := memStart;
    }

    /** Builds the table of the immutable memtable and picks its level. */
    method WriteLevel0Table(run: seq<Entry>, number: nat) returns (level: nat, f: File)
      requires Valid() && imm == Some(run) && run != []
      requires number == nextFile
      ensures level < NUM_LEVELS && WellFormed(f) && f.entries == run && f.size == fileSize(run)
      ensures f.number == number && FlushLevelOk(Abs().version, f, level)
      ensures LandsAt(Abs().version, f.smallest.user, f.largest.user, maxFileSize, level)
      ensures CanInstall(Abs().version, VersionEdit({}, [(level, f)]))
    {
      hide VersionList.Valid;
      CurrentIsThere();
      f := File(number, fileSize(run), run[0].key, run[|run| - 1].key, run);
      RangeIsNonempty(f);
      InvariantIsTidy(versions.Current());
      level := PickLevelForMemTableOutput(versions.Current(), f.smallest.user, f.largest.user, maxFileSize);
      LandedIsOk(versions.Current(), f, maxFileSize, level);
      FlushIsInstallable(Abs(), level, f);
    }

    // ----- snapshots -----

    method GetSnapshot() returns (s: nat)
      requires Valid()
      modifies this
      ensures Valid() && SnapshotStep(old(Abs()), Abs()) && s == lastSequence
    {
      hide VersionList.Valid;
      hide VersionList.CurrentValue;
      hide VersionList.Held;
      hide Shape;
      ghost var st := Abs();
      snapshots := snapshots + [lastSequence];
      s := lastSequence;
      PublishOrSnapshotKeepsShape(st, Abs());
    }

    method ReleaseSnapshot(i: nat)
      requires Valid() && i < |snapshots|
      modifies this
      ensures Valid() && ReleaseStep(old(Abs()), Abs())
    {
      hide VersionList.Valid;
      hide VersionList.CurrentValue;
      hide VersionList.Held;
      hide Shape;
      ghost var st := Abs();
      snapshots := snapshots[..i] + snapshots[i + 1..];
      ReleaseKeepsShape(st, Abs());
    }

    // ----- compactions -----

    /**
     Picks a compaction.  A single file with nothing to merge and little grandparent overlap moves down at once;
     otherwise the compaction starts to run, with the smallest live snapshot of this moment.
     */
    method BackgroundCompaction(fileToCompact: Option<(nat, File)>)
      requires Valid() && running.None?
      requires fileToCompact.Some? ==>
        fileToCompact.value.0 + 1 < NUM_LEVELS && fileToCompact.value.1 in Abs().version[fileToCompact.value.0]
      modifies this, versions, versions.dummyVersions, versions.created, versions.known
      ensures Valid()
      ensures if IsNeed(old(Abs()).version, fileToCompact, Idle) then Abs() == old(Abs())
        else PickStep(old(Abs()), Abs()) || TrivialMoveStep(old(Abs()), Abs())
      ensures exists need, c ::
        ScheduledFor(old(Abs()), Abs(), old(compactPointer), compactPointer, maxFileSize, fileToCompact, need, c)
      ensures fresh(versions.created - old(versions.created)) && fresh(versions.known - old(versions.known))
    {
      hide VersionList.Valid;
      hide VersionList.CurrentValue;
      hide VersionList.Held;
      hide Shape;
      hide Picked;
      hide Tidy;
      hide IsNeed;
      hide Chooses;
      hide PickedTo;
      hide MovedBy;
      ghost var st, before := Abs(), compactPointer;
      SnapshotsFit(st);
      PickIsReady(Abs());
      CurrentIsThere();
      var picked, pointers := PickCompaction(versions.Current(), fileToCompact, compactPointer, maxFileSize);
      ghost var need :| Chooses(versions.Current(), fileToCompact, need, before, maxFileSize, picked);
      OneNeed(versions.Current(), fileToCompact, before, maxFileSize, picked);
      SetPointers(pointers);
      assert Abs() == st && |pointers| == NUM_LEVELS;
      if picked.Some? {
        var c := picked.value;
        if |c.in0| == 1 && c.in1 == [] && TotalFileSize(c.grandparents) <= 10 * maxFileSize {
          MoveFile(c);
        } else {
          StartCompaction(c);
        }
      }
      assert compactPointer == pointers;
      assert picked.Some? ==>
        if IsTrivialMove(picked.value, maxFileSize) then MovedBy(st, Abs(), picked.value)
        else PickedTo(st, Abs(), picked.value);
      assert picked.Some? ==> picked.value.level < |before| by {
        LevelOfChoice(st.version, fileToCompact, need, before, maxFileSize, picked);
      }
      assert ScheduledFor(st, Abs(), before, compactPointer, maxFileSize, fileToCompact, need, picked);
    }

    method SetPointers(pointers: seq<Option<InternalKey>>)
      modifies `compactPointer
      ensures compactPointer == pointers
    {
      compactPointer := pointers;
    }

    method StartCompaction(c: Inputs)
      requires Valid() && running.None? && Picked(Abs().version, c)
      modifies `running, `inputVersion, versions`holders, versions.created`refs
      ensures Valid() && PickStep(old(Abs()), Abs()) && SmallestSnapshot(old(Abs())) <= MAX_SEQUENCE
      ensures PickedTo(old(Abs()), Abs(), c)
    {
      hide VersionList.Valid;
      hide VersionList.CurrentValue;
      hide Shape;
      hide PickStep;
      hide Picked;
      ghost var st := Abs();
      CurrentIsThere();
      IdleHoldsNothing(st);
      ghost var st' := PickedStep(st, c);
      assert RunningCompaction !in versions.Held();
      var v := versions.Ref(RunningCompaction);
      HeldMore(old(versions.holders), RunningCompaction, v);
      SetRunning(Some(Running(c, if snapshots == [] then lastSequence else snapshots[0], v.Value())), v);
      assert Abs() == st';
    }

    method SetRunning(r: Option<Running>, v: LiveVersion?)
      modifies `running, `inputVersion
      ensures running == r && inputVersion == v
    {
      running, inputVersion := r, v;
    }

    method MoveFile(c: Inputs)
      requires Valid() && running.None? && Picked(Abs().version, c)
      requires |c.in0| == 1 && c.in1 == []
      modifies versions, versions.dummyVersions, versions.created, versions.known
      ensures Valid() && TrivialMoveStep(old(Abs()), Abs()) && MovedBy(old(Abs()), Abs(), c)
      ensures fresh(versions.created - old(versions.created)) && fresh(versions.known - old(versions.known))
    {
      hide VersionList.Valid;
      hide Picked;
      ghost var st := Abs();
      MoveIsInFlight(st, c);
      MovedOutputs(st.version, c);
      EditIsInstallable(st.version, c, c.in0);
      Install(CompactionEdit(c, c.in0));
      ghost var st' := MovedStep(st, c, Abs().version);
    }

    method OpenCompactionOutputFile() returns (number: nat)
      requires Valid() && running.Some?
      modifies `nextFile, `pendingOutputs, `disk
      ensures Valid() && OpenOutputStep(old(Abs()), Abs()) && number == old(nextFile)
    {
      hide VersionList.Valid;
      hide VersionList.CurrentValue;
      hide VersionList.Held;
      hide Shape;
      ghost var st := Abs();
      number := nextFile;
      ghost var st' := st.(nextFile := number + 1, pendingOutputs := pendingOutputs + {number},
        disk := disk + {number});
      FileStepsKeepShape(st, st');
      nextFile, pendingOutputs, disk := number + 1, pendingOutputs + {number}, disk + {number};
      assert Abs() == st';
    }

    /**
     The part of a compaction that runs without the mutex: it reads only the inputs and the version they came from.
     */
    method RunCompaction() returns (outputs: seq<Output>, ghost input: seq<Entry>, ghost ends: seq<nat>)
      requires Valid() && running.Some?
      ensures Sorted(input) && forall e :: e in input <==> FromInputs(running.value.c, e)
      ensures OutputsWellFormed(outputs) && Sorted(Flatten(outputs))
      ensures var r := running.value; forall e :: e in Flatten(outputs) <==>
        e in input && !Dropped(e, input, r.smallestSnapshot, r.base, r.c.level)
      ensures var r := running.value;
        CutAt(Job(r.c.grandparents, maxFileSize, fileSize, input, r.smallestSnapshot, r.base, r.c.level), outputs, ends,
          if outputs == [] then 0 else |outputs| - 1)
    {
      hide VersionList.Valid;
      var r := running.value;
      ghost var pool := All(Abs());
      InputsAreMergeable(Abs());
      var it := MakeInputIterator(r.c, pool);
      input := it.union;
      UnionIsSorted(it);
      var c := new Compaction(r.c.level, r.base, r.c.grandparents, maxFileSize);
      outputs, ends := DoCompactionWork(c, it, r.smallestSnapshot, fileSize);
    }

    /** Installs the outputs, each in a file that OpenCompactionOutputFile has opened, and lets the input version go. */
    method InstallCompactionResults(outs: seq<File>, ghost input: seq<Entry>)
      requires Valid() && running.Some?
      requires Produced(Abs(), running.value, input, outs)
      modifies this, versions, versions.dummyVersions, versions.created, versions.known
      ensures Valid() && InstallStep(old(Abs()), Abs())
      ensures old(ReadsAgree(Abs())) ==> (ReadsAgree(Abs()) <==> !ResurrectingInstall(old(Abs()), Abs()))
      ensures fresh(versions.created - old(versions.created)) && fresh(versions.known - old(versions.known))
    {
      hide VersionList.Valid;
      hide VersionList.CurrentValue;
      hide VersionList.Held;
      hide Shape;
      hide Produced;
      hide ReadsAgree;
      hide InstallStep;
      hide ResurrectingInstall;
      hide CanInstall;
      hide Edited;
      hide CompactionEdit;
      ghost var st := Abs();
      var r := running.value;
      OutputsInstallable(st, r, input, outs);
      Install(CompactionEdit(r.c, outs));
      ghost var st' := InstalledStep(st, input, outs, Abs().version);
      ReleaseInputs();
      DropPending(if horizon < r.smallestSnapshot then r.smallestSnapshot else horizon);
      assert Abs() == st';
    }

    method DropPending(ghost h: nat)
      modifies `pendingOutputs, `horizon
      ensures Abs() == old(Abs()).(pendingOutputs := {}, horizon := h)
    {
      pendingOutputs, horizon := {}, h;
    }

    /** Compaction::ReleaseInputs. */
    method ReleaseInputs()
      requires versions.Valid() && InputOk() && running.Some?
      modifies `running, `inputVersion, versions, versions.dummyVersions, versions.created, versions.known
      ensures versions.Valid() && InputOk()
      ensures Abs() == old(Abs()).(running := None, holders := old(Abs()).holders - {RunningCompaction})
      ensures versions.created == old(versions.created) && versions.known <= old(versions.known)
    {
      hide VersionList.Valid;
      versions.Release(RunningCompaction, inputVersion);
      HeldLess(old(versions.holders), RunningCompaction);
      SetRunning(None, null);
    }

    /** The rest of a compaction: run it, open a file for every output, install them. */
    method FinishCompaction()
      requires Valid() && running.Some?
      modifies this, versions, versions.dummyVersions, versions.created, versions.known
      ensures Valid() && running.None? && history == old(history)
      ensures old(ReadsAgree(Abs()) && NextLevelClosed(Abs().version, running.value.c)) ==> ReadsAgree(Abs())
      ensures fresh(versions.created - old(versions.created)) && fresh(versions.known - old(versions.known))
    {
      hide VersionList.Valid;
      hide VersionList.CurrentValue;
      hide VersionList.Held;
      hide Shape;
      hide ReadsAgree;
      hide NextLevelClosed;
      hide InstallStep;
      hide ResurrectingInstall;
      hide Produced;
      hide OutputsWellFormed;
      hide Sorted;
      hide AreFiles;
      hide DistinctFileNumbers;
      hide Dropped;
      ghost var st := Abs();
      ShapeParts(st);
      var r := running.value;
      var outputs, input, ends := RunCompaction();
      var outs := WriteOutputs(outputs);
      OutputsAreProduced(Abs(), r, input, outputs, outs);
      ghost var st1 := Abs();
      InstallCompactionResults(outs, input);
      InstallEnds(st1, Abs());
      ShapeParts(Abs());
      if ReadsAgree(st) && NextLevelClosed(st.version, r.c) {
        ClosedInstallKeepsReads(st, st1, Abs());
      }
    }

    method WriteOutputs(outputs: seq<Output>) returns (outs: seq<File>)
      requires Valid() && running.Some?
      modifies `nextFile, `pendingOutputs, `disk
      ensures Valid() && SameReads(old(Abs()), Abs())
      ensures AreFiles(outputs, outs) && DistinctFileNumbers(outs) && forall o | o in outs :: o.number in pendingOutputs
    {
      hide DB.Valid;
      outs := [];
      for i := 0 to |outputs|
        invariant Valid() && SameReads(old(Abs()), Abs())
        invariant AreFiles(outputs[..i], outs) && DistinctFileNumbers(outs)
        invariant forall o | o in outs :: o.number in pendingOutputs && o.number < nextFile
      {
        var number := OpenCompactionOutputFile();
        outs := outs + [OutputFile(outputs[i], number, fileSize(outputs[i].entries))];
      }
      assert outputs[..|outputs|] == outputs;
    }

    method AbandonCompaction()
      requires Valid() && running.Some?
      modifies this, versions, versions.dummyVersions, versions.created, versions.known
      ensures Valid() && AbandonStep(old(Abs()), Abs())
      ensures versions.created == old(versions.created) && versions.known <= old(versions.known)
    {
      hide VersionList.Valid;
      hide VersionList.CurrentValue;
      hide VersionList.Held;
      hide Shape;
      ghost var st := Abs();
      ghost var st' := st.(running := None, pendingOutputs := {}, holders := st.holders - {RunningCompaction});
      FileStepsKeepShape(st, st');
      ReleaseInputs();
      pendingOutputs := {};
      assert Abs() == st';
    }

    /**
     DeleteObsoleteFiles: whatever AddLiveFiles does not collect from the list of versions goes, unless it is an output
     in progress.
     */
    method DeleteObsoleteFiles()
      requires Valid()
      modifies `disk
      ensures Valid() && CleanStep(old(Abs()), Abs())
    {
      hide VersionList.Valid;
      hide FileNumbers;
      hide Shape;
      ghost var st := Abs();
      CurrentIsThere();
      var live := versions.AddLiveFiles();
      LiveIsNeeded(live);
      disk := set n | n in disk && (n in pendingOutputs || n in live);
      assert Abs() == st.(disk := set n | n in st.disk && Needed(st, n));
      FileStepsKeepShape(st, Abs());
    }

    lemma LiveIsNeeded(live: set<nat>)
      requires versions.current != null && forall n :: n in live <==>
        n in FileNumbers(versions.Current()) || exists h ::
          h in versions.holders && n in FileNumbers(versions.holders[h].Value())
      ensures forall n :: n in pendingOutputs || n in live <==> Needed(Abs(), n)
    {
      hide FileNumbers;
      assert forall h | h in versions.holders :: versions.Held()[h] == versions.holders[h].Value();
    }
  }

  lemma HeldMore(holders: map<Holder, LiveVersion>, h: Holder, v: LiveVersion)
    ensures Values(holders[h := v]) == Values(holders)[h := v.Value()]
  {
  }

  lemma HeldLess(holders: map<Holder, LiveVersion>, h: Holder)
    ensures Values(holders - {h}) == Values(holders) - {h}
  {
  }

  /** What LogAndApply needs of the current version. */
  ghost predicate CanInstall(v: Version, edit: VersionEdit) {
    && LevelsInRange(edit)
    && (forall l | 0 <= l < NUM_LEVELS :: NumbersNameFiles(Files(v[l]) + AddedAt(edit.newFiles, l)))
    && forall l | 0 <= l < NUM_LEVELS :: Files(v[l]) !! AddedAt(edit.newFiles, l)
  }

  lemma LandedIsOk(v: Version, f: File, maxFileSize: nat, level: nat)
    requires LandsAt(v, f.smallest.user, f.largest.user, maxFileSize, level)
    ensures FlushLevelOk(v, f, level)
  {
    if level > 0 { LandsClear(v, f.smallest.user, f.largest.user, maxFileSize, level); }
  }

  lemma FlushIsInstallable(st: State, level: nat, f: File)
    requires LsmInvariant(st.version) && LiveFilesOk(st) && level < NUM_LEVELS
    requires f.number == st.nextFile
    ensures CanInstall(st.version, VersionEdit({}, [(level, f)]))
  {
    forall l, g | 0 <= l < NUM_LEVELS && g in st.version[l] ensures g.number < f.number {
      FileNumberIn(st.version, l, g);
    }
    var edit := VersionEdit({}, [(level, f)]);
    forall l | 0 <= l < NUM_LEVELS
      ensures NumbersNameFiles(Files(st.version[l]) + AddedAt(edit.newFiles, l))
      ensures Files(st.version[l]) !! AddedAt(edit.newFiles, l)
    {
      assert AddedAt(edit.newFiles, l) <= {f};
      forall g, h | g in st.version[l] && h in st.version[l] && g.number == h.number ensures g == h {
        assert SameNumber(l, g, l, h);
      }
    }
  }

  lemma EmptyIsInstallable(st: State)
    requires Shape(st)
    ensures CanInstall(st.version, VersionEdit({}, []))
  {
    var v := st.version;
    forall l | 0 <= l < NUM_LEVELS ensures NumbersNameFiles(Files(v[l])) {
      forall g, h | g in v[l] && h in v[l] && g.number == h.number ensures g == h {
        assert SameNumber(l, g, l, h);
      }
    }
    assert forall l :: AddedAt([], l) == {};
    assert forall l | 0 <= l < NUM_LEVELS :: Files(v[l]) + {} == Files(v[l]);
  }

  /** An edit without files gives the same version again. */
  lemma EmptyEditIsSame(st: State, v': Version)
    requires Shape(st) && Edited(st.version, VersionEdit({}, []), v')
    ensures v' == st.version
  {
    var v := st.version;
    forall l | 0 <= l < NUM_LEVELS ensures v'[l] == v[l] {
      assert Files(v'[l]) == Files(v[l]);
      SortedIsUnique(v'[l], v[l]);
    }
  }

  lemma OutputsInstallable(st: State, r: Running, input: seq<Entry>, outs: seq<File>)
    requires Shape(st) && st.running == Some(r) && Produced(st, r, input, outs)
    ensures CanInstall(st.version, CompactionEdit(r.c, outs))
  {
    hide LsmInvariant;
    hide Produced;
    ProducedFiles(st, r, input, outs);
    OutputsAreNotInputs(st, r, input, outs);
    EditIsInstallable(st.version, r.c, outs);
  }

  /** LogAndApply may install a compaction edit: numbers name files and no added file is already in its level. */
  lemma EditIsInstallable(v: Version, c: Inputs, outs: seq<File>)
    requires LsmInvariant(v) && c.level + 1 < NUM_LEVELS
    requires (forall f | f in c.in0 :: f in v[c.level]) && (forall f | f in c.in1 :: f in v[c.level + 1])
    requires OutputFiles(v, c, outs)
    requires forall o | o in outs :: o.number !in NumbersOf(c.in1)
    ensures CanInstall(v, CompactionEdit(c, outs))
  {
    var edit := CompactionEdit(c, outs);
    forall l | 0 <= l < NUM_LEVELS
      ensures NumbersNameFiles(Files(v[l]) + AddedAt(edit.newFiles, l)) && Files(v[l]) !! AddedAt(edit.newFiles, l)
    {
      assert forall f | f in AddedAt(edit.newFiles, l) :: l == c.level + 1 && f in outs;
      forall f, o | f in v[l] && o in AddedAt(edit.newFiles, l) ensures f.number != o.number {
        if f in c.in1 { assert f.number in NumbersOf(c.in1); } else { assert Remains(v, c, l, f); }
      }
      forall f, g | f in v[l] && g in v[l] && f.number == g.number ensures f == g {
        assert SameNumber(l, f, l, g);
      }
    }
  }

  lemma OutputsAreNotInputs(st: State, r: Running, input: seq<Entry>, outs: seq<File>)
    requires LiveFilesOk(st) && InFlight(st.version, r.c, r.base) && Produced(st, r, input, outs)
    ensures forall o | o in outs :: o.number !in NumbersOf(r.c.in1)
  {
    forall o, f | o in outs && f in r.c.in1 ensures f.number != o.number {
      FileNumberIn(st.version, r.c.level + 1, f);
    }
  }

  lemma MovedOutputs(v: Version, c: Inputs)
    requires LsmInvariant(v) && InFlight(v, c, v) && |c.in0| == 1
    requires c.in1 == []
    ensures OutputFiles(v, c, c.in0)
  {
    var f := c.in0[0];
    assert c.in0 == [f] && f in AllInputs(c);
    forall l, g | 0 <= l < NUM_LEVELS && Remains(v, c, l, g) ensures g.number != f.number {
      assert SameNumber(c.level, f, l, g) || f.number != g.number;
    }
    assert forall e | e in f.entries :: FromInputs(c, e);
  }

  lemma InputsAreMergeable(st: State)
    requires Shape(st) && st.running.Some?
    ensures Mergeable(st.running.value.c, All(st))
  {
    hide Connected;
    hide NextLevelApart;
    hide DeeperUnaffected;
    var r := st.running.value;
    HeldInHistory(st);
    AllIsDistinct(st);
    forall e | FromInputs(r.c, e) ensures e in All(st) {
      InputStored(st.version, r.c, r.base, e);
    }
    InputsShareNothing(st.version, r.c, r.base);
  }

  lemma AllIsDistinct(st: State)
    requires MemoryOk(st) && FilesOk(st)
    ensures DistinctPool(All(st))
  {
    hide MemoryOk;
    hide FilesOk;
    hide All;
    HeldInHistory(st);
    forall x, y | x in All(st) && y in All(st) && x.key.sequence == y.key.sequence ensures x == y {
      assert InHistory(st.history, x) && InHistory(st.history, y);
    }
  }

  /** No entry is in two files. */
  lemma FilesShareNothing(v: Version, l: nat, m: nat, f: File, g: File, e: Entry)
    requires LsmInvariant(v) && l < NUM_LEVELS && m < NUM_LEVELS
    requires f in v[l] && g in v[m]
    requires l != m || (l == 0 && f != g)
    requires e in f.entries
    ensures e !in g.entries
  {
    assert SameNumber(l, f, m, g) || Above(l, f, m, g) || Above(m, g, l, f);
  }

  lemma LevelSharesNothing(v: Version, files: seq<File>)
    requires LsmInvariant(v) && SortedFiles(files) && forall f | f in files :: f in v[0]
    ensures ShareNothing(files)
  {
    forall i, j, e | 0 <= i < j < |files| && e in files[j].entries ensures e !in files[i].entries {
      assert BySmallest(files[i], files[j]) && files[i] in files && files[j] in files;
      LessIsTotal(files[i].smallest, files[i].smallest, files[i].smallest);
      FilesShareNothing(v, 0, 0, files[j], files[i], e);
    }
  }

  lemma InputsShareNothing(v: Version, c: Inputs, base: Version)
    requires LsmInvariant(v) && InFlight(v, c, base)
    ensures c.level == 0 ==> ShareNothing(c.in0)
    ensures forall e | InFiles(c.in1, e) :: !InFiles(c.in0, e)
  {
    if c.level == 0 { LevelSharesNothing(v, c.in0); }
    forall e | InFiles(c.in1, e) ensures !InFiles(c.in0, e) {
      var g :| g in c.in1 && e in g.entries;
      forall f | f in c.in0 ensures e !in f.entries { FilesShareNothing(v, c.level + 1, c.level, g, f, e); }
    }
  }
}
