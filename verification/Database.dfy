/**
 The database as a state machine over its mutex-protected steps (db_impl.cc): writes, memtable switches and flushes,
 compactions that run while other steps happen, snapshots, readers that pin a version, deletion of obsolete files.
 */
module Database {
  import opened InternalKeys
  import opened Versions
  import opened CompactionInputs
  import opened CompactionWork
  import opened VersionBuilder
  import opened LsmSteps
  import opened CompactionReads

  datatype Running = Running(c: Inputs, smallestSnapshot: SequenceNumber, base: Version)

  /**
   `history` is every write so far and is there for the specification only; so are `memStart` and `immStart`, the
   lengths of the history when the current and the immutable memtable were started, and `horizon`, the largest
   smallest_snapshot of a compaction installed so far.
   */
  datatype State = State(
    history: seq<Entry>, mem: seq<Entry>, imm: Option<seq<Entry>>, memStart: nat, immStart: nat,
    version: Version, lastSequence: nat, snapshots: seq<nat>, running: Option<Running>, horizon: nat,
    nextFile: nat, pendingOutputs: set<nat>, holders: map<Holder, Version>, disk: set<nat>)

  ghost function InMemory(mem: seq<Entry>, imm: Option<seq<Entry>>): (r: iset<Entry>) {
    iset e | e in mem || (imm.Some? && e in imm.value)
  }

  ghost function Upper(st: State): (r: iset<Entry>) {
    InMemory(st.mem, st.imm)
  }

  ghost function All(st: State): (r: iset<Entry>) {
    Held(Upper(st), st.version)
  }

  function SmallestSnapshot(st: State): (r: nat) {
    if st.snapshots == [] then st.lastSequence else st.snapshots[0]
  }

  // ----- invariants -----

  /** A sorted run that holds exactly the writes with sequence numbers in (lo, hi]. */
  ghost predicate HoldsWrites(history: seq<Entry>, run: seq<Entry>, lo: nat, hi: nat) {
    && lo <= hi <= |history| && Sorted(run)
    && (forall e | e in run :: InHistory(history, e) && lo < e.key.sequence <= hi)
    && (forall i | lo <= i < hi :: history[i] in run)
  }

  ghost predicate MemoryOk(st: State) {
    && IsHistory(st.history) && |st.history| < MAX_SEQUENCE
    && st.immStart <= st.memStart <= st.lastSequence <= |st.history|
    && HoldsWrites(st.history, st.mem, st.memStart, |st.history|)
    && (if st.imm.Some? then HoldsWrites(st.history, st.imm.value, st.immStart, st.memStart)
      else st.immStart == st.memStart)
  }

  ghost predicate FilesHold(v: Version, history: seq<Entry>, upTo: nat) {
    forall e | Stored(v, e) :: InHistory(history, e) && e.key.sequence <= upTo
  }

  ghost predicate FilesOk(st: State) {
    LsmInvariant(st.version) && FilesHold(st.version, st.history, st.immStart)
  }

  ghost predicate SnapshotsOk(st: State) {
    && (forall i, j | 0 <= i < j < |st.snapshots| :: st.snapshots[i] <= st.snapshots[j])
    && (forall i | 0 <= i < |st.snapshots| :: st.horizon <= st.snapshots[i] <= st.lastSequence)
    && st.horizon <= st.lastSequence
  }

  /** The running compaction holds its version; no edit is being built between two steps. */
  ghost predicate HoldersOk(st: State) {
    && (RunningCompaction in st.holders <==> st.running.Some?) && EditBase !in st.holders
    && (st.running.Some? ==> st.holders[RunningCompaction] == st.running.value.base)
  }

  ghost predicate RunningOk(st: State) {
    HoldersOk(st) && (st.running.Some? ==>
      var r := st.running.value;
      InFlight(st.version, r.c, r.base) && r.smallestSnapshot <= SmallestSnapshot(st) && LevelsSearchable(r.base))
  }

  ghost predicate LevelsSearchable(v: Version) {
    forall l | 1 <= l < NUM_LEVELS :: Ordered(v[l])
  }

  /**
   Every table of the current version, of a version that somebody holds, and every output in progress, is on disk;
   numbers in use are below `nextFile`.
   */
  ghost predicate LiveFiles(v: Version, holders: map<Holder, Version>, pendingOutputs: set<nat>, nextFile: nat,
      disk: set<nat>)
  {
    && (forall n | n in FileNumbers(v) :: n in disk && n < nextFile && n !in pendingOutputs)
    && (forall n | n in pendingOutputs :: n in disk && n < nextFile)
    && (forall h, n | h in holders && n in FileNumbers(holders[h]) :: n in disk)
  }

  ghost predicate LiveFilesOk(st: State) {
    LiveFiles(st.version, st.holders, st.pendingOutputs, st.nextFile, st.disk)
  }

  ghost predicate Shape(st: State) {
    MemoryOk(st) && FilesOk(st) && SnapshotsOk(st) && RunningOk(st) && LiveFilesOk(st)
  }

  /** Every read at or above the horizon, so in particular every read at a live snapshot, gives what was written. */
  ghost predicate ReadsAgree(st: State)
    requires st.horizon <= |st.history|
  {
    forall user, s | st.horizon <= s <= |st.history| ::
      View(st.history, All(st), user, s) == SpecGet(st.history, user, s)
  }

  ghost predicate Inv(st: State) {
    Shape(st) && ReadsAgree(st)
  }

  // ----- steps -----

  ghost predicate Init(st: State) {
    && st.history == [] && st.mem == [] && st.imm.None?
    && st.memStart == st.immStart == st.lastSequence == st.horizon == 0
    && st.version == [[], [], [], [], [], [], []] && st.snapshots == [] && st.running.None?
    && st.pendingOutputs == {} && st.holders == map[] && st.disk == {}
  }

  /** A database that starts from tables: memory is empty, and `history` is what the tables are taken to hold. */
  ghost function FromTables(history: seq<Entry>, v: Version, nextFile: nat, present: set<nat>): (r: State) {
    var n := |history|;
    State(history, [], None, n, n, v, n, [], None, n, nextFile, {}, map[], present)
  }

  function NewEntry(st: State, user: UserKey, kind: ValueType, value: Bytes): (r: Entry)
    requires |st.history| < MAX_SEQUENCE
  {
    Entry(InternalKey(user, |st.history| + 1, kind), value)
  }

  /** One operation of a write group goes into the memtable; readers cannot see it yet. */
  ghost predicate InsertStep(st: State, st': State) {
    exists user, kind, value :: |st.history| + 1 < MAX_SEQUENCE && Sorted(st.mem)
      && (forall x | x in st.mem :: x.key.sequence <= |st.history|)
      && var e := NewEntry(st, user, kind, value);
         st' == st.(history := st.history + [e], mem := InsertSorted(st.mem, e))
  }

  /** SetLastSequence at the end of a write group. */
  ghost predicate PublishStep(st: State, st': State) {
    st' == st.(lastSequence := |st.history|)
  }

  ghost predicate SwitchStep(st: State, st': State) {
    && st.imm.None? && st.lastSequence == |st.history|
    && st' == st.(imm := Some(st.mem), mem := [], memStart := |st.history|)
  }

  /** CompactMemTable: the immutable memtable becomes a table of the level PickLevelForMemTableOutput allows. */
  ghost predicate FlushStep(st: State, st': State) {
    && st.imm.Some?
    && if st.imm.value == [] then
         exists n | n >= st.nextFile :: st' == st.(imm := None, immStart := st.memStart, nextFile := n)
       else
         exists m, f :: FlushedTo(st, st', m, f)
  }

  ghost predicate FlushedTo(st: State, st': State, m: nat, f: File)
    requires st.imm.Some?
  {
    && m < NUM_LEVELS && WellFormed(f) && f.entries == st.imm.value && f.number == st.nextFile
    && FlushLevelOk(st.version, f, m)
    && AddedTo(st.version, m, f, st'.version)
    && st' == st.(imm := None, immStart := st.memStart, version := st'.version, nextFile := st.nextFile + 1,
      disk := st.disk + {f.number})
  }

  /** NewFileNumber for a log or a manifest. */
  ghost predicate AllocateStep(st: State, st': State) {
    st' == st.(nextFile := st.nextFile + 1)
  }

  ghost predicate PickStep(st: State, st': State) {
    && st.running.None? && SmallestSnapshot(st) <= MAX_SEQUENCE
    && exists c :: PickedTo(st, st', c)
  }

  ghost predicate PickedTo(st: State, st': State, c: Inputs)
    requires SmallestSnapshot(st) <= MAX_SEQUENCE
  {
    && Picked(st.version, c)
    && st' == st.(running := Some(Running(c, SmallestSnapshot(st), st.version)),
      holders := st.holders[RunningCompaction := st.version])
  }

  ghost predicate OpenOutputStep(st: State, st': State) {
    && st.running.Some?
    && st' == st.(nextFile := st.nextFile + 1, pendingOutputs := st.pendingOutputs + {st.nextFile},
      disk := st.disk + {st.nextFile})
  }

  /** The outputs of the running compaction: new tables with the kept entries, apart and in order. */
  ghost predicate Produced(st: State, r: Running, input: seq<Entry>, outs: seq<File>) {
    && Sorted(input) && OutputsKeep(r.c, input, r.smallestSnapshot, r.base, outs)
    && (forall o | o in outs :: WellFormed(o) && o.number in st.pendingOutputs)
    && PairwiseApart(outs)
    && (forall o, p | o in outs && p in outs && o.number == p.number :: o == p)
  }

  ghost predicate InstallStep(st: State, st': State) {
    && st.running.Some?
    && exists input, outs :: InstalledWith(st, st', input, outs)
  }

  ghost predicate InstalledWith(st: State, st': State, input: seq<Entry>, outs: seq<File>)
    requires st.running.Some?
  {
    var r := st.running.value;
    && Produced(st, r, input, outs) && Edited(st.version, CompactionEdit(r.c, outs), st'.version)
    && st' == st.(version := st'.version, running := None, pendingOutputs := {},
      holders := st.holders - {RunningCompaction},
                  horizon := if st.horizon < r.smallestSnapshot then r.smallestSnapshot else st.horizon)
  }

  ghost predicate AbandonStep(st: State, st': State) {
    && st.running.Some?
    && st' == st.(running := None, pendingOutputs := {}, holders := st.holders - {RunningCompaction})
  }

  ghost predicate TrivialMoveStep(st: State, st': State) {
    && st.running.None?
    && exists c :: MovedBy(st, st', c)
  }

  ghost predicate MovedBy(st: State, st': State, c: Inputs) {
    && Picked(st.version, c) && |c.in0| == 1 && c.in1 == []
    && Edited(st.version, CompactionEdit(c, c.in0), st'.version)
    && st' == st.(version := st'.version)
  }

  ghost predicate SnapshotStep(st: State, st': State) {
    st' == st.(snapshots := st.snapshots + [st.lastSequence])
  }

  ghost predicate ReleaseStep(st: State, st': State) {
    exists i :: 0 <= i < |st.snapshots| && st' == st.(snapshots := st.snapshots[..i] + st.snapshots[i + 1..])
  }

  predicate IsReader(h: Holder) {
    h.Lookup? || h.Iteration?
  }

  /** A lookup or an iterator takes a reference to the current version. */
  ghost predicate PinStep(st: State, st': State) {
    exists h :: IsReader(h) && h !in st.holders && st' == st.(holders := st.holders[h := st.version])
  }

  /** And drops it. */
  ghost predicate UnpinStep(st: State, st': State) {
    exists h :: IsReader(h) && h in st.holders && st' == st.(holders := st.holders - {h})
  }

  ghost predicate Needed(st: State, n: nat) {
    n in st.pendingOutputs || n in FileNumbers(st.version) || exists h ::
      h in st.holders && n in FileNumbers(st.holders[h])
  }

  /** DeleteObsoleteFiles removes exactly the tables that nobody needs. */
  ghost predicate CleanStep(st: State, st': State) {
    st' == st.(disk := set n | n in st.disk && Needed(st, n))
  }

  ghost predicate Next(st: State, st': State) {
    || InsertStep(st, st') || PublishStep(st, st') || SwitchStep(st, st') || FlushStep(st, st') || AllocateStep(st, st')
    || PickStep(st, st') || OpenOutputStep(st, st') || InstallStep(st, st') || AbandonStep(st, st')
      || TrivialMoveStep(st, st')
    || SnapshotStep(st, st') || ReleaseStep(st, st') || PinStep(st, st') || UnpinStep(st, st') || CleanStep(st, st')
  }
}
