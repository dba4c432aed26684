/**
 The database and what is on disk for it: its logs and its MANIFEST (db_impl.cc, version_set.cc).  Whatever the database
 does, every version on record in the MANIFEST holds all that was written before the log that is recorded with it.
 */
module Stores {
  import opened InternalKeys
  import opened Versions
  import opened CompactionInputs
  import opened VersionBuilder
  import opened LsmSteps
  import opened CompactionReads
  import opened LogFormat
  import opened WriteBatches
  import opened GroupCommit
  import opened Database
  import opened DatabaseInvariant
  import opened Durability
  import opened Committing
  import M = Manifests

  /** A log, and how many operations had been logged when it was started. */
  datatype Log = Log(number: nat, start: nat, groups: seq<seq<Op>>)

  /** The groups of the logs in a row. */
  ghost function Joined(logs: seq<Log>): (r: seq<seq<Op>>) {
    if logs == [] then [] else Joined(logs[..|logs| - 1]) + logs[|logs| - 1].groups
  }

  /**
   `earlier` are the groups from before the first log.  `logNumber` is the log that the next version on record will be
   recorded with, unless a flush moves it on; `recorded` is the state of the database at each record of the MANIFEST.
   */
  datatype Store = Store(st: State, earlier: seq<seq<Op>>, logs: seq<Log>, logNumber: nat, manifest: M.Manifest,
      recorded: seq<State>)

  ghost function Total(a: Store): (r: seq<seq<Op>>) {
    a.earlier + Joined(a.logs)
  }

  // ----- the invariant -----

  ghost predicate StartsRight(earlier: seq<seq<Op>>, logs: seq<Log>, p: nat)
    requires p < |logs|
  {
    && logs[p].number > 0 && logs[p].start == |Flat(earlier + Joined(logs[..p]))|
    && GroupsFit(logs[p].start, logs[p].groups)
  }

  ghost predicate LogsInOrder(earlier: seq<seq<Op>>, logs: seq<Log>) {
    && logs != [] && (forall p | 0 <= p < |logs| :: StartsRight(earlier, logs, p))
    && forall p, q | 0 <= p < q < |logs| :: logs[p].number < logs[q].number
  }

  /** The history is what has been logged, but perhaps for operations of the last group. */
  ghost predicate HistoryLogged(rank: Ranking, history: seq<Entry>, groups: seq<seq<Op>>) {
    |Flat(groups)| < MAX_SEQUENCE && history <= HistoryOf(rank, Flat(groups))
  }

  ghost predicate StartsLog(logs: seq<Log>, number: nat, start: nat) {
    exists p :: 0 <= p < |logs| && logs[p].number == number && logs[p].start == start
  }

  /**
   The version on record holds what was written before the log on record; the sequence number on record was read before
   the record was written, with the mutex released in between.
   */
  ghost predicate RecordedAs(t: State, s: M.State, history: seq<Entry>, logs: seq<Log>) {
    && Shape(t) && Durable(t) && t.history <= history && s.version == t.version
    && t.immStart <= s.lastSequence <= t.lastSequence
    && s.prevLogNumber == 0 && StartsLog(logs, s.logNumber, t.immStart)
  }

  ghost predicate OnRecord(disk: M.Disk, name: Bytes, a: Store) {
    && M.ManifestOk(disk, name, a.manifest) && |a.recorded| == |a.manifest.states|
    && forall i | 1 <= i < |a.recorded| :: RecordedAs(a.recorded[i], a.manifest.states[i], a.st.history, a.logs)
  }

  ghost predicate StoreOk(rank: Ranking, disk: M.Disk, name: Bytes, a: Store) {
    && Shape(a.st) && Durable(a.st) && LogsInOrder(a.earlier, a.logs)
    && HistoryLogged(rank, a.st.history, Total(a))
    && a.st.memStart == a.logs[|a.logs| - 1].start && StartsLog(a.logs, a.logNumber, a.st.immStart)
    && OnRecord(disk, name, a)
  }

  // ----- steps -----

  /** Everything logged has been applied. */
  ghost predicate AllApplied(a: Store) {
    |a.st.history| == |Flat(Total(a))|
  }

  ghost function WithGroup(logs: seq<Log>, group: seq<Op>): (r: seq<Log>)
    requires logs != []
  {
    var n := |logs| - 1;
    logs[..n] + [logs[n].(groups := logs[n].groups + [group])]
  }

  /** A write group goes to the current log. */
  ghost predicate LogStep(a: Store, b: Store) {
    a.logs != [] && AllApplied(a) && exists group :: LogsGroup(a, b, group)
  }

  ghost predicate LogsGroup(a: Store, b: Store, group: seq<Op>)
    requires a.logs != []
  {
    && AllFit(group) && |Flat(Total(a))| + |group| < MAX_SEQUENCE
    && b == a.(logs := WithGroup(a.logs, group))
  }

  /** A step of the database that changes neither the version nor the log; what it writes has been logged. */
  ghost predicate EngineStep(rank: Ranking, a: Store, b: Store) {
    && Next(a.st, b.st) && !SwitchStep(a.st, b.st) && !ChangesVersion(a.st, b.st)
    && b == a.(st := b.st) && HistoryLogged(rank, b.st.history, Total(a))
  }

  /** An edit determines the version that it leads to, so the MANIFEST and the list of versions go on alike. */
  lemma EditDeterminesVersion(v: Version, edit: VersionEdit, a: Version, b: Version)
    requires Edited(v, edit, a) && Edited(v, edit, b)
    ensures a == b
  {
    forall l: nat | l < NUM_LEVELS ensures a[l] == b[l] {
      SortedIsUnique(a[l], b[l]);
    }
  }

  /** A new log and a new memtable. */
  ghost predicate SwitchLogStep(a: Store, b: Store) {
    SwitchStep(a.st, b.st) && AllApplied(a) && a.logs != [] && exists n: nat :: StartsNewLog(a, b, n)
  }

  ghost predicate StartsNewLog(a: Store, b: Store, n: nat)
    requires a.logs != []
  {
    n > a.logs[|a.logs| - 1].number && b == a.(st := b.st, logs := a.logs + [Log(n, |a.st.history|, [])])
  }

  /** The steps that go through VersionSet::LogAndApply. */
  ghost predicate ChangesVersion(st: State, st': State) {
    FlushStep(st, st') || TrivialMoveStep(st, st') || InstallStep(st, st')
  }

  /** One more record: the new version, and after a flush the current log. */
  ghost predicate RecordStep(disk: M.Disk, name: Bytes, a: Store, b: Store) {
    && ChangesVersion(a.st, b.st) && !ResurrectsOnDisk(a.st, b.st) && a.logs != []
    && b == a.(st := b.st, manifest := b.manifest, recorded := a.recorded + [b.st],
         logNumber := if FlushStep(a.st, b.st) then a.logs[|a.logs| - 1].number else a.logNumber)
    && M.ManifestOk(disk, name, b.manifest) && |b.manifest.states| == |a.manifest.states| + 1
    && a.manifest.states <= b.manifest.states
    && var s := b.manifest.states[|a.manifest.states|];
       && s.version == b.st.version && b.st.immStart <= s.lastSequence <= b.st.lastSequence
       && s.prevLogNumber == 0 && s.logNumber == b.logNumber
  }

  ghost predicate StoreStep(rank: Ranking, disk: M.Disk, name: Bytes, a: Store, b: Store) {
    LogStep(a, b) || EngineStep(rank, a, b) || SwitchLogStep(a, b) || RecordStep(disk, name, a, b)
  }

  /** A database just opened: memory is empty, the log is new, the MANIFEST holds the version twice. */
  ghost predicate StartsAnew(rank: Ranking, disk: M.Disk, name: Bytes, b: Store) {
    && Inv(b.st) && b.st.mem == [] && b.st.imm.None? && HistoryLogged(rank, b.st.history, b.earlier)
    && |b.st.history| == |Flat(b.earlier)| && b.logNumber > 0 && b.logs == [Log(b.logNumber, |b.st.history|, [])]
    && M.ManifestOk(disk, name, b.manifest) && |b.manifest.states| == 2 && b.recorded == [b.st, b.st]
    && var s := b.manifest.states[1];
       && s.version == b.st.version && b.st.immStart <= s.lastSequence <= b.st.lastSequence
       && s.prevLogNumber == 0 && s.logNumber == b.logNumber
  }

  // ----- every step keeps it -----

  lemma StartKeeps(rank: Ranking, disk: M.Disk, name: Bytes, b: Store)
    requires StartsAnew(rank, disk, name, b)
    ensures StoreOk(rank, disk, name, b)
  {
    hide M.ManifestOk;
    EmptyMemory(b.st);
    OnlyTablesAgree(b.st);
    JoinedOne(b.logs[0]);
    assert b.logs[..0] == [] && b.earlier + [] == b.earlier;
    assert Total(b) == b.earlier;
    assert StartsRight(b.earlier, b.logs, 0);
    assert StartsLog(b.logs, b.logNumber, b.st.immStart);
  }

  lemma EmptyMemory(st: State)
    requires MemoryOk(st) && st.mem == [] && st.imm.None?
    ensures st.immStart == st.memStart == |st.history|
  {
    if st.memStart < |st.history| { EntryInMemory(st); }
  }

  lemma EntryInMemory(st: State)
    requires MemoryOk(st) && st.memStart < |st.history|
    ensures |st.mem| > 0
  {
    assert st.history[st.memStart] in st.mem;
  }

  lemma OnlyTablesAgree(st: State)
    requires Inv(st) && st.mem == [] && st.imm.None? && st.immStart == |st.history|
    ensures Durable(st)
  {
    hide View;
    hide SpecGet;
    assert All(st) == Held(iset{}, st.version);
  }

  lemma JoinedOne(log: Log)
    ensures Joined([log]) == log.groups
  {
    assert [log][..0] == [];
  }

  lemma JoinedNext(logs: seq<Log>, log: Log)
    ensures Joined(logs + [log]) == Joined(logs) + log.groups
  {
    assert (logs + [log])[..|logs|] == logs;
  }

  lemma JoinedWithGroup(earlier: seq<seq<Op>>, logs: seq<Log>, group: seq<Op>)
    requires logs != []
    ensures Joined(WithGroup(logs, group)) == Joined(logs) + [group]
    ensures Flat(earlier + Joined(WithGroup(logs, group))) == Flat(earlier + Joined(logs)) + group
  {
    hide Flat;
    hide Joined;
    var n := |logs| - 1;
    var rest := Joined(logs[..n]);
    assert logs == logs[..n] + [logs[n]];
    JoinedNext(logs[..n], logs[n]);
    JoinedNext(logs[..n], logs[n].(groups := logs[n].groups + [group]));
    assert rest + (logs[n].groups + [group]) == (rest + logs[n].groups) + [group];
    OneGroupMore(earlier + Joined(logs), group);
    assert earlier + (Joined(logs) + [group]) == (earlier + Joined(logs)) + [group];
  }

  lemma LogAdded(earlier: seq<seq<Op>>, logs: seq<Log>, group: seq<Op>)
    requires LogsInOrder(earlier, logs) && AllFit(group) && |Flat(earlier + Joined(logs))| + |group| < MAX_SEQUENCE
    ensures LogsInOrder(earlier, WithGroup(logs, group))
  {
    hide GroupsFit;
    hide Flat;
    hide Joined;
    var n, logs' := |logs| - 1, WithGroup(logs, group);
    assert StartsRight(earlier, logs, n);
    assert logs == logs[..n] + [logs[n]];
    JoinedNext(logs[..n], logs[n]);
    assert earlier + Joined(logs) == (earlier + Joined(logs[..n])) + logs[n].groups;
    FitsWithGroup(earlier + Joined(logs[..n]), logs[n].start, logs[n].groups, group);
    forall p | 0 <= p < |logs'| ensures StartsRight(earlier, logs', p) {
      assert StartsRight(earlier, logs, p);
      assert logs'[..p] == logs[..p];
    }
  }

  lemma OneGroupMore(groups: seq<seq<Op>>, group: seq<Op>)
    ensures Flat(groups + [group]) == Flat(groups) + group
  {
    FlatPrefix(groups + [group], |groups|);
    assert (groups + [group])[..|groups| + 1] == groups + [group] && (groups + [group])[..|groups|] == groups;
  }

  lemma FitsWithGroup(before: seq<seq<Op>>, start: nat, groups: seq<seq<Op>>, group: seq<Op>)
    requires GroupsFit(start, groups) && AllFit(group) && start == |Flat(before)|
    requires |Flat(before + groups)| + |group| < MAX_SEQUENCE
    ensures GroupsFit(start, groups + [group])
  {
    FlatAppends(before, groups);
    OneGroupMore(groups, group);
  }

  lemma StartStays(logs: seq<Log>, logs': seq<Log>, number: nat, start: nat)
    requires StartsLog(logs, number, start) && |logs| <= |logs'|
    requires forall p | 0 <= p < |logs| :: logs'[p].number == logs[p].number && logs'[p].start == logs[p].start
    ensures StartsLog(logs', number, start)
  {
    var p :| 0 <= p < |logs| && logs[p].number == number && logs[p].start == start;
    assert logs'[p].number == number && logs'[p].start == start;
  }

  /** What is on record stays good as the history and the logs grow. */
  lemma OnRecordStays(disk: M.Disk, name: Bytes, a: Store, b: Store)
    requires OnRecord(disk, name, a) && b.manifest == a.manifest && b.recorded == a.recorded
    requires a.st.history <= b.st.history && |a.logs| <= |b.logs|
    requires forall p | 0 <= p < |a.logs| :: b.logs[p].number == a.logs[p].number && b.logs[p].start == a.logs[p].start
    ensures OnRecord(disk, name, b)
  {
    hide Shape;
    hide Durable;
    hide M.ManifestOk;
    hide StartsLog;
    forall i | 1 <= i < |b.recorded|
      ensures RecordedAs(b.recorded[i], b.manifest.states[i], b.st.history, b.logs)
    {
      assert RecordedAs(a.recorded[i], a.manifest.states[i], a.st.history, a.logs);
      StartStays(a.logs, b.logs, a.manifest.states[i].logNumber, a.recorded[i].immStart);
    }
  }

  lemma LogStepKeeps(rank: Ranking, disk: M.Disk, name: Bytes, a: Store, b: Store)
    requires StoreOk(rank, disk, name, a) && LogStep(a, b)
    ensures StoreOk(rank, disk, name, b)
  {
    hide Shape;
    hide Durable;
    hide LogsInOrder;
    hide OnRecord;
    hide StartsLog;
    hide Flat;
    var group :| LogsGroup(a, b, group);
    JoinedWithGroup(a.earlier, a.logs, group);
    LogAdded(a.earlier, a.logs, group);
    OnRecordStays(disk, name, a, b);
    StartStays(a.logs, b.logs, a.logNumber, a.st.immStart);
    MoreLogged(rank, a.st.history, Total(a), Total(b));
  }

  lemma MoreLogged(rank: Ranking, history: seq<Entry>, groups: seq<seq<Op>>, groups': seq<seq<Op>>)
    requires HistoryLogged(rank, history, groups) && Flat(groups) <= Flat(groups') && |Flat(groups')| < MAX_SEQUENCE
    ensures HistoryLogged(rank, history, groups')
  {
  }

  lemma SwitchLogStepKeeps(rank: Ranking, disk: M.Disk, name: Bytes, a: Store, b: Store)
    requires StoreOk(rank, disk, name, a) && SwitchLogStep(a, b)
    ensures StoreOk(rank, disk, name, b)
  {
    hide Shape;
    hide Durable;
    hide OnRecord;
    hide StartsLog;
    hide StartsRight;
    hide Flat;
    hide TablesAgree;
    hide ResurrectsOnDisk;
    hide HistoryOf;
    var n: nat :| StartsNewLog(a, b, n);
    StepKeeps(a.st, b.st);
    SwitchKeepsDurable(a.st, b.st);
    JoinedNext(a.logs, Log(n, |a.st.history|, []));
    assert Total(b) == Total(a);
    OnRecordStays(disk, name, a, b);
    StartStays(a.logs, b.logs, a.logNumber, a.st.immStart);
    NewLogStartsRight(a.earlier, a.logs, n, |a.st.history|);
  }

  lemma SwitchKeepsDurable(st: State, st': State)
    requires Shape(st) && Durable(st) && SwitchStep(st, st')
    ensures Durable(st') && st'.history == st.history && st'.immStart == st.immStart && st'.memStart == |st.history|
  {
    hide TablesAgree;
  }

  lemma NewLogStartsRight(earlier: seq<seq<Op>>, logs: seq<Log>, n: nat, start: nat)
    requires LogsInOrder(earlier, logs) && n > logs[|logs| - 1].number
    requires start == |Flat(earlier + Joined(logs))| < MAX_SEQUENCE
    ensures LogsInOrder(earlier, logs + [Log(n, start, [])])
  {
    var logs' := logs + [Log(n, start, [])];
    forall p | 0 <= p < |logs'| ensures StartsRight(earlier, logs', p) {
      assert logs'[..p] == logs[..p];
      assert p < |logs| ==> StartsRight(earlier, logs, p);
      assert logs[..|logs|] == logs;
    }
    forall p, q | 0 <= p < q < |logs'| ensures logs'[p].number < logs'[q].number {
      assert p < |logs| - 1 ==> logs[p].number < logs[|logs| - 1].number;
    }
  }

  lemma EngineStepKeeps(rank: Ranking, disk: M.Disk, name: Bytes, a: Store, b: Store)
    requires StoreOk(rank, disk, name, a) && EngineStep(rank, a, b)
    ensures StoreOk(rank, disk, name, b)
  {
    hide Shape;
    hide Durable;
    hide LogsInOrder;
    hide OnRecord;
    hide StartsLog;
    hide ResurrectsOnDisk;
    hide HistoryLogged;
    NotOnDisk(a.st, b.st);
    StepKeeps(a.st, b.st);
    StepKeepsDurable(a.st, b.st);
    OthersLeaveTables(a.st, b.st);
    OnRecordStays(disk, name, a, b);
  }

  lemma NotOnDisk(st: State, st': State)
    requires !InstallStep(st, st')
    ensures !ResurrectsOnDisk(st, st')
  {
  }

  lemma RecordStepKeeps(rank: Ranking, disk: M.Disk, name: Bytes, a: Store, b: Store)
    requires StoreOk(rank, disk, name, a) && RecordStep(disk, name, a, b)
    ensures StoreOk(rank, disk, name, b)
  {
    hide Shape;
    hide Durable;
    hide ResurrectsOnDisk;
    hide HistoryLogged;
    hide StartsRight;
    hide FlushStep;
    hide TrivialMoveStep;
    hide InstallStep;
    hide M.ManifestOk;
    StepKeeps(a.st, b.st);
    StepKeepsDurable(a.st, b.st);
    VersionStepKeepsStarts(a.st, b.st);
    var n := |a.logs| - 1;
    assert FlushStep(a.st, b.st) ==> a.logs[n].number == b.logNumber && a.logs[n].start == b.st.immStart;
    assert StartsLog(b.logs, b.logNumber, b.st.immStart);
    assert RecordedAs(b.st, b.manifest.states[|a.manifest.states|], b.st.history, b.logs);
    forall i | 1 <= i < |b.recorded|
      ensures RecordedAs(b.recorded[i], b.manifest.states[i], b.st.history, b.logs)
    {
      if i < |a.recorded| {
        assert RecordedAs(a.recorded[i], a.manifest.states[i], a.st.history, a.logs);
      }
    }
  }

  lemma VersionStepKeepsStarts(st: State, st': State)
    requires Shape(st) && ChangesVersion(st, st')
    ensures st'.history == st.history && st'.memStart == st.memStart
    ensures st'.immStart == if FlushStep(st, st') then st.memStart else st.immStart
  {
    hide Shape;
    hide Produced;
    hide Edited;
    hide Picked;
    if FlushStep(st, st') && st.imm.value != [] {
      var m, f :| FlushedTo(st, st', m, f);
    } else if InstallStep(st, st') {
      var input, outs :| InstalledWith(st, st', input, outs);
    } else if TrivialMoveStep(st, st') {
      var c :| MovedBy(st, st', c);
    }
  }

  /** Every step keeps everything on record good. */
  lemma StoreStepKeeps(rank: Ranking, disk: M.Disk, name: Bytes, a: Store, b: Store)
    requires StoreOk(rank, disk, name, a) && StoreStep(rank, disk, name, a, b)
    ensures StoreOk(rank, disk, name, b)
  {
    hide StoreOk;
    hide LogStep;
    hide EngineStep;
    hide SwitchLogStep;
    hide RecordStep;
    if LogStep(a, b) {
      LogStepKeeps(rank, disk, name, a, b);
    } else if EngineStep(rank, a, b) {
      EngineStepKeeps(rank, disk, name, a, b);
    } else if SwitchLogStep(a, b) {
      SwitchLogStepKeeps(rank, disk, name, a, b);
    } else {
      RecordStepKeeps(rank, disk, name, a, b);
    }
  }

  ghost predicate IsStoreRun(rank: Ranking, disk: M.Disk, name: Bytes, run: seq<Store>) {
    && run != [] && StartsAnew(rank, disk, name, run[0])
    && forall i | 0 <= i < |run| - 1 :: StoreStep(rank, disk, name, run[i], run[i + 1])
  }

  /** So does every run of a database that has been opened. */
  lemma {:induction false} EveryRunKeepsStore(rank: Ranking, disk: M.Disk, name: Bytes, run: seq<Store>, n: nat)
    requires IsStoreRun(rank, disk, name, run) && n < |run|
    ensures StoreOk(rank, disk, name, run[n])
  {
    hide StoreOk;
    hide StoreStep;
    hide StartsAnew;
    if n == 0 {
      StartKeeps(rank, disk, name, run[0]);
    } else {
      EveryRunKeepsStore(rank, disk, name, run, n - 1);
      assert StoreStep(rank, disk, name, run[n - 1], run[n - 1 + 1]);
      StoreStepKeeps(rank, disk, name, run[n - 1], run[n]);
    }
  }
}
