/**
 DB::Open on what a crash has left (db_impl.cc: Recover, Open): the MANIFEST names a version, the logs hold what was
 written after it, and together they make a database that answers as if some number of whole groups had been written.
 */
module Opening {
  import opened InternalKeys
  import opened Coding
  import opened Versions
  import opened CompactionInputs
  import opened VersionBuilder
  import opened CompactionReads
  import opened LogFormat
  import opened LogReaders
  import opened WriteBatches
  import opened GroupCommit
  import opened Database
  import opened DatabaseInvariant
  import opened Durability
  import opened Committing
  import opened Stores
  import opened CutLogs
  import opened Recovery
  import D = DbImpl
  import E = EditCoding
  import K = ManifestKeys
  import M = Manifests

  datatype Status = Opened | BadManifest(error: M.Recovered) | MissingFiles(numbers: set<nat>) | BadLog

  // ----- where recovery starts -----

  /** The log that is on record with the version. */
  ghost predicate IsRecordedLog(a: Store, i: nat, p: nat) {
    && i < |a.recorded| == |a.manifest.states| && p < |a.logs|
    && a.logs[p].number == a.manifest.states[i].logNumber && a.logs[p].start == a.recorded[i].immStart
  }

  lemma RecordedLog(disk: M.Disk, name: Bytes, a: Store, i: nat) returns (p: nat)
    requires OnRecord(disk, name, a) && 1 <= i < |a.recorded|
    ensures IsRecordedLog(a, i, p)
  {
    hide Shape;
    hide Durable;
    hide M.ManifestOk;
    var t, s := a.recorded[i], a.manifest.states[i];
    assert RecordedAs(t, s, a.st.history, a.logs);
    p :| 0 <= p < |a.logs| && a.logs[p].number == s.logNumber && a.logs[p].start == t.immStart;
  }

  /** What the tables of the version hold is what the groups before that log wrote. */
  lemma TablesHoldEarlier(rank: Ranking, a: Store, t: State, p: nat)
    requires LogsInOrder(a.earlier, a.logs) && HistoryLogged(rank, a.st.history, Total(a))
    requires t.history <= a.st.history && p < |a.logs| && a.logs[p].start == t.immStart <= |t.history|
    ensures var ops := Flat(a.earlier + Joined(a.logs[..p]));
      |ops| < MAX_SEQUENCE && t.history[..t.immStart] == HistoryOf(rank, ops)
  {
    hide Flat;
    hide GroupsFit;
    var all, groups := Flat(Total(a)), a.earlier + Joined(a.logs[..p]);
    assert StartsRight(a.earlier, a.logs, p);
    JoinedStarts(a.logs, p);
    FlatStarts(Total(a), |groups|);
    assert Total(a)[..|groups|] == groups;
    HistoryStarts(rank, all, t.immStart);
  }

  lemma {:induction false} JoinedStarts(logs: seq<Log>, p: nat)
    requires p <= |logs|
    ensures Joined(logs[..p]) <= Joined(logs)
    decreases |logs| - p
  {
    if p == |logs| {
      assert logs[..p] == logs;
    } else {
      JoinedStarts(logs, p + 1);
      assert logs[..p + 1][..p] == logs[..p];
    }
  }

  /** The version on record, with all its files there, is a database that holds what was written before the log. */
  lemma BaseIsOk(rank: Ranking, disk: M.Disk, name: Bytes, a: Store, i: nat, p: nat, next: nat, present: set<nat>)
    requires StoreOk(rank, disk, name, a) && 1 <= i && IsRecordedLog(a, i, p)
    requires var s := a.manifest.states[i]; FileNumbers(s.version) <= present && next >= s.nextFileNumber
    ensures var ops := Flat(a.earlier + Joined(a.logs[..p]));
      |ops| < MAX_SEQUENCE && Inv(FromTables(HistoryOf(rank, ops), a.manifest.states[i].version, next, present))
    ensures |Flat(a.earlier + Joined(a.logs[..p]))| <= a.manifest.states[i].lastSequence <= |Flat(Total(a))|
    ensures a.manifest.states[i].prevLogNumber == 0
  {
    hide Shape;
    hide LogsInOrder;
    hide Flat;
    hide M.Holds;
    hide M.PointersHeld;
    var t, s := a.recorded[i], a.manifest.states[i];
    assert RecordedAs(t, s, a.st.history, a.logs);
    ShapeHasLength(t);
    TablesHoldEarlier(rank, a, t, p);
    assert M.RecordOk(disk, name, a.manifest, i);
    NumbersBelow(s.version, s.logNumber, s.nextFileNumber);
    OnlyTablesIsOk(t, next, present);
  }

  lemma ShapeHasLength(st: State)
    requires Shape(st)
    ensures st.immStart <= st.lastSequence <= |st.history| && LsmInvariant(st.version)
  {
  }

  lemma NumbersBelow(v: Version, logNumber: nat, next: nat)
    requires M.NumbersUsed(v, logNumber, next)
    ensures forall n | n in FileNumbers(v) :: n < next
  {
  }

  // ----- opening -----

  /** What is left of the logs that recovery from the first `k` records of the MANIFEST needs. */
  ghost predicate Left(checksum: Checksum, a: Store, logFiles: map<nat, Bytes>, k: nat) {
    && 2 <= k <= |a.manifest.states| && 0 !in logFiles
    && var min := a.manifest.states[k - 1].logNumber;
       AreLogs(checksum, a.logs, logFiles, min) && NoHole(a.logs, CutsOf(checksum, a.logs, logFiles, min))
  }

  /** The groups that are not lost. */
  ghost function GroupsLeft(checksum: Checksum, a: Store, logFiles: map<nat, Bytes>, k: nat): (r: seq<seq<Op>>)
    requires 2 <= k <= |a.manifest.states|
  {
    a.earlier + Kept(a.logs, CutsOf(checksum, a.logs, logFiles, a.manifest.states[k - 1].logNumber))
  }

  /** Every read gives what the groups wrote. */
  ghost predicate AnswersFor(rank: Ranking, st: State, groups: seq<seq<Op>>) {
    && |Flat(groups)| <= |st.history| && |Flat(groups)| < MAX_SEQUENCE
    && forall u :: SpecGet(st.history, u, |st.history|) == SpecGet(HistoryOf(rank, Flat(groups)), u, |Flat(groups)|)
  }

  /** The database that has been rebuilt, before it goes on numbering from `last`. */
  lemma RebuiltIsOk(rank: Ranking, st: State, groups: seq<seq<Op>>, next: nat, last: nat, user: UserKey)
    requires Replaying(rank, st, groups, []) && st.mem == [] && next >= st.nextFile
    requires |Flat(groups)| <= last < MAX_SEQUENCE && Unwritten(st.history, user)
    ensures |st.history| == |Flat(groups)|
    ensures Inv(FromTables(Padded(st.history, user, last), st.version, next, st.disk))
    ensures AnswersFor(rank, FromTables(Padded(st.history, user, last), st.version, next, st.disk), groups)
    ensures last == |Flat(groups)| ==>
      Aligned(rank, FromTables(Padded(st.history, user, last), st.version, next, st.disk), groups, [])
  {
    hide Shape;
    hide View;
    hide SpecGet;
    hide Padded;
    ReplayedLength(rank, st, groups, []);
    ShapeIsMemory(st);
    EmptyMemory(st);
    OnlyTablesAgree(st);
    assert st.history[..st.immStart] == st.history;
    NumbersInUse(st, next);
    OnlyTablesIsOk(st, next, st.disk);
    PaddedIsOk(st.history, st.version, next, st.disk, user, last);
    assert Flat(groups) + [] == Flat(groups);
    forall u
      ensures SpecGet(Padded(st.history, user, last), u, last) == SpecGet(st.history, u, |st.history|)
    {
      PaddedReads(st.history, iset{}, user, last, u);
    }
    if last == |st.history| {
      assert Padded(st.history, user, last) == st.history by { PaddedIsPrefix(st.history, user, last); }
    }
  }

  lemma PaddedIsPrefix(history: seq<Entry>, user: UserKey, last: nat)
    requires |history| == last < MAX_SEQUENCE
    ensures Padded(history, user, last) == history
  {
  }

  lemma ShapeIsMemory(st: State)
    requires Shape(st)
    ensures MemoryOk(st)
  {
  }

  lemma NumbersInUse(st: State, next: nat)
    requires Shape(st) && next >= st.nextFile
    ensures forall n | n in FileNumbers(st.version) :: n in st.disk && n < next
  {
    hide FileNumbers;
  }

  /** What the opened database promises; `log` is the number of the new log, the last number given out. */
  ghost predicate OpenedAs(rank: Ranking, st: State, groups: seq<seq<Op>>, last: nat, log: nat) {
    && log + 1 == st.nextFile && Inv(st) && st.mem == [] && st.imm.None?
    && st.lastSequence == |st.history| == last && Starts(st)
    && AnswersFor(rank, st, groups)
    && (last == |Flat(groups)| ==> Aligned(rank, st, groups, []) && st.memStart == last)
  }

  lemma StartsAsOpened(rank: Ranking, history: seq<Entry>, v: Version, next: nat, present: set<nat>,
      groups: seq<seq<Op>>, last: nat)
    requires Inv(FromTables(history, v, next, present)) && |history| == last
    requires AnswersFor(rank, FromTables(history, v, next, present), groups)
    requires last == |Flat(groups)| ==> Aligned(rank, FromTables(history, v, next, present), groups, [])
    ensures next > 0 ==> OpenedAs(rank, FromTables(history, v, next, present), groups, last, next - 1)
  {
  }

  /** The tables written in recovery are installed, and the database goes on numbering from `last`. */
  method Finish(r: Rebuild, maxFileSize: nat, last: nat) returns (db: D.DB, log: nat)
    requires r.Valid() && r.mem.None? && |Flat(r.groups)| <= last < MAX_SEQUENCE
    ensures db.Valid() && OpenedAs(r.rank, db.Abs(), r.groups, last, log) && log == r.nextFile
  {
    hide Replaying;
    hide Inv;
    hide Flat;
    hide AnswersFor;
    hide Aligned;
    hide HistoryOf;
    hide FromTables;
    hide Padded;
    hide Gathered;
    hide OpenedAs;
    var v := InstallTables(r);
    log := r.nextFile;
    ghost var user := SomeUnwritten(r.st.history);
    RebuiltIsOk(r.rank, r.st, r.groups, log + 1, last, user);
    ghost var history := Padded(r.st.history, user, last);
    StartsAsOpened(r.rank, history, v, log + 1, r.present, r.groups, last);
    db := new D.DB.FromVersion(maxFileSize, r.fileSize, v, last, log + 1, r.present, history);
  }

  /** Log `p` is the one on record, and `last` the greatest sequence number on record and in what is left from it on. */
  ghost predicate IsLast(checksum: Checksum, a: Store, logFiles: map<nat, Bytes>, minLog: nat, onRecord: nat, p: nat,
      last: nat)
  {
    && p < |a.logs| && a.logs[p].number == minLog
    && last == Greater(onRecord, SeenIn(a.logs, CutsOf(checksum, a.logs, logFiles, minLog), p, |a.logs|))
  }

  ghost predicate GoesOnFrom(checksum: Checksum, a: Store, logFiles: map<nat, Bytes>, minLog: nat, onRecord: nat,
      last: nat)
  {
    exists p :: IsLast(checksum, a, logFiles, minLog, onRecord, p, last)
  }

  /** The logs are replayed on the version, and the tables written meanwhile are installed. */
  method RebuildFrom(rank: Ranking, checksum: Checksum, s: M.State, logFiles: map<nat, Bytes>, present: set<nat>,
      maxFileSize: nat, fileSize: seq<Entry> -> nat, usage: seq<Entry> -> nat, writeBufferSize: nat, paranoid: bool,
      ghost a: Store, ghost p: nat)
    returns (db: D.DB?, last: nat, log: nat)
    requires LogsLeft(checksum, a.earlier, a.logs, logFiles, p) && a.logs[p].number == s.logNumber
    requires s.prevLogNumber == 0
    requires var ops := Flat(a.earlier + Joined(a.logs[..p]));
      && |ops| <= s.lastSequence <= |Flat(Total(a))| < MAX_SEQUENCE
      && Inv(FromTables(HistoryOf(rank, ops), s.version, s.nextFileNumber, present))
    ensures db != null && db.Valid() && last <= |Flat(Total(a))|
    ensures
      OpenedAs(rank, db.Abs(), a.earlier + Kept(a.logs, CutsOf(checksum, a.logs, logFiles, s.logNumber)), last, log)
    ensures log >= s.nextFileNumber && forall n | n in logFiles && n >= s.logNumber :: n < log
    ensures GoesOnFrom(checksum, a, logFiles, s.logNumber, s.lastSequence, last)
  {
    hide SeenIn;
    hide Replaying;
    hide Inv;
    hide LogsInOrder;
    hide Flat;
    hide NoHole;
    hide AreLogs;
    hide CutsOf;
    hide HistoryOf;
    hide FromTables;
    hide Rebuild.Valid;
    hide Joined;
    hide OpenedAs;
    ghost var groups := a.earlier + Joined(a.logs[..p]);
    var r := new Rebuild(rank, s.version, fileSize, usage, writeBufferSize, s.nextFileNumber, present, groups);
    var corrupt := ReplayLogs(r, checksum, logFiles, s.logNumber, s.prevLogNumber, paranoid, a.earlier, a.logs, p);
    db, last, log := null, 0, 0;
    if corrupt && paranoid {
      return;
    }
    last := if s.lastSequence < r.maxSequence then r.maxSequence else s.lastSequence;
    assert IsLast(checksum, a, logFiles, s.logNumber, s.lastSequence, p, last);
    db, log := Finish(r, maxFileSize, last);
  }

  /** A number above that of every log found, above the MANIFEST's own and above every number on record. */
  ghost predicate IsNewLog(log: nat, s: M.State, logFiles: map<nat, Bytes>) {
    log > s.nextFileNumber && forall n | n in logFiles && n >= s.logNumber :: n < log
  }

  /**
   Opens what a crash has left: the first bytes of the MANIFEST, and of each log what is there.  `last` is the sequence
   number that the database goes on from, `log` the number of its new log, above that of every log found; `present` are
   the numbers of the table files.  The comparator has to have the name that is on record.
   */
  method Open(rank: Ranking, disk: M.Disk, checksum: Checksum, ghost name: Bytes, given: Bytes, descriptor: Bytes,
      logFiles: map<nat, Bytes>, present: set<nat>, maxFileSize: nat, fileSize: seq<Entry> -> nat,
      usage: seq<Entry> -> nat, writeBufferSize: nat, paranoid: bool, ghost a: Store)
    returns (db: D.DB?, status: Status, last: nat, log: nat, ghost k: nat)
    requires StoreOk(rank, disk, name, a) && descriptor <= EncodeLog(checksum, a.manifest.records)
    requires var k := Whole(checksum, a.manifest.records, |descriptor|); k >= 2 ==> Left(checksum, a, logFiles, k)
    ensures k == Whole(checksum, a.manifest.records, |descriptor|) <= |a.manifest.states|
    ensures status ==
      if k >= 1 && given != name then BadManifest(M.OtherComparator)
      else if k < 2 then BadManifest(M.NoNextFile)
      else
        var missing := FileNumbers(a.manifest.states[k - 1].version) - present;
        if missing != {} then MissingFiles(missing) else Opened
    ensures status.Opened? <==> db != null
    ensures db != null ==> k >= 2 && db.Valid() && last <= |Flat(Total(a))|
    ensures db != null ==> OpenedAs(rank, db.Abs(), GroupsLeft(checksum, a, logFiles, k), last, log)
    ensures db != null ==> IsNewLog(log, a.manifest.states[k - 1], logFiles)
    ensures db != null ==>
      var s := a.manifest.states[k - 1]; GoesOnFrom(checksum, a, logFiles, s.logNumber, s.lastSequence, last)
  {
    hide StoreOk;
    hide OpenedAs;
    hide OnRecord;
    hide IsRecordedLog;
    hide Inv;
    hide M.ManifestOk;
    hide EncodeLog;
    hide Flat;
    hide LogsInOrder;
    hide LogsLeft;
    hide CutsOf;
    hide HistoryOf;
    hide FromTables;
    hide FileNumbers;
    hide GoesOnFrom;
    db, last, log, k := null, 0, 0, Whole(checksum, a.manifest.records, |descriptor|);
    StoreHasManifest(rank, disk, name, a);
    var recovered := M.Recover(disk, checksum, name, given, descriptor, a.manifest);
    if !recovered.Recovered? {
      return null, BadManifest(recovered), 0, 0, k;
    }
    var s := recovered.state;
    var missing := FileNumbers(s.version) - present;
    if missing != {} {
      return null, MissingFiles(missing), 0, 0, k;
    }
    NoneMissing(FileNumbers(s.version), present);
    ghost var p := RecordedLog(disk, name, a, k - 1);
    BaseIsOk(rank, disk, name, a, k - 1, p, s.nextFileNumber, present);
    LogsAreLeft(rank, disk, name, checksum, a, logFiles, k, p);
    LogOnRecord(a, k - 1, p);
    db, last, log := RebuildFrom(rank, checksum, s, logFiles, present, maxFileSize, fileSize, usage, writeBufferSize,
      paranoid, a, p);
    status := if db == null then BadLog else Opened;
  }

  lemma NoneMissing(needed: set<nat>, present: set<nat>)
    requires needed - present == {}
    ensures needed <= present
  {
    forall n | n in needed ensures n in present {
      assert n !in needed - present;
    }
  }

  lemma LogOnRecord(a: Store, i: nat, p: nat)
    requires IsRecordedLog(a, i, p)
    ensures p < |a.logs| && i < |a.manifest.states| && a.logs[p].number == a.manifest.states[i].logNumber
  {
  }

  lemma StoreHasManifest(rank: Ranking, disk: M.Disk, name: Bytes, a: Store)
    requires StoreOk(rank, disk, name, a)
    ensures M.ManifestOk(disk, name, a.manifest) && OnRecord(disk, name, a) && |a.recorded| == |a.manifest.states|
    ensures |a.manifest.records| == |a.manifest.states| && |Flat(Total(a))| < MAX_SEQUENCE
    ensures LogsInOrder(a.earlier, a.logs)
  {
  }

  lemma LogsAreLeft(rank: Ranking, disk: M.Disk, name: Bytes, checksum: Checksum, a: Store, logFiles: map<nat, Bytes>,
      k: nat, p: nat)
    requires StoreOk(rank, disk, name, a) && Left(checksum, a, logFiles, k) && IsRecordedLog(a, k - 1, p)
    ensures LogsLeft(checksum, a.earlier, a.logs, logFiles, p)
  {
    hide Shape;
    hide Durable;
    hide OnRecord;
    hide LogsInOrder;
  }

  /** LogAndApply of the edit that holds the tables written in recovery. */
  method InstallTables(r: Rebuild) returns (v: Version)
    requires r.Valid()
    ensures v == r.st.version
  {
    hide Gathered;
    hide Aligned;
    hide ReadsAgree;
    hide Install;
    ShapeHasFiles(r.st);
    GatheredOnSorted(r.base, r.newFiles, r.first, r.nextFile, r.st.version);
    GatheredInstallable(r.base, r.newFiles, r.first, r.nextFile, r.st.version);
    v := InstallEdit(r.base, GatheredEdit(r.newFiles));
    GatheredIsEdited(r.base, r.newFiles, r.first, r.nextFile, r.st.version, v);
  }

  // ----- what has been opened -----

  /** What is left is what the first n groups wrote, in full, for some n; if no log was cut, it is everything. */
  lemma LeftAreWholeGroups(rank: Ranking, disk: M.Disk, name: Bytes, checksum: Checksum, a: Store,
      logFiles: map<nat, Bytes>, k: nat)
    returns (n: nat)
    requires StoreOk(rank, disk, name, a) && Left(checksum, a, logFiles, k)
    ensures WroteFirst(Total(a), n, Flat(GroupsLeft(checksum, a, logFiles, k)))
    ensures AllKept(a.logs, CutsOf(checksum, a.logs, logFiles, a.manifest.states[k - 1].logNumber)) ==>
      Flat(GroupsLeft(checksum, a, logFiles, k)) == Flat(Total(a))
  {
    hide StoreOk;
    hide Flat;
    hide AreLogs;
    hide CutsOf;
    hide AllKept;
    hide NoHole;
    var cuts := CutsOf(checksum, a.logs, logFiles, a.manifest.states[k - 1].logNumber);
    var m := NoHoleKeepsFirst(a.logs, cuts);
    n := |a.earlier| + m;
    assert Total(a)[..n] == a.earlier + Joined(a.logs)[..m];
    FlatAppends(a.earlier, Joined(a.logs)[..m]);
    FlatAppends(a.earlier, Kept(a.logs, cuts));
    FlatAppends(a.earlier, Joined(a.logs));
    KeptLength(a.logs, cuts);
  }

  /** When no sequence number was passed over, the opened database starts anew with a new log and a new MANIFEST. */
  lemma OpenedStartsAnew(rank: Ranking, disk: M.Disk, name: Bytes, st: State, groups: seq<seq<Op>>, log: nat,
      manifest: M.Manifest)
    requires OpenedAs(rank, st, groups, |Flat(groups)|, log) && log > 0
    requires M.ManifestOk(disk, name, manifest) && |manifest.states| == 2
    requires var s := manifest.states[1];
      && s.version == st.version && st.immStart <= s.lastSequence <= st.lastSequence && s.prevLogNumber == 0
      && s.logNumber == log
    ensures StartsAnew(rank, disk, name, Store(st, groups, [Log(log, |st.history|, [])], log, manifest, [st, st]))
  {
    hide Inv;
    hide M.ManifestOk;
    hide Flat;
    assert Flat(groups) + [] == Flat(groups);
  }

  /** The MANIFEST of a new database. */
  method FirstManifest(disk: M.Disk, checksum: Checksum, name: Bytes, log: nat) returns (vs: M.VersionSet)
    requires M.KeysReadBack(disk) && |name| < WORD_LIMIT && 0 < log && log + 1 < LONG_LIMIT
    ensures fresh(vs) && vs.Valid() && vs.descriptorLog != null && vs.disk == disk && vs.checksum == checksum
    ensures M.ManifestOk(disk, name, vs.manifest) && |vs.manifest.states| == 2
    ensures var s := vs.manifest.states[1];
      && s.version == [[], [], [], [], [], [], []] && s.lastSequence == 0 && s.prevLogNumber == 0 && s.logNumber == log
  {
    hide M.KeysReadBack;
    hide M.ManifestOk;
    hide M.NumbersUsed;
    hide M.AllOnDisk;
    hide LevelsSorted;
    hide E.EditFits;
    hide NumbersNameFiles;
    hide M.ChangeOf;
    hide Install;
    hide ChangeAt;
    hide M.VersionSet.Recorded;
    hide E.Scalars;
    hide FoldAdded;
    hide M.LevelChanges;
    hide AddedAt;
    vs := K.NewVersionSet(disk, checksum, name, log + 1);
    var edit := new E.VersionEdit();
    edit.logNumber, edit.prevLogNumber := Some(log), Some(0);
    OnlyLogFits(disk, log);
    assert edit.Contents() == E.EMPTY_EDIT.(logNumber := Some(log), prevLogNumber := Some(0));
    NothingNamed(vs);
    vs.LogAndApply(edit);
    EmptyStays(vs.current);
  }

  /** A new database: its first log, and a MANIFEST with the empty version. */
  method Create(rank: Ranking, disk: M.Disk, checksum: Checksum, name: Bytes, log: nat, maxFileSize: nat,
      fileSize: seq<Entry> -> nat)
    returns (vs: M.VersionSet, c: Committer, ghost a: Store)
    requires M.KeysReadBack(disk) && |name| < WORD_LIMIT && 0 < log && log + 1 < LONG_LIMIT
    ensures fresh(vs) && vs.Valid() && fresh(c) && c.Valid() && c.Groups() == []
    ensures vs.descriptorLog != null && vs.disk == disk && vs.checksum == checksum
    ensures a == Store(c.db.Abs(), [], [Log(log, 0, [])], log, vs.manifest, [c.db.Abs(), c.db.Abs()])
    ensures StartsAnew(rank, disk, name, a)
  {
    hide M.KeysReadBack;
    hide M.ManifestOk;
    hide M.VersionSet.Valid;
    hide Committer.Valid;
    hide StartsAnew;
    hide OpenedAs;
    vs := FirstManifest(disk, checksum, name, log);
    NewIsOpened(rank, log);
    var db := new D.DB.FromVersion(maxFileSize, fileSize, [[], [], [], [], [], [], []], 0, log + 1, {}, []);
    assert db.memStart == db.Abs().memStart;
    c := new Committer.Resume(rank, checksum, db, []);
    a := Store(c.db.Abs(), [], [Log(log, 0, [])], log, vs.manifest, [c.db.Abs(), c.db.Abs()]);
    OpenedStartsAnew(rank, disk, name, c.db.Abs(), [], log, vs.manifest);
  }

  lemma OnlyLogFits(disk: M.Disk, log: nat)
    requires log < LONG_LIMIT
    ensures var e := E.EMPTY_EDIT.(logNumber := Some(log), prevLogNumber := Some(0));
      && E.EditFits(e)
      && (forall l | 0 <= l < NUM_LEVELS :: AddedAt(M.ChangeOf(disk, e).newFiles, l) == {})
      && forall l | 0 <= l < NUM_LEVELS :: ChangeAt(M.ChangeOf(disk, e), l) == Change({}, {})
  {
  }

  lemma NothingNamed(vs: M.VersionSet)
    requires vs.descriptorLog == null && |vs.current| == NUM_LEVELS
    requires forall l | 0 <= l < NUM_LEVELS :: vs.current[l] == []
    ensures forall l | 0 <= l < NUM_LEVELS :: NumbersNameFiles(vs.EverAdded(l) + {}) && Files(vs.current[l]) == {}
  {
  }

  lemma EmptyStays(v: Version)
    requires forall l | 0 <= l < NUM_LEVELS :: Files(v[l]) == Install({}, Change({}, {}))
    ensures v == [[], [], [], [], [], [], []]
  {
    forall l | 0 <= l < NUM_LEVELS ensures v[l] == [] {
      if v[l] != [] { SomeFile(v[l]); }
    }
  }

  lemma SomeFile(files: seq<File>)
    requires files != []
    ensures Files(files) != {}
  {
    assert files[0] in Files(files);
  }

  lemma NewIsOpened(rank: Ranking, log: nat)
    ensures var st := FromTables([], [[], [], [], [], [], [], []], log + 1, {});
      Inv(st) && OpenedAs(rank, st, [], 0, log) && Aligned(rank, st, [], []) && |Flat([])| == 0
  {
    var empty: Version := [[], [], [], [], [], [], []];
    var st := FromTables([], empty, log + 1, {});
    hide Inv;
    InitIsOk(st);
    assert Flat([]) + [] == [];
  }
}
