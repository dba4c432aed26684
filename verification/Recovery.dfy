/**
 Opening a database after a crash (db_impl.cc: Recover, RecoverLogFile, Open): the version that the MANIFEST names is
 made current, the logs from the one that is recorded with it on are replayed, and what is rebuilt is a database that
 holds a whole number of write groups.
 */
module Recovery {
  import opened InternalKeys
  import opened Coding
  import opened Versions
  import opened CompactionInputs
  import opened VersionBuilder
  import opened LsmSteps
  import opened LogFormat
  import opened LogReaders
  import opened WriteBatches
  import opened GroupCommit
  import opened Database
  import opened DatabaseInvariant
  import opened Durability
  import opened Committing
  import opened Stores
  import opened CutLogs
  import D = DbImpl
  import MergingIterators
  import M = Manifests

  // ----- replaying -----

  /** A database under recovery: what the groups wrote is visible, and `done` of the next group is in. */
  ghost predicate Replaying(rank: Ranking, st: State, groups: seq<seq<Op>>, done: seq<Op>) {
    Inv(st) && st.imm.None? && st.running.None? && Aligned(rank, st, groups, done)
  }

  lemma ReplayInserts(rank: Ranking, st: State, st': State, groups: seq<seq<Op>>, done: seq<Op>, op: Op)
    requires Replaying(rank, st, groups, done) && |st.history| + 1 < MAX_SEQUENCE && InsertStep(st, st')
    requires st'.history == st.history + [EntryOf(rank, op, |st.history| + 1)]
    ensures Replaying(rank, st', groups, done + [op])
  {
    hide Shape;
    hide ReadsAgree;
    hide Aligned;
    InsertKeepsShape(st, st');
    InsertKeepsReads(st, st');
    ApplyKeepsAligned(rank, st, st', groups, done, op);
  }

  lemma ReplayPublishes(rank: Ranking, st: State, st': State, groups: seq<seq<Op>>, group: seq<Op>)
    requires Replaying(rank, st, groups, group) && PublishStep(st, st')
    ensures Replaying(rank, st', groups + [group], [])
  {
    hide Shape;
    hide Aligned;
    PublishOrSnapshotKeepsShape(st, st');
    assert All(st') == All(st);
    EndKeepsAligned(rank, st, st', groups, group);
  }

  lemma ReplayFlushes(rank: Ranking, st: State, st1: State, st2: State, groups: seq<seq<Op>>)
    requires Replaying(rank, st, groups, []) && SwitchStep(st, st1) && FlushStep(st1, st2)
    ensures Replaying(rank, st2, groups, []) && st2.mem == []
  {
    hide Shape;
    hide Aligned;
    QuietStepKeeps(st, st1);
    OthersKeepAligned(rank, st, st1, groups, []);
    FlushedFrom(st1, st2);
    QuietStepKeeps(st1, st2);
    OthersKeepAligned(rank, st1, st2, groups, []);
  }

  lemma FlushedFrom(st: State, st': State)
    requires FlushStep(st, st')
    ensures st'.mem == st.mem && st'.imm.None? && st'.running == st.running && st'.history == st.history
    ensures st'.lastSequence == st.lastSequence
  {
    if st.imm.value != [] {
      var m, f :| FlushedTo(st, st', m, f);
    }
  }

  // ----- tables of level 0 -----

  /** The version is the base with the tables gathered so far in level 0; their numbers are new. */
  ghost predicate Gathered(base: Version, newFiles: seq<File>, first: nat, next: nat, v: Version) {
    && LevelsSorted(base) && Files(v[0]) == Files(base[0]) + Files(newFiles)
    && (forall l | 1 <= l < NUM_LEVELS :: Files(v[l]) == Files(base[l]))
    && (forall f | f in newFiles :: first <= f.number < next) && first <= next
    && forall l, f {:trigger f in base[l]} | 0 <= l < NUM_LEVELS && f in base[l] :: f.number < first
  }

  lemma GatheredOnSorted(base: Version, newFiles: seq<File>, first: nat, next: nat, v: Version)
    requires Gathered(base, newFiles, first, next, v)
    ensures LevelsSorted(base)
  {
  }

  lemma OneMoreTable(st: State, f: File) returns (v: Version)
    requires LsmInvariant(st.version) && LiveFilesOk(st) && f.number == st.nextFile
    ensures AddedTo(st.version, 0, f, v)
  {
    hide LsmInvariant;
    D.FlushIsInstallable(st, 0, f);
    var edit := VersionEdit({}, [(0, f)]);
    assert AddedAt(edit.newFiles, 0) == {f};
    LevelsAreSorted(st.version);
    v := st.version[0 := Insert(st.version[0], f)];
  }

  lemma LevelsAreSorted(v: Version)
    requires LsmInvariant(v)
    ensures LevelsSorted(v)
  {
  }

  lemma GatheredMore(base: Version, newFiles: seq<File>, first: nat, next: nat, v: Version, f: File, v': Version)
    requires Gathered(base, newFiles, first, next, v) && f.number == next && AddedTo(v, 0, f, v')
    ensures Gathered(base, newFiles + [f], first, next + 1, v')
  {
    assert Files(newFiles + [f]) == Files(newFiles) + {f};
    forall l | 0 <= l < NUM_LEVELS ensures Files(v'[l]) == Files(v[l]) + if l == 0 then {f} else {} {
    }
  }

  /** The edit that holds all tables gathered. */
  function GatheredEdit(newFiles: seq<File>): (r: VersionEdit) {
    VersionEdit({}, seq(|newFiles|, i requires 0 <= i < |newFiles| => (0, newFiles[i])))
  }

  lemma GatheredAdds(newFiles: seq<File>, l: nat)
    ensures AddedAt(GatheredEdit(newFiles).newFiles, l) == if l == 0 then Files(newFiles) else {}
  {
    var added := GatheredEdit(newFiles).newFiles;
    forall f | f in newFiles ensures f in AddedAt(added, 0) {
      var i :| 0 <= i < |newFiles| && newFiles[i] == f;
      assert added[i] == (0, f);
    }
  }

  lemma GatheredInstallable(base: Version, newFiles: seq<File>, first: nat, next: nat, v: Version)
    requires Gathered(base, newFiles, first, next, v) && LsmInvariant(v)
    ensures D.CanInstall(base, GatheredEdit(newFiles))
  {
    var edit := GatheredEdit(newFiles);
    forall l: nat | l < NUM_LEVELS
      ensures NumbersNameFiles(Files(base[l]) + AddedAt(edit.newFiles, l))
      ensures Files(base[l]) !! AddedAt(edit.newFiles, l)
    {
      GatheredAdds(newFiles, l);
      assert Files(base[l]) + AddedAt(edit.newFiles, l) == Files(v[l]);
      forall f, g | f in Files(v[l]) && g in Files(v[l]) && f.number == g.number ensures f == g {
        assert SameNumber(l, f, l, g);
      }
      forall f | f in Files(base[l]) ensures f.number < first {
        assert f in base[l];
      }
    }
  }

  lemma GatheredIsEdited(base: Version, newFiles: seq<File>, first: nat, next: nat, v: Version, v': Version)
    requires Gathered(base, newFiles, first, next, v) && LsmInvariant(v) && Edited(base, GatheredEdit(newFiles), v')
    ensures v' == v
  {
    var edit := GatheredEdit(newFiles);
    forall l: nat | l < NUM_LEVELS ensures v'[l] == v[l] {
      GatheredAdds(newFiles, l);
      assert ChangeAt(edit, l) == Change({}, AddedAt(edit.newFiles, l));
      SortedIsUnique(v'[l], v[l]);
    }
  }

  lemma GatheredAbove(base: Version, newFiles: seq<File>, first: nat, next: nat, v: Version, next': nat)
    requires Gathered(base, newFiles, first, next, v) && next <= next'
    ensures Gathered(base, newFiles, first, next', v)
  {
  }

  function Greater(a: nat, b: nat): (r: nat) {
    if a < b then b else a
  }

  // ----- the replay -----

  lemma {:induction false} NumbersSkipped(st: State, n: nat)
    requires Shape(st) && st.nextFile <= n
    ensures Shape(st.(nextFile := n))
    decreases n - st.nextFile
  {
    hide Shape;
    if st.nextFile < n {
      var st' := st.(nextFile := st.nextFile + 1);
      FileStepsKeepShape(st, st');
      NumbersSkipped(st', n);
      assert st'.(nextFile := n) == st.(nextFile := n);
    } else {
      assert st.(nextFile := n) == st;
    }
  }

  lemma HigherKeepsReplaying(rank: Ranking, st: State, groups: seq<seq<Op>>, n: nat)
    requires Replaying(rank, st, groups, []) && Shape(st.(nextFile := n))
    ensures Replaying(rank, st.(nextFile := n), groups, [])
  {
    hide Shape;
    assert All(st.(nextFile := n)) == All(st);
  }

  lemma NumbersAreUsed(st: State)
    requires Shape(st)
    ensures Gathered(st.version, [], st.nextFile, st.nextFile, st.version)
  {
    hide LsmInvariant;
    ShapeHasFiles(st);
    LevelsAreSorted(st.version);
    forall l, f {:trigger f in st.version[l]} | 0 <= l < NUM_LEVELS && f in st.version[l]
      ensures f.number < st.nextFile
    {
      FileNumberIn(st.version, l, f);
    }
    assert Files([]) == {};
  }

  lemma MemKeysDiffer(st: State, e: Entry)
    requires Shape(st) && e.key.sequence == |st.history| + 1
    ensures forall x | x in st.mem :: x.key != e.key && x.key.sequence <= |st.history|
  {
  }

  lemma MemTakes(rank: Ranking, st: State, groups: seq<seq<Op>>, done: seq<Op>, e: Entry)
    requires Replaying(rank, st, groups, done) && e.key.sequence == |st.history| + 1
    ensures Sorted(st.mem) && forall x | x in st.mem :: x.key != e.key && x.key.sequence <= |st.history|
  {
    hide Shape;
    D.MemInHistory(st);
    MemKeysDiffer(st, e);
  }

  lemma SequenceOfEntry(rank: Ranking, op: Op, sequence: SequenceNumber)
    ensures EntryOf(rank, op, sequence).key.sequence == sequence
  {
  }

  lemma OneMoreOperation(rank: Ranking, st: State, groups: seq<seq<Op>>, done: seq<Op>, op: Op)
    requires Replaying(rank, st, groups, done) && |st.history| + 1 < MAX_SEQUENCE
    requires Sorted(st.mem) && forall x | x in st.mem ::
      x.key != EntryOf(rank, op, |st.history| + 1).key && x.key.sequence <= |st.history|
    ensures var e := EntryOf(rank, op, |st.history| + 1);
      Replaying(rank, st.(history := st.history + [e], mem := InsertSorted(st.mem, e)), groups, done + [op])
  {
    hide Replaying;
    var e := EntryOf(rank, op, |st.history| + 1);
    assert e == NewEntry(st, e.key.user, e.key.kind, e.value);
    var st' := st.(history := st.history + [e], mem := InsertSorted(st.mem, e));
    assert InsertStep(st, st');
    ReplayInserts(rank, st, st', groups, done, op);
  }

  lemma ReplayedLength(rank: Ranking, st: State, groups: seq<seq<Op>>, done: seq<Op>)
    requires Aligned(rank, st, groups, done)
    ensures |st.history| == |Flat(groups)| + |done| && st.lastSequence == |Flat(groups)|
  {
  }

  lemma ReplayingLength(rank: Ranking, st: State, groups: seq<seq<Op>>, done: seq<Op>)
    requires Replaying(rank, st, groups, done)
    ensures |st.history| == |Flat(groups)| + |done|
  {
  }

  lemma MemIsTable(st: State, f: File)
    requires Shape(st) && st.mem != [] && f.entries == st.mem
    requires f.smallest == st.mem[0].key && f.largest == st.mem[|st.mem| - 1].key
    ensures WellFormed(f)
  {
  }

  lemma ShapeHasFiles(st: State)
    requires Shape(st)
    ensures LsmInvariant(st.version) && LiveFilesOk(st)
  {
  }

  /** If anything is left of the log, it goes on where what is there ends. */
  ghost predicate CanReplay(groups: seq<seq<Op>>, log: Log, w: nat)
    requires w <= |log.groups|
  {
    Flat(log.groups[..w]) != [] ==>
      log.start == |Flat(groups)| && |Flat(groups)| + |Flat(log.groups[..w])| < MAX_SEQUENCE
  }

  /** The first k groups of the log have been replayed. */
  ghost predicate AppliedUpTo(before: seq<seq<Op>>, maxBefore: nat, log: Log, k: nat, groups: seq<seq<Op>>,
      maxSequence: nat)
    requires k <= |log.groups|
  {
    && groups == before + log.groups[..k]
    && maxSequence == if k == 0 then maxBefore else Greater(maxBefore, log.start + |Flat(log.groups[..k])|)
  }

  lemma PrefixOf(before: seq<seq<Op>>, maxBefore: nat, log: Log, k: nat, groups: seq<seq<Op>>, maxSequence: nat)
    requires k <= |log.groups| && AppliedUpTo(before, maxBefore, log, k, groups, maxSequence)
    ensures groups == before + log.groups[..k]
  {
  }

  lemma AppliedNone(before: seq<seq<Op>>, maxBefore: nat, log: Log)
    ensures AppliedUpTo(before, maxBefore, log, 0, before, maxBefore)
  {
  }

  lemma AppliedOneMore(before: seq<seq<Op>>, maxBefore: nat, log: Log, k: nat, groups: seq<seq<Op>>, maxSequence: nat,
      groups': seq<seq<Op>>, maxSequence': nat)
    requires k < |log.groups| && AppliedUpTo(before, maxBefore, log, k, groups, maxSequence)
    requires groups' == groups + [log.groups[k]]
    requires maxSequence' == Greater(maxSequence, log.start + |Flat(log.groups[..k + 1])|)
    ensures AppliedUpTo(before, maxBefore, log, k + 1, groups', maxSequence')
  {
    FlatPrefix(log.groups, k);
    assert log.groups[..k + 1] == log.groups[..k] + [log.groups[k]];
  }

  lemma NextCanReplay(before: seq<seq<Op>>, maxBefore: nat, log: Log, w: nat, k: nat, groups: seq<seq<Op>>,
      maxSequence: nat)
    requires k < w <= |log.groups| && CanReplay(before, log, w)
    requires AppliedUpTo(before, maxBefore, log, k, groups, maxSequence)
    ensures log.groups[k] != [] ==> log.start + |Flat(log.groups[..k])| == |Flat(groups)|
    ensures log.groups[k] != [] ==> |Flat(groups)| + |log.groups[k]| < MAX_SEQUENCE
  {
    FlatAppends(before, log.groups[..k]);
    FlatPrefix(log.groups, k);
    var some := log.groups[..w];
    FlatStarts(some, k + 1);
    assert some[..k + 1] == log.groups[..k + 1];
  }

  // ----- when a memtable becomes a table -----

  /** A memtable with what the groups from a to b of the log wrote. */
  ghost predicate HoldsGroups(run: seq<Entry>, rank: Ranking, before: seq<seq<Op>>, log: Log, a: nat, b: nat) {
    && a <= b <= |log.groups| && |Flat(before + log.groups[..b])| < MAX_SEQUENCE
    && |Flat(before + log.groups[..a])| <= |Flat(before + log.groups[..b])| && Sorted(run)
    && forall e :: e in run <==>
      e in HistoryOf(rank, Flat(before + log.groups[..b]))[|Flat(before + log.groups[..a])|..]
  }

  /** From a on, the memtable was not too big before b. */
  ghost predicate SmallUpTo(rank: Ranking, usage: seq<Entry> -> nat, limit: nat, before: seq<seq<Op>>, log: Log, a: nat,
      b: nat)
  {
    forall k, run {:trigger HoldsGroups(run, rank, before, log, a, k)} |
      a < k < b && HoldsGroups(run, rank, before, log, a, k) :: usage(run) <= limit
  }

  ghost predicate IsPart(rank: Ranking, usage: seq<Entry> -> nat, limit: nat, before: seq<seq<Op>>, log: Log, a: nat,
      b: nat, run: seq<Entry>)
  {
    a < b && HoldsGroups(run, rank, before, log, a, b) && SmallUpTo(rank, usage, limit, before, log, a, b)
  }

  /** The memtables written out, in order, each with the groups from one cut to the next and none written too late. */
  ghost predicate WrittenOut(rank: Ranking, usage: seq<Entry> -> nat, limit: nat, before: seq<seq<Op>>, log: Log,
      cuts: seq<nat>, mems: seq<seq<Entry>>)
  {
    && |cuts| == |mems| + 1 && cuts[0] == 0
    && forall i | 0 <= i < |mems| :: IsPart(rank, usage, limit, before, log, cuts[i], cuts[i + 1], mems[i])
  }

  /** All of them were too big; the last need not be, when it is what was left at the end of the log. */
  ghost predicate OverLimit(usage: seq<Entry> -> nat, limit: nat, mems: seq<seq<Entry>>, n: int) {
    forall i | 0 <= i < n && i < |mems| :: usage(mems[i]) > limit
  }

  function NonEmpty(mems: seq<seq<Entry>>): (r: seq<seq<Entry>>) {
    if mems == [] then []
    else
      var n := |mems| - 1;
      NonEmpty(mems[..n]) + if mems[n] == [] then [] else [mems[n]]
  }

  function EntriesOf(files: seq<File>): (r: seq<seq<Entry>>)
    ensures |r| == |files|
  {
    seq(|files|, i requires 0 <= i < |files| => files[i].entries)
  }

  lemma OneMoreNonEmpty(mems: seq<seq<Entry>>, run: seq<Entry>)
    ensures NonEmpty(mems + [run]) == NonEmpty(mems) + if run == [] then [] else [run]
  {
    assert (mems + [run])[..|mems|] == mems;
  }

  lemma OneMoreWritten(rank: Ranking, usage: seq<Entry> -> nat, limit: nat, before: seq<seq<Op>>, log: Log,
      cuts: seq<nat>, mems: seq<seq<Entry>>, run: seq<Entry>, k: nat)
    requires WrittenOut(rank, usage, limit, before, log, cuts, mems) && cuts[|mems|] < k
    requires HoldsGroups(run, rank, before, log, cuts[|mems|], k)
    requires SmallUpTo(rank, usage, limit, before, log, cuts[|mems|], k)
    ensures WrittenOut(rank, usage, limit, before, log, cuts + [k], mems + [run]) && |cuts| == |mems| + 1
    ensures NonEmpty(mems + [run]) == NonEmpty(mems) + if run == [] then [] else [run]
  {
    hide HoldsGroups;
    hide SmallUpTo;
    hide NonEmpty;
    OneMoreNonEmpty(mems, run);
    var cuts', mems' := cuts + [k], mems + [run];
    assert IsPart(rank, usage, limit, before, log, cuts[|mems|], k, run);
    hide IsPart;
    forall i | 0 <= i < |mems'|
      ensures IsPart(rank, usage, limit, before, log, cuts'[i], cuts'[i + 1], mems'[i])
    {
      assert i < |mems| ==> IsPart(rank, usage, limit, before, log, cuts[i], cuts[i + 1], mems[i]);
    }
  }

  /** What replaying w records of a log leaves as tables. */
  ghost predicate LogWritten(rank: Ranking, usage: seq<Entry> -> nat, limit: nat, before: seq<seq<Op>>, log: Log,
      w: nat, cuts: seq<nat>, mems: seq<seq<Entry>>, files: seq<File>, files': seq<File>)
  {
    && WrittenOut(rank, usage, limit, before, log, cuts, mems) && cuts[|mems|] == w
    && OverLimit(usage, limit, mems, |mems| - 1) && EntriesOf(files') == EntriesOf(files) + NonEmpty(mems)
  }

  lemma LogIsWritten(rank: Ranking, usage: seq<Entry> -> nat, limit: nat, before: seq<seq<Op>>, log: Log, w: nat,
      cuts: seq<nat>, mems: seq<seq<Entry>>, files: seq<File>, files': seq<File>)
    requires WrittenOut(rank, usage, limit, before, log, cuts, mems) && cuts[|mems|] == w
    requires OverLimit(usage, limit, mems, |mems| - 1) && EntriesOf(files') == EntriesOf(files) + NonEmpty(mems)
    ensures LogWritten(rank, usage, limit, before, log, w, cuts, mems, files, files')
  {
    hide EntriesOf;
    hide NonEmpty;
    hide OverLimit;
  }

  lemma NoTableYet(files: seq<File>)
    ensures EntriesOf(files) == EntriesOf(files) + NonEmpty([])
  {
    hide EntriesOf;
  }

  lemma LastMayBeSmall(usage: seq<Entry> -> nat, limit: nat, mems: seq<seq<Entry>>)
    requires OverLimit(usage, limit, mems, |mems|)
    ensures OverLimit(usage, limit, mems, |mems| - 1)
  {
  }

  lemma AllOverLimit(usage: seq<Entry> -> nat, limit: nat, mems: seq<seq<Entry>>)
    requires mems != [] && OverLimit(usage, limit, mems, |mems| - 1) && usage(mems[|mems| - 1]) > limit
    ensures OverLimit(usage, limit, mems, |mems|)
  {
  }

  lemma StaysSmall(rank: Ranking, usage: seq<Entry> -> nat, limit: nat, before: seq<seq<Op>>, log: Log, a: nat, k: nat,
      run: seq<Entry>)
    requires SmallUpTo(rank, usage, limit, before, log, a, k) && usage(run) <= limit && a < k
    requires HoldsGroups(run, rank, before, log, a, k)
    ensures SmallUpTo(rank, usage, limit, before, log, a, k + 1)
  {
    forall j, other | a < j < k + 1 && HoldsGroups(other, rank, before, log, a, j) ensures usage(other) <= limit {
      if j == k { MergingIterators.SortedAlike(other, run); }
    }
  }

  /** The memtable is made of what was written since it was started. */
  lemma MemHoldsGroups(rank: Ranking, st: State, before: seq<seq<Op>>, log: Log, a: nat, k: nat)
    requires a <= k <= |log.groups| && Replaying(rank, st, before + log.groups[..k], [])
    requires st.memStart == |Flat(before + log.groups[..a])|
    ensures HoldsGroups(st.mem, rank, before, log, a, k)
  {
    hide Flat;
    hide HistoryOf;
    hide ReadsAgree;
    hide Shape;
    hide HoldsWrites;
    var all := before + log.groups[..k];
    assert Flat(all) + [] == Flat(all);
    MemHoldsWrites(st);
    HoldsLate(st.history, st.mem, st.memStart);
  }

  lemma MemHoldsWrites(st: State)
    requires Shape(st)
    ensures HoldsWrites(st.history, st.mem, st.memStart, |st.history|) && st.memStart <= |st.history|
  {
  }

  lemma HoldsLate(history: seq<Entry>, run: seq<Entry>, n: nat)
    requires HoldsWrites(history, run, n, |history|)
    ensures Sorted(run) && forall e :: e in run <==> e in history[n..]
  {
    hide Sorted;
    forall e | e in run ensures e in history[n..] {
      assert history[n..][e.key.sequence - 1 - n] == e;
    }
    forall e | e in history[n..] ensures e in run {
      var i :| 0 <= i < |history[n..]| && history[n..][i] == e;
      assert history[n + i] == e;
    }
  }

  lemma EmptyMemAtEnd(rank: Ranking, st: State, groups: seq<seq<Op>>)
    requires Replaying(rank, st, groups, []) && st.mem == []
    ensures st.memStart == |Flat(groups)|
  {
    ReplayedLength(rank, st, groups, []);
    if st.memStart < |st.history| { EntryInMemory(st); }
  }

  ghost predicate RecordIn(rank: Ranking, usage: seq<Entry> -> nat, limit: nat, memStart: nat, mem: Option<seq<Entry>>,
      groups: seq<seq<Op>>, before: seq<seq<Op>>, log: Log, k: nat, cuts: seq<nat>, mems: seq<seq<Entry>>)
  {
    && k <= |log.groups| && groups == before + log.groups[..k]
    && WrittenOut(rank, usage, limit, before, log, cuts, mems) && OverLimit(usage, limit, mems, |mems|)
    && cuts[|mems|] < k && mem.Some? && HoldsGroups(mem.value, rank, before, log, cuts[|mems|], k)
    && SmallUpTo(rank, usage, limit, before, log, cuts[|mems|], k)
    && memStart == |Flat(before + log.groups[..cuts[|mems|]])|
  }

  ghost predicate RecordsDone(rank: Ranking, usage: seq<Entry> -> nat, limit: nat, memStart: nat,
      mem: Option<seq<Entry>>, groups: seq<seq<Op>>, before: seq<seq<Op>>, log: Log, k: nat, cuts: seq<nat>,
      mems: seq<seq<Entry>>)
  {
    && k <= |log.groups| && groups == before + log.groups[..k]
    && WrittenOut(rank, usage, limit, before, log, cuts, mems) && OverLimit(usage, limit, mems, |mems|)
    && cuts[|mems|] <= k && (mem.Some? <==> cuts[|mems|] < k)
    && (mem.Some? ==> HoldsGroups(mem.value, rank, before, log, cuts[|mems|], k))
    && SmallUpTo(rank, usage, limit, before, log, cuts[|mems|], k + 1)
    && memStart == |Flat(before + log.groups[..cuts[|mems|]])|
  }

  /** What DB::Open works on before there is a database: memtable, edit, counters. */
  class Rebuild {
    const rank: Ranking
    const base: Version
    const fileSize: seq<Entry> -> nat
    /** ApproximateMemoryUsage, and when it is too much. */
    const usage: seq<Entry> -> nat
    const writeBufferSize: nat

    var mem: Option<seq<Entry>>
    var newFiles: seq<File>
    var nextFile: nat
    var maxSequence: nat
    var present: set<nat>

    /** The database that the tables and the memtable make, and the groups that are in it. */
    ghost var st: State
    ghost var groups: seq<seq<Op>>
    ghost var first: nat

    ghost predicate Consistent()
      reads this
    {
      && st.mem == (if mem.Some? then mem.value else []) && st.nextFile == nextFile && st.disk == present
      && Gathered(base, newFiles, first, nextFile, st.version)
    }

    ghost predicate Valid()
      reads this
    {
      Replaying(rank, st, groups, []) && Consistent()
    }

    constructor (rank: Ranking, base: Version, fileSize: seq<Entry> -> nat, usage: seq<Entry> -> nat,
        writeBufferSize: nat, nextFile: nat, present: set<nat>, ghost groups: seq<seq<Op>>)
      requires |Flat(groups)| < MAX_SEQUENCE
      requires Inv(FromTables(HistoryOf(rank, Flat(groups)), base, nextFile, present))
      ensures Valid() && this.groups == groups && mem.None? && maxSequence == 0
      ensures this.rank == rank && this.base == base && this.nextFile == nextFile && this.present == present
    {
      hide Shape;
      hide ReadsAgree;
      hide HistoryOf;
      this.rank, this.base, this.fileSize, this.usage := rank, base, fileSize, usage;
      this.writeBufferSize, this.nextFile, this.present := writeBufferSize, nextFile, present;
      mem, newFiles, maxSequence := None, [], 0;
      st := FromTables(HistoryOf(rank, Flat(groups)), base, nextFile, present);
      this.groups, first := groups, nextFile;
      new;
      assert Flat(groups) + [] == Flat(groups);
      NumbersAreUsed(st);
    }

    /** One operation of a record goes into the memtable. */
    method Add(op: Op, sequence: SequenceNumber, ghost done: seq<Op>)
      requires Replaying(rank, st, groups, done) && Consistent() && mem.Some?
      requires sequence == |st.history| + 1 < MAX_SEQUENCE
      modifies `mem, `st
      ensures Replaying(rank, st, groups, done + [op]) && Consistent() && mem.Some?
      ensures |st.history| == sequence && st.memStart == old(st.memStart)
    {
      hide Replaying;
      hide Gathered;
      hide InsertSorted;
      hide EntryOf;
      var e := EntryOf(rank, op, sequence);
      SequenceOfEntry(rank, op, sequence);
      MemTakes(rank, st, groups, done, e);
      OneMoreOperation(rank, st, groups, done, op);
      mem, st := Some(InsertSorted(mem.value, e)),
        st.(history := st.history + [e], mem := InsertSorted(st.mem, e));
    }

    /** A log record is applied to the memtable. */
    method InsertRecord(record: Bytes, ghost log: Log, ghost k: nat) returns (status: Status)
      requires Valid() && GroupsFit(log.start, log.groups) && k < |log.groups|
      requires record == Records(log.start, log.groups)[k]
      requires log.groups[k] != [] ==> log.start + |Flat(log.groups[..k])| == |Flat(groups)|
      requires log.groups[k] != [] ==> |Flat(groups)| + |log.groups[k]| < MAX_SEQUENCE
      modifies `mem, `st, `groups, `maxSequence
      ensures Valid() && mem.Some? && groups == old(groups) + [log.groups[k]] && status.Ok?
      ensures maxSequence == Greater(old(maxSequence), log.start + |Flat(log.groups[..k + 1])|)
      ensures st.memStart == old(st.memStart)
    {
      hide Replaying;
      hide Gathered;
      hide Records;
      hide GroupsFit;
      hide SequenceOf;
      hide CountOf;
      hide Iterated;
      RecordIsGroup(log.start, log.groups, k);
      FlatPrefix(log.groups, k);
      if |record| < HEADER {
        return Corruption;
      }
      var ops;
      ops, status := Iterate(record);
      var sequence := SequenceOf(record);
      if mem.None? {
        mem := Some([]);
      }
      ReplayingLength(rank, st, groups, []);
      for i := 0 to |ops|
        invariant Replaying(rank, st, groups, ops[..i]) && Consistent() && mem.Some?
        invariant ops != [] ==> |st.history| == sequence - 1 + i
        invariant groups == old(groups) && maxSequence == old(maxSequence) && st.memStart == old(st.memStart)
      {
        Add(ops[i], sequence + i, ops[..i]);
        assert ops[..i + 1] == ops[..i] + [ops[i]];
      }
      assert ops[..|ops|] == ops;
      Commit(ops);
      var lastSequence := sequence + CountOf(record) - 1;
      if lastSequence > maxSequence {
        maxSequence := lastSequence;
      }
    }

    /** The record has been applied: what it wrote counts as written. */
    ghost method Commit(group: seq<Op>)
      requires Replaying(rank, st, groups, group) && Consistent()
      modifies `st, `groups
      ensures Valid() && groups == old(groups) + [group] && st.memStart == old(st.memStart)
    {
      hide Replaying;
      var st' := st.(lastSequence := |st.history|);
      ReplayPublishes(rank, st, st', groups, group);
      st, groups := st', groups + [group];
    }

    /** WriteLevel0Table, without a version to pick a level by: the memtable becomes a table of level 0. */
    method WriteLevel0Table()
      requires Valid() && mem.Some?
      modifies `mem, `newFiles, `nextFile, `present, `st
      ensures Valid() && mem.None? && nextFile == old(nextFile) + 1
      ensures var run, number := old(mem).value, old(nextFile);
        newFiles == old(newFiles) + if run == [] then []
          else [File(number, fileSize(run), run[0].key, run[|run| - 1].key, run)]
    {
      hide Shape;
      hide ReadsAgree;
      hide Aligned;
      hide Gathered;
      hide WellFormed;
      hide AddedTo;
      ghost var st1 := st.(imm := Some(st.mem), mem := [], memStart := |st.history|);
      assert SwitchStep(st, st1) by { ReplayedLength(rank, st, groups, []); }
      SwitchKeepsShape(st, st1);
      var run, number := mem.value, nextFile;
      if run != [] {
        var f := File(number, fileSize(run), run[0].key, run[|run| - 1].key, run);
        MemIsTable(st, f);
        ShapeHasFiles(st1);
        ghost var v := OneMoreTable(st1, f);
        ghost var st2 := D.FlushedStep(st1, 0, f, v);
        ReplayFlushes(rank, st, st1, st2, groups);
        GatheredMore(base, newFiles, first, nextFile, st.version, f, v);
        newFiles, present, st := newFiles + [f], present + {number}, st2;
      } else {
        ghost var st2 := D.EmptyFlushStep(st1);
        ReplayFlushes(rank, st, st1, st2, groups);
        GatheredAbove(base, newFiles, first, nextFile, st.version, nextFile + 1);
        st := st2;
      }
      mem, nextFile := None, nextFile + 1;
    }

    /** Where the loop of RecoverLogFile stands after k records. */
    ghost predicate AtRecord(before: seq<seq<Op>>, log: Log, k: nat, cuts: seq<nat>, mems: seq<seq<Entry>>)
      reads this
    {
      RecordsDone(rank, usage, writeBufferSize, st.memStart, mem, groups, before, log, k, cuts, mems)
    }

    /** The next record is in; the memtable may be too big now. */
    ghost predicate PastRecord(before: seq<seq<Op>>, log: Log, k: nat, cuts: seq<nat>, mems: seq<seq<Entry>>)
      reads this
    {
      RecordIn(rank, usage, writeBufferSize, st.memStart, mem, groups, before, log, k, cuts, mems)
    }

    lemma StartsAtRecord(before: seq<seq<Op>>, log: Log)
      requires Valid() && mem.None? && groups == before
      ensures AtRecord(before, log, 0, [0], [])
    {
      hide Replaying;
      hide Gathered;
      assert before + log.groups[..0] == before;
      EmptyMemAtEnd(rank, st, groups);
    }

    lemma StartsNextMem(before: seq<seq<Op>>, log: Log, k: nat, cuts: seq<nat>, mems: seq<seq<Entry>>)
      requires Valid() && mem.None? && k <= |log.groups| && groups == before + log.groups[..k]
      requires WrittenOut(rank, usage, writeBufferSize, before, log, cuts, mems) && cuts[|mems|] == k
      requires OverLimit(usage, writeBufferSize, mems, |mems|)
      ensures AtRecord(before, log, k, cuts, mems)
    {
      hide Replaying;
      hide Gathered;
      EmptyMemAtEnd(rank, st, groups);
    }

    lemma RecordGoesIn(memStart: nat, memBefore: Option<seq<Entry>>, groupsBefore: seq<seq<Op>>, before: seq<seq<Op>>,
        log: Log, k: nat, cuts: seq<nat>, mems: seq<seq<Entry>>)
      requires RecordsDone(rank, usage, writeBufferSize, memStart, memBefore, groupsBefore, before, log, k, cuts, mems)
      requires k < |log.groups| && Valid() && mem.Some? && groups == groupsBefore + [log.groups[k]]
      requires st.memStart == memStart
      ensures PastRecord(before, log, k + 1, cuts, mems)
    {
      hide Replaying;
      hide Gathered;
      hide HoldsGroups;
      hide SmallUpTo;
      hide Flat;
      assert groups == before + log.groups[..k + 1];
      MemHoldsGroups(rank, st, before, log, cuts[|mems|], k + 1);
    }

    lemma SmallGoesOn(before: seq<seq<Op>>, log: Log, k: nat, cuts: seq<nat>, mems: seq<seq<Entry>>)
      requires PastRecord(before, log, k, cuts, mems) && usage(mem.value) <= writeBufferSize
      ensures AtRecord(before, log, k, cuts, mems)
    {
      hide HoldsGroups;
      StaysSmall(rank, usage, writeBufferSize, before, log, cuts[|mems|], k, mem.value);
    }

    lemma PastIfOpen(before: seq<seq<Op>>, log: Log, k: nat, cuts: seq<nat>, mems: seq<seq<Entry>>)
      requires AtRecord(before, log, k, cuts, mems)
      ensures mem.Some? ==> PastRecord(before, log, k, cuts, mems)
      ensures mem.None? ==> cuts[|mems|] == k
      ensures WrittenOut(rank, usage, writeBufferSize, before, log, cuts, mems) && |cuts| == |mems| + 1
      ensures OverLimit(usage, writeBufferSize, mems, |mems|)
    {
      hide HoldsGroups;
    }

    /** Writes the memtable out behind record k. */
    method WriteOut(ghost before: seq<seq<Op>>, ghost log: Log, ghost k: nat, ghost cuts: seq<nat>,
        ghost mems: seq<seq<Entry>>, ghost tables: seq<seq<Entry>>)
      returns (ghost cuts': seq<nat>, ghost mems': seq<seq<Entry>>)
      requires Valid() && PastRecord(before, log, k, cuts, mems)
      requires EntriesOf(newFiles) == tables + NonEmpty(mems)
      modifies `mem, `newFiles, `nextFile, `present, `st
      ensures Valid() && mem.None? && nextFile == old(nextFile) + 1
      ensures cuts' == cuts + [k] && mems' == mems + [old(mem).value]
      ensures |cuts'| == |mems'| + 1 && cuts'[|mems'|] == k
      ensures WrittenOut(rank, usage, writeBufferSize, before, log, cuts', mems') && groups == old(groups)
      ensures maxSequence == old(maxSequence) && OverLimit(usage, writeBufferSize, mems', |mems|)
      ensures EntriesOf(newFiles) == tables + NonEmpty(mems')
    {
      hide Replaying;
      hide Gathered;
      hide WrittenOut;
      hide HoldsGroups;
      hide SmallUpTo;
      hide Flat;
      ghost var mem0 := mem.value;
      cuts', mems' := cuts + [k], mems + [mem0];
      OneMoreWritten(rank, usage, writeBufferSize, before, log, cuts, mems, mem.value, k);
      ghost var was := newFiles;
      WriteLevel0Table();
      assert EntriesOf(newFiles) == EntriesOf(was) + if mem0 == [] then [] else [mem0];
      assert mems'[..|mems|] == mems;
    }

    /** One turn of the loop: the record is applied, and the memtable written out if it is then full. */
    method ReplayRecord(record: Bytes, ghost before: seq<seq<Op>>, ghost maxBefore: nat, ghost log: Log, ghost w: nat,
        ghost k: nat, ghost cuts: seq<nat>, ghost mems: seq<seq<Entry>>, ghost tables: seq<seq<Entry>>)
      returns (status: Status, ghost cuts': seq<nat>, ghost mems': seq<seq<Entry>>)
      requires Valid() && GroupsFit(log.start, log.groups) && k < w <= |log.groups| && CanReplay(before, log, w)
      requires record == Records(log.start, log.groups)[k]
      requires AppliedUpTo(before, maxBefore, log, k, groups, maxSequence) && AtRecord(before, log, k, cuts, mems)
      requires EntriesOf(newFiles) == tables + NonEmpty(mems)
      modifies this
      ensures Valid() && status.Ok? && nextFile >= old(nextFile)
      ensures AppliedUpTo(before, maxBefore, log, k + 1, groups, maxSequence)
      ensures AtRecord(before, log, k + 1, cuts', mems') && EntriesOf(newFiles) == tables + NonEmpty(mems')
    {
      hide Valid;
      hide AppliedUpTo;
      hide AtRecord;
      hide PastRecord;
      hide WrittenOut;
      hide OverLimit;
      hide CanReplay;
      hide Records;
      hide GroupsFit;
      hide Flat;
      hide EntriesOf;
      hide NonEmpty;
      cuts', mems' := cuts, mems;
      NextCanReplay(before, maxBefore, log, w, k, groups, maxSequence);
      ghost var groupsBefore, seen, memStart, memBefore := groups, maxSequence, st.memStart, mem;
      assert RecordsDone(rank, usage, writeBufferSize, memStart, memBefore, groupsBefore, before, log, k, cuts,
        mems) by { Unfolded(before, log, k, cuts, mems); }
      status := InsertRecord(record, log, k);
      AppliedOneMore(before, maxBefore, log, k, groupsBefore, seen, groups, maxSequence);
      RecordGoesIn(memStart, memBefore, groupsBefore, before, log, k, cuts, mems);
      if usage(mem.value) > writeBufferSize {
        cuts', mems' := WriteOut(before, log, k + 1, cuts, mems, tables);
        AllOverLimit(usage, writeBufferSize, mems');
        PrefixOf(before, maxBefore, log, k + 1, groups, maxSequence);
        StartsNextMem(before, log, k + 1, cuts', mems');
      } else {
        SmallGoesOn(before, log, k + 1, cuts, mems);
      }
    }

    /**
     RecoverLogFile: reads records until there is no more and applies each to the memtable, which becomes a table when
     it is full and at the end.  A bad record is passed over, or ends the recovery if `paranoid`.
     */
    method RecoverLogFile(checksum: Checksum, file: Bytes, paranoid: bool, ghost log: Log)
      returns (corrupt: bool, ghost cuts: seq<nat>, ghost mems: seq<seq<Entry>>)
      requires Valid() && mem.None?
      requires GroupsFit(log.start, log.groups) && file <= EncodeLog(checksum, Records(log.start, log.groups))
      requires CanReplay(groups, log, Whole(checksum, Records(log.start, log.groups), |file|))
      modifies this
      ensures Valid() && mem.None? && !corrupt
      ensures AppliedUpTo(old(groups), old(maxSequence), log,
        Whole(checksum, Records(log.start, log.groups), |file|), groups, maxSequence)
      ensures nextFile >= old(nextFile)
      ensures LogWritten(rank, usage, writeBufferSize, old(groups), log,
        Whole(checksum, Records(log.start, log.groups), |file|), cuts, mems, old(newFiles), newFiles)
    {
      hide Valid;
      hide AppliedUpTo;
      hide AtRecord;
      hide PastRecord;
      hide WrittenOut;
      hide OverLimit;
      hide CanReplay;
      hide Whole;
      hide EncodeLog;
      hide RecordAt;
      hide Records;
      hide GroupsFit;
      hide Flat;
      hide EntriesOf;
      hide NonEmpty;
      hide LogWritten;
      ghost var records := Records(log.start, log.groups);
      ghost var w, k := Whole(checksum, records, |file|), 0;
      var reader := new Reader(checksum, file);
      corrupt := false;
      cuts, mems := [0], [];
      assert file == EncodeLog(checksum, records)[..|file|];
      EmptyLog(checksum, records);
      AppliedNone(groups, maxSequence, log);
      StartsAtRecord(groups, log);
      NoTableYet(newFiles);
      while !(corrupt && paranoid)
        invariant reader.Valid() && reader.checksum == checksum && reader.file == file
        invariant k <= w && reader.Offset() == |EncodeLog(checksum, records[..k])|
        invariant Valid() && !corrupt && nextFile >= old(nextFile)
        invariant AppliedUpTo(old(groups), old(maxSequence), log, k, groups, maxSequence)
        invariant AtRecord(old(groups), log, k, cuts, mems)
        invariant EntriesOf(newFiles) == EntriesOf(old(newFiles)) + NonEmpty(mems)
        decreases w - k
      {
        NextOfCutLog(checksum, records, |file|, k);
        var record := reader.ReadRecord();
        if record.None? {
          break;
        }
        var status;
        status, cuts, mems :=
          ReplayRecord(record.value, old(groups), old(maxSequence), log, w, k, cuts, mems, EntriesOf(old(newFiles)));
        corrupt := corrupt || !status.Ok?;
        k := k + 1;
      }
      PastIfOpen(old(groups), log, k, cuts, mems);
      LastMayBeSmall(usage, writeBufferSize, mems);
      if mem.Some? {
        cuts, mems := WriteOut(old(groups), log, k, cuts, mems, EntriesOf(old(newFiles)));
      }
      LogIsWritten(rank, usage, writeBufferSize, old(groups), log, w, cuts, mems, old(newFiles), newFiles);
    }

    lemma Unfolded(before: seq<seq<Op>>, log: Log, k: nat, cuts: seq<nat>, mems: seq<seq<Entry>>)
      requires AtRecord(before, log, k, cuts, mems)
      ensures RecordsDone(rank, usage, writeBufferSize, st.memStart, mem, groups, before, log, k, cuts, mems)
    {
    }

    /** MarkFileNumberUsed: the number of a log that was found. */
    method MarkFileNumberUsed(number: nat)
      requires Valid()
      modifies `nextFile, `st
      ensures Valid() && nextFile == Greater(old(nextFile), number + 1)
    {
      hide Shape;
      hide Aligned;
      hide Gathered;
      if nextFile <= number {
        NumbersSkipped(st, number + 1);
        GatheredAbove(base, newFiles, first, nextFile, st.version, number + 1);
        HigherKeepsReplaying(rank, st, groups, number + 1);
        nextFile, st := number + 1, st.(nextFile := number + 1);
      }
    }
  }

  // ----- one log after the other -----

  /** The logs from `p0` on are the ones needed, and what is left of them has no hole. */
  ghost predicate LogsLeft(checksum: Checksum, earlier: seq<seq<Op>>, logs: seq<Log>, files: map<nat, Bytes>, p0: nat) {
    && LogsInOrder(earlier, logs) && |Flat(earlier + Joined(logs))| < MAX_SEQUENCE && p0 < |logs| && 0 !in files
    && AreLogs(checksum, logs, files, logs[p0].number) && NoHole(logs, CutsOf(checksum, logs, files, logs[p0].number))
  }

  lemma LogsStartInRow(earlier: seq<seq<Op>>, logs: seq<Log>)
    requires LogsInOrder(earlier, logs)
    ensures StartsInRow(|Flat(earlier)|, logs)
  {
    hide Flat;
    forall p | 0 <= p < |logs| ensures logs[p].start == |Flat(earlier)| + |Flat(Joined(logs[..p]))| {
      assert StartsRight(earlier, logs, p);
      FlatAppends(earlier, Joined(logs[..p]));
    }
  }

  /** What is left of a log goes on where the logs before it end. */
  lemma LogGoesOn(earlier: seq<seq<Op>>, logs: seq<Log>, cuts: seq<nat>, q: nat)
    requires LogsInOrder(earlier, logs) && |Flat(earlier + Joined(logs))| < MAX_SEQUENCE
    requires q < |logs| && AreCuts(logs, cuts) && NoHole(logs, cuts)
    ensures AreCuts(logs[..q], cuts[..q])
    ensures CanReplay(earlier + Kept(logs[..q], cuts[..q]), logs[q], cuts[q])
    ensures logs[q].start + |Flat(logs[q].groups[..cuts[q]])| <= |Flat(earlier + Joined(logs))|
  {
    hide Flat;
    LogsStartInRow(earlier, logs);
    NoHoleBefore(logs, cuts, q);
    KeptLength(logs[..q], cuts[..q]);
    FlatAppends(earlier, Kept(logs[..q], cuts[..q]));
    FlatAppends(earlier, Joined(logs));
    KeptStarts(logs[q], cuts[q]);
    JoinedUpTo(logs, q);
  }

  lemma {:induction false} JoinedUpTo(logs: seq<Log>, q: nat)
    requires q < |logs|
    ensures |Flat(Joined(logs[..q]))| + |Flat(logs[q].groups)| <= |Flat(Joined(logs))|
    decreases |logs| - q
  {
    hide Flat;
    var m := |logs| - 1;
    FlatAppends(Joined(logs[..m]), logs[m].groups);
    if q < m {
      JoinedUpTo(logs[..m], q);
      assert logs[..m][..q] == logs[..q];
    }
  }

  /** Logs of which nothing is left add nothing. */
  lemma {:induction false} NothingKept(logs: seq<Log>, cuts: seq<nat>, p: nat, q: nat)
    requires AreCuts(logs, cuts) && p <= q <= |logs| && forall i | p <= i < q :: cuts[i] == 0
    ensures AreCuts(logs[..p], cuts[..p]) && AreCuts(logs[..q], cuts[..q])
    ensures Kept(logs[..q], cuts[..q]) == Kept(logs[..p], cuts[..p])
  {
    if p < q {
      NothingKept(logs, cuts, p, q - 1);
      assert logs[..q][..q - 1] == logs[..q - 1] && cuts[..q][..q - 1] == cuts[..q - 1];
    }
  }

  lemma {:induction false} AllOfLogs(logs: seq<Log>, cuts: seq<nat>, p: nat)
    requires AreCuts(logs, cuts) && p <= |logs| && forall i | 0 <= i < p :: cuts[i] == |logs[i].groups|
    ensures AreCuts(logs[..p], cuts[..p]) && Kept(logs[..p], cuts[..p]) == Joined(logs[..p])
  {
    if p > 0 {
      AllOfLogs(logs, cuts, p - 1);
      assert logs[..p][..p - 1] == logs[..p - 1] && cuts[..p][..p - 1] == cuts[..p - 1];
    }
  }

  lemma KeptNext(logs: seq<Log>, cuts: seq<nat>, q: nat)
    requires AreCuts(logs, cuts) && q < |logs|
    ensures AreCuts(logs[..q], cuts[..q]) && AreCuts(logs[..q + 1], cuts[..q + 1])
    ensures Kept(logs[..q + 1], cuts[..q + 1]) == Kept(logs[..q], cuts[..q]) + logs[q].groups[..cuts[q]]
  {
    assert logs[..q + 1][..q] == logs[..q] && cuts[..q + 1][..q] == cuts[..q];
  }

  lemma {:induction false} SmallestIn(numbers: set<nat>) returns (n: nat)
    requires numbers != {}
    ensures n in numbers && forall m | m in numbers :: n <= m
    decreases |numbers|
  {
    var some :| some in numbers;
    n := some;
    if numbers != {some} {
      var m := SmallestIn(numbers - {some});
      n := if m < some then m else some;
    }
    assert forall m | m in numbers :: m == some || m in numbers - {some};
  }

  ghost predicate FromLog(checksum: Checksum, logs: seq<Log>, p: nat, n: nat, file: Bytes) {
    exists q :: p <= q && IsLog(checksum, logs, q, n, file)
  }

  /** The numbers still to be replayed are those of files of logs from `p` on, and of empty files. */
  ghost predicate StillLeft(checksum: Checksum, logs: seq<Log>, files: map<nat, Bytes>, rest: set<nat>, p: nat) {
    && (forall n | n in rest :: n in files && (files[n] == [] || FromLog(checksum, logs, p, n, files[n])))
    && forall q | p <= q < |logs| && logs[q].number in files :: logs[q].number in rest
  }

  /** The next log, and that nothing is left of the ones passed over. */
  lemma NextLog(checksum: Checksum, earlier: seq<seq<Op>>, logs: seq<Log>, files: map<nat, Bytes>, rest: set<nat>,
      p0: nat, p: nat, n: nat)
    returns (q: nat)
    requires LogsLeft(checksum, earlier, logs, files, p0) && p0 <= p
    requires StillLeft(checksum, logs, files, rest, p) && n in rest && forall m | m in rest :: n <= m
    requires FromLog(checksum, logs, p, n, files[n])
    ensures p <= q < |logs| && n in files && IsLog(checksum, logs, q, n, files[n])
    ensures var cuts := CutsOf(checksum, logs, files, logs[p0].number);
      && cuts[q] == Whole(checksum, Records(logs[q].start, logs[q].groups), |files[n]|)
      && forall i | p <= i < q :: cuts[i] == 0
    ensures StillLeft(checksum, logs, files, rest - {n}, q + 1)
  {
    hide Whole;
    hide Records;
    hide EncodeLog;
    hide LogsInOrder;
    hide NoHole;
    q :| p <= q && IsLog(checksum, logs, q, n, files[n]);
    LeftAfter(checksum, earlier, logs, files, rest, p, q, n);
    forall i | p <= i < q ensures CutOf(checksum, logs[i], files, logs[p0].number) == 0 {
      NumbersAscend(earlier, logs, i, q);
      NumbersAscend(earlier, logs, p0, i);
    }
    NumbersAscend(earlier, logs, p0, q);
  }

  lemma NumbersAscend(earlier: seq<seq<Op>>, logs: seq<Log>, p: nat, q: nat)
    requires LogsInOrder(earlier, logs) && p < |logs| && q < |logs|
    ensures p < q <==> logs[p].number < logs[q].number
  {
    hide StartsRight;
  }

  lemma LeftAfter(checksum: Checksum, earlier: seq<seq<Op>>, logs: seq<Log>, files: map<nat, Bytes>, rest: set<nat>,
      p: nat, q: nat, n: nat)
    requires LogsInOrder(earlier, logs) && StillLeft(checksum, logs, files, rest, p) && n in rest
    requires p <= q && IsLog(checksum, logs, q, n, files[n]) && forall m | m in rest :: n <= m
    ensures StillLeft(checksum, logs, files, rest - {n}, q + 1)
  {
    hide Records;
    hide EncodeLog;
    hide LogsInOrder;
    forall m | m in rest - {n} && files[m] != [] ensures FromLog(checksum, logs, q + 1, m, files[m]) {
      var i :| p <= i && IsLog(checksum, logs, i, m, files[m]);
      NumbersAscend(earlier, logs, q, i);
    }
    forall i | q + 1 <= i < |logs| && logs[i].number in files ensures logs[i].number in rest - {n} {
      NumbersAscend(earlier, logs, q, i);
    }
  }

  /** An empty file that is none of the logs adds nothing. */
  lemma EmptyFile(checksum: Checksum, logs: seq<Log>, files: map<nat, Bytes>, rest: set<nat>, p: nat, n: nat)
    requires StillLeft(checksum, logs, files, rest, p) && n in rest && !FromLog(checksum, logs, p, n, files[n])
    ensures files[n] == [] && GroupsFit(0, []) && Records(0, []) == [] && Flat([]) == []
    ensures StillLeft(checksum, logs, files, rest - {n}, p)
  {
    hide EncodeLog;
    forall q | p <= q < |logs| && logs[q].number in files ensures logs[q].number in rest - {n} {
      if logs[q].number == n { EmptyIsFromLog(checksum, logs, p, q); }
    }
  }

  lemma EmptyIsFromLog(checksum: Checksum, logs: seq<Log>, p: nat, q: nat)
    requires p <= q < |logs|
    ensures FromLog(checksum, logs, p, logs[q].number, [])
  {
    hide EncodeLog;
    assert IsLog(checksum, logs, q, logs[q].number, []);
  }

  lemma LeftInFiles(checksum: Checksum, logs: seq<Log>, files: map<nat, Bytes>, rest: set<nat>, p: nat, n: nat)
    requires StillLeft(checksum, logs, files, rest, p) && n in rest
    ensures n in files
  {
  }

  lemma RestIsLeft(checksum: Checksum, earlier: seq<seq<Op>>, logs: seq<Log>, files: map<nat, Bytes>, rest: set<nat>,
      p0: nat)
    requires LogsLeft(checksum, earlier, logs, files, p0)
    requires rest == set n | n in files && n >= logs[p0].number
    ensures StillLeft(checksum, logs, files, rest, p0)
  {
    hide Records;
    hide EncodeLog;
    hide LogsInOrder;
    hide NoHole;
    forall n | n in rest && files[n] != [] ensures FromLog(checksum, logs, p0, n, files[n]) {
      var q :| IsLog(checksum, logs, q, n, files[n]);
      NumbersAscend(earlier, logs, q, p0);
    }
    forall q | p0 <= q < |logs| && logs[q].number in files ensures logs[q].number in rest {
      NumbersAscend(earlier, logs, p0, q);
    }
  }

  /** The logs before `p` have been replayed. */
  ghost predicate ReplayedTo(earlier: seq<seq<Op>>, logs: seq<Log>, cuts: seq<nat>, p: nat, start: nat,
      groups: seq<seq<Op>>, maxSequence: nat)
  {
    && AreCuts(logs, cuts) && p <= |logs| && AreCuts(logs[..p], cuts[..p])
    && groups == earlier + Kept(logs[..p], cuts[..p]) && maxSequence <= |Flat(earlier + Joined(logs))|
    && |Flat(groups)| <= Greater(start, maxSequence)
  }

  /** The greatest sequence number in what is left of the logs from `a` up to `b`. */
  ghost function SeenIn(logs: seq<Log>, cuts: seq<nat>, a: nat, b: nat): (r: nat)
    requires AreCuts(logs, cuts) && b <= |logs|
    decreases b
  {
    if b <= a then 0
    else
      var n := b - 1;
      var before := SeenIn(logs, cuts, a, n);
      if cuts[n] == 0 then before else Greater(before, logs[n].start + |Flat(logs[n].groups[..cuts[n]])|)
  }

  lemma NothingSeen(logs: seq<Log>, cuts: seq<nat>, a: nat)
    requires AreCuts(logs, cuts) && a <= |logs|
    ensures SeenIn(logs, cuts, a, a) == 0
  {
  }

  lemma {:induction false} SeenSkips(logs: seq<Log>, cuts: seq<nat>, a: nat, p: nat, q: nat)
    requires AreCuts(logs, cuts) && a <= p <= q <= |logs| && forall i | p <= i < q :: cuts[i] == 0
    ensures SeenIn(logs, cuts, a, q) == SeenIn(logs, cuts, a, p)
    decreases q
  {
    hide Flat;
    if p < q { SeenSkips(logs, cuts, a, p, q - 1); }
  }

  lemma SeenNext(logs: seq<Log>, cuts: seq<nat>, a: nat, q: nat, before: seq<seq<Op>>, maxBefore: nat,
      groups: seq<seq<Op>>, maxSequence: nat)
    requires AreCuts(logs, cuts) && a <= q < |logs| && maxBefore == SeenIn(logs, cuts, a, q)
    requires AppliedUpTo(before, maxBefore, logs[q], cuts[q], groups, maxSequence)
    ensures maxSequence == SeenIn(logs, cuts, a, q + 1)
  {
    hide Flat;
  }

  lemma ReplayGoesOn(earlier: seq<seq<Op>>, logs: seq<Log>, cuts: seq<nat>, p: nat, q: nat, start: nat,
      groups: seq<seq<Op>>, maxSequence: nat)
    requires LogsInOrder(earlier, logs) && |Flat(earlier + Joined(logs))| < MAX_SEQUENCE
    requires ReplayedTo(earlier, logs, cuts, p, start, groups, maxSequence) && NoHole(logs, cuts)
    requires p <= q < |logs| && forall i | p <= i < q :: cuts[i] == 0
    ensures CanReplay(groups, logs[q], cuts[q]) && ReplayedTo(earlier, logs, cuts, q, start, groups, maxSequence)
  {
    hide LogsInOrder;
    hide NoHole;
    hide CanReplay;
    hide Flat;
    NothingKept(logs, cuts, p, q);
    LogGoesOn(earlier, logs, cuts, q);
  }

  lemma ReplayedNext(earlier: seq<seq<Op>>, logs: seq<Log>, cuts: seq<nat>, q: nat, start: nat, groups: seq<seq<Op>>,
      maxSequence: nat, groups': seq<seq<Op>>, maxSequence': nat)
    requires LogsInOrder(earlier, logs) && |Flat(earlier + Joined(logs))| < MAX_SEQUENCE
    requires ReplayedTo(earlier, logs, cuts, q, start, groups, maxSequence) && NoHole(logs, cuts) && q < |logs|
    requires AppliedUpTo(groups, maxSequence, logs[q], cuts[q], groups', maxSequence')
    ensures ReplayedTo(earlier, logs, cuts, q + 1, start, groups', maxSequence')
  {
    hide LogsInOrder;
    hide NoHole;
    hide CanReplay;
    hide Flat;
    LogGoesOn(earlier, logs, cuts, q);
    KeptNext(logs, cuts, q);
    LengthAfter(groups, logs[q], cuts[q]);
    assert earlier + (Kept(logs[..q], cuts[..q]) + logs[q].groups[..cuts[q]]) == groups';
  }

  lemma AllReplayed(earlier: seq<seq<Op>>, logs: seq<Log>, cuts: seq<nat>, p: nat, start: nat, groups: seq<seq<Op>>,
      maxSequence: nat)
    requires ReplayedTo(earlier, logs, cuts, p, start, groups, maxSequence)
    requires forall i | p <= i < |logs| :: cuts[i] == 0
    ensures groups == earlier + Kept(logs, cuts) && maxSequence <= |Flat(earlier + Joined(logs))|
    ensures |Flat(groups)| <= Greater(start, maxSequence)
  {
    hide Flat;
    NothingKept(logs, cuts, p, |logs|);
    assert logs[..|logs|] == logs && cuts[..|logs|] == cuts;
  }

  /**
   Replays the logs from the one on record on, oldest first.  The previous log that old databases have on record is
   number 0, which no log has.
   */
  method ReplayLogs(r: Rebuild, checksum: Checksum, files: map<nat, Bytes>, minLog: nat, prevLog: nat, paranoid: bool,
      ghost earlier: seq<seq<Op>>, ghost logs: seq<Log>, ghost p0: nat)
    returns (corrupt: bool)
    requires r.Valid() && r.mem.None? && r.maxSequence == 0
    requires LogsLeft(checksum, earlier, logs, files, p0) && logs[p0].number == minLog && prevLog == 0
    requires r.groups == earlier + Joined(logs[..p0])
    modifies r
    ensures r.Valid() && r.mem.None? && !corrupt
    ensures r.nextFile >= old(r.nextFile) && forall n | n in files && n >= minLog :: n < r.nextFile
    ensures r.groups == earlier + Kept(logs, CutsOf(checksum, logs, files, minLog))
    ensures r.maxSequence <= |Flat(earlier + Joined(logs))|
    ensures |Flat(r.groups)| <= Greater(old(|Flat(r.groups)|), r.maxSequence)
    ensures r.maxSequence == SeenIn(logs, CutsOf(checksum, logs, files, minLog), p0, |logs|)
  {
    hide SeenIn;
    hide AppliedUpTo;
    hide Rebuild.Valid;
    hide LogWritten;
    hide Flat;
    hide Whole;
    hide Joined;
    hide LogsInOrder;
    hide NoHole;
    hide AreLogs;
    hide CutsOf;
    hide StillLeft;
    hide FromLog;
    hide ReplayedTo;
    hide GroupsFit;
    hide Records;
    hide EncodeLog;
    ghost var cuts, p, start := CutsOf(checksum, logs, files, minLog), p0, |Flat(r.groups)|;
    var rest: set<nat> := set n | n in files && (n >= minLog || n == prevLog);
    assert rest == set n | n in files && n >= logs[p0].number;
    RestIsLeft(checksum, earlier, logs, files, rest, p0);
    ReplayStarts(checksum, earlier, logs, files, p0);
    NothingSeen(logs, cuts, p0);
    corrupt := false;
    while rest != {}
      invariant r.Valid() && r.mem.None? && !corrupt && p0 <= p <= |logs| && r.nextFile >= old(r.nextFile)
      invariant forall n | n in files && n >= minLog :: n in rest || n < r.nextFile
      invariant StillLeft(checksum, logs, files, rest, p)
      invariant ReplayedTo(earlier, logs, cuts, p, start, r.groups, r.maxSequence)
      invariant r.maxSequence == SeenIn(logs, cuts, p0, p)
      decreases |rest|
    {
      ghost var smallest := SmallestIn(rest);
      var n :| n in rest && forall m | m in rest :: n <= m;
      LeftInFiles(checksum, logs, files, rest, p, n);
      ghost var q, known := p, FromLog(checksum, logs, p, n, files[n]);
      if known {
        q := NextLog(checksum, earlier, logs, files, rest, p0, p, n);
        ReplayGoesOn(earlier, logs, cuts, p, q, start, r.groups, r.maxSequence);
        LogIsFile(checksum, earlier, logs, q, n, files[n]);
      } else {
        EmptyFile(checksum, logs, files, rest, p, n);
      }
      ghost var groups, maxSequence := r.groups, r.maxSequence;
      ghost var cutsOut, mems;
      corrupt, cutsOut, mems := r.RecoverLogFile(checksum, files[n], paranoid,
        if known then logs[q] else Log(n, 0, []));
      if corrupt && paranoid {
        return;
      }
      if known {
        ReplayedNext(earlier, logs, cuts, q, start, groups, maxSequence, r.groups, r.maxSequence);
        SeenSkips(logs, cuts, p0, p, q);
        SeenNext(logs, cuts, p0, q, groups, maxSequence, r.groups, r.maxSequence);
        p := q + 1;
      } else {
        NothingApplied(groups, maxSequence, Log(n, 0, []), r.groups, r.maxSequence);
      }
      r.MarkFileNumberUsed(n);
      rest := rest - {n};
    }
    NoneLeft(checksum, earlier, logs, files, p0, p);
    SeenSkips(logs, cuts, p0, p, |logs|);
    AllReplayed(earlier, logs, cuts, p, start, r.groups, r.maxSequence);
  }

  lemma NothingApplied(before: seq<seq<Op>>, maxBefore: nat, log: Log, groups: seq<seq<Op>>, maxSequence: nat)
    requires log.groups == [] && AppliedUpTo(before, maxBefore, log, 0, groups, maxSequence)
    ensures groups == before && maxSequence == maxBefore
  {
  }

  lemma LogIsFile(checksum: Checksum, earlier: seq<seq<Op>>, logs: seq<Log>, q: nat, n: nat, file: Bytes)
    requires LogsInOrder(earlier, logs) && IsLog(checksum, logs, q, n, file)
    ensures GroupsFit(logs[q].start, logs[q].groups)
    ensures file <= EncodeLog(checksum, Records(logs[q].start, logs[q].groups)) && n == logs[q].number
  {
    assert StartsRight(earlier, logs, q);
  }

  lemma ReplayStarts(checksum: Checksum, earlier: seq<seq<Op>>, logs: seq<Log>, files: map<nat, Bytes>, p0: nat)
    requires LogsLeft(checksum, earlier, logs, files, p0)
    ensures var groups := earlier + Joined(logs[..p0]);
      ReplayedTo(earlier, logs, CutsOf(checksum, logs, files, logs[p0].number), p0, |Flat(groups)|, groups, 0)
  {
    hide LogsInOrder;
    hide NoHole;
    var cuts := CutsOf(checksum, logs, files, logs[p0].number);
    forall i | 0 <= i < p0 ensures cuts[i] == |logs[i].groups| {
      NumbersAscend(earlier, logs, i, p0);
    }
    AllOfLogs(logs, cuts, p0);
  }

  lemma NoneLeft(checksum: Checksum, earlier: seq<seq<Op>>, logs: seq<Log>, files: map<nat, Bytes>, p0: nat, p: nat)
    requires LogsLeft(checksum, earlier, logs, files, p0) && p0 <= p <= |logs|
    requires StillLeft(checksum, logs, files, {}, p)
    ensures forall i | p <= i < |logs| :: CutsOf(checksum, logs, files, logs[p0].number)[i] == 0
  {
    hide LogsInOrder;
    hide NoHole;
    forall i | p <= i < |logs| ensures CutOf(checksum, logs[i], files, logs[p0].number) == 0 {
      NumbersAscend(earlier, logs, p0, i);
    }
  }

  lemma LengthAfter(before: seq<seq<Op>>, log: Log, w: nat)
    requires w <= |log.groups| && CanReplay(before, log, w)
    ensures |Flat(before + log.groups[..w])| <= Greater(|Flat(before)|, log.start + |Flat(log.groups[..w])|)
    ensures w == 0 ==> Flat(before + log.groups[..w]) == Flat(before)
  {
    FlatAppends(before, log.groups[..w]);
  }
}
