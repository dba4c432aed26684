/**
 A lookup that takes its time (db_impl.cc: DBImpl::Get): it captures the memtables and the version under the mutex and
 searches them without it, while the memtable grows, is flushed, and compactions come and go.
 */
module Lookups {
  import opened InternalKeys
  import opened Versions
  import opened CompactionReads
  import opened Database
  import opened DatabaseInvariant
  import opened DbImpl

  // ----- what one step leaves alone -----

  lemma StepGrowsHistory(st: State, st': State)
    requires Shape(st) && Next(st, st')
    ensures st.history <= st'.history
  {
    if InsertStep(st, st') {
      InsertKeepsShape(st, st');
    } else if InstallStep(st, st') {
      InstallKeepsRest(st, st');
    } else {
      QuietStepKeeps(st, st');
    }
  }

  lemma StepOf(run: seq<State>, k: nat)
    requires IsRun(run) && 0 < k < |run|
    ensures Next(run[k - 1], run[k])
  {
    hide Next;
    hide Starts;
  }

  lemma {:induction false} HistoryGrows(run: seq<State>, i: nat, j: nat)
    requires IsRun(run) && i <= j < |run|
    ensures run[i].history <= run[j].history
  {
    hide IsRun;
    hide Next;
    hide Shape;
    if i < j {
      HistoryGrows(run, i, j - 1);
      EveryRunKeepsShape(run, j - 1);
      StepOf(run, j);
      StepGrowsHistory(run[j - 1], run[j]);
    }
  }

  /** `mem'` is `mem` with writes after the first n. */
  ghost predicate Grown(mem: seq<Entry>, mem': seq<Entry>, n: nat) {
    && Sorted(mem) && Sorted(mem') && (forall x | x in mem :: x in mem')
    && (forall x | x in mem' :: x in mem || x.key.sequence > n)
  }

  /** Until the memtable is switched it only takes in the next write. */
  lemma StepGrowsMemTable(st: State, st': State)
    requires Shape(st) && Next(st, st') && !SwitchStep(st, st')
    ensures Grown(st.mem, st'.mem, |st.history|)
  {
    CapturedIsReady(st);
    if InsertStep(st, st') {
      MemTableTakes(st, st');
    } else {
      MemTableStays(st, st');
    }
  }

  lemma MemTableTakes(st: State, st': State)
    requires InsertStep(st, st')
    ensures Grown(st.mem, st'.mem, |st.history|)
  {
    var user, kind, value :| |st.history| + 1 < MAX_SEQUENCE && Sorted(st.mem)
      && (forall x | x in st.mem :: x.key.sequence <= |st.history|)
      && var e := NewEntry(st, user, kind, value);
         st' == st.(history := st.history + [e], mem := InsertSorted(st.mem, e));
  }

  lemma MemTableStays(st: State, st': State)
    requires Next(st, st') && !SwitchStep(st, st') && !InsertStep(st, st')
    ensures st'.mem == st.mem
  {
    if FlushStep(st, st') && st.imm.value != [] {
      var m, f :| FlushedTo(st, st', m, f);
    } else if PickStep(st, st') {
      var c :| PickedTo(st, st', c);
    } else if InstallStep(st, st') {
      var input, outs :| InstalledWith(st, st', input, outs);
    } else if TrivialMoveStep(st, st') {
      var c :| MovedBy(st, st', c);
    }
  }

  // ----- the memtable that was captured -----

  /** The memtable of state i is still the one that takes in writes in state k. */
  ghost predicate StillCurrent(run: seq<State>, i: nat, k: nat)
    requires i <= k < |run|
  {
    forall j {:trigger run[j]} | i < j <= k :: !SwitchStep(run[j - 1], run[j])
  }

  /** What is in state k in the memtable object that was current in state i. */
  ghost function MemTableAt(run: seq<State>, i: nat, k: nat): (r: seq<Entry>)
    requires i <= k < |run|
  {
    if k == i || StillCurrent(run, i, k) then run[k].mem else MemTableAt(run, i, k - 1)
  }

  lemma {:induction false} MemTableGrows(run: seq<State>, i: nat, k: nat)
    requires IsRun(run) && i <= k < |run|
    ensures Grown(run[i].mem, MemTableAt(run, i, k), |run[i].history|)
  {
    hide IsRun;
    hide Next;
    hide Shape;
    hide SwitchStep;
    hide LsmInvariant;
    if k == i {
      EveryRunKeepsShape(run, i);
      CapturedIsReady(run[i]);
    } else {
      MemTableGrows(run, i, k - 1);
      if StillCurrent(run, i, k) {
        assert StillCurrent(run, i, k - 1);
        EveryRunKeepsShape(run, k - 1);
        HistoryGrows(run, i, k - 1);
        StepOf(run, k);
        assert !SwitchStep(run[k - 1], run[k]);
        StepGrowsMemTable(run[k - 1], run[k]);
      }
    }
  }

  /** A read does not see the difference. */
  lemma GrownReadsAlike(mem: seq<Entry>, mem': seq<Entry>, n: nat, user: UserKey, s: SequenceNumber)
    requires Grown(mem, mem', n) && s <= n
    requires forall x, y | x in mem && y in mem && x.key.sequence == y.key.sequence :: x == y
    ensures RunGet(mem', user, s) == RunGet(mem, user, s)
  {
    var r, r' := RunGet(mem, user, s), RunGet(mem', user, s);
    assert forall x | x in mem' && Matches(x, user, s) :: x in mem;
    if !r.NotFound? {
      var x :| x in mem && Matches(x, user, s) && r == Saved(x) && forall z | z in mem && Matches(z, user, s) ::
        z.key.sequence <= x.key.sequence;
      assert x in mem';
      var y :| y in mem' && Matches(y, user, s) && r' == Saved(y) && forall z | z in mem' && Matches(z, user, s) ::
        z.key.sequence <= y.key.sequence;
      assert y in mem && x.key.sequence == y.key.sequence;
    }
  }

  lemma MemTableIsDistinct(st: State)
    requires Shape(st)
    ensures forall x, y | x in st.mem && y in st.mem && x.key.sequence == y.key.sequence :: x == y
  {
    MemInHistory(st);
    forall x, y | x in st.mem && y in st.mem && x.key.sequence == y.key.sequence ensures x == y {
      assert InHistory(st.history, x) && InHistory(st.history, y);
    }
  }

  lemma {:induction false} ReadsStay(history: seq<Entry>, history': seq<Entry>, user: UserKey, s: nat)
    requires s <= |history| && history <= history'
    ensures LastWrite(history', user, s) == LastWrite(history, user, s)
  {
    if s > 0 {
      assert history'[s - 1] == history[s - 1];
      ReadsStay(history, history', user, s - 1);
    }
  }

  lemma SpecStays(history: seq<Entry>, history': seq<Entry>, user: UserKey, s: nat)
    requires s <= |history| && history <= history'
    ensures SpecGet(history', user, s) == SpecGet(history, user, s)
  {
    ReadsStay(history, history', user, s);
  }

  /** A lookup on what a state had, with a memtable that has grown meanwhile. */
  lemma GrownAnswer(st: State, mem: seq<Entry>, user: UserKey, s: nat, r: Option<Bytes>)
    requires Inv(st) && (s == st.lastSequence || s in st.snapshots)
    requires Grown(st.mem, mem, |st.history|) && (st.imm.Some? ==> Sorted(st.imm.value))
    requires s <= MAX_SEQUENCE && Answers(mem, st.imm, st.version, user, s, r)
    ensures s <= |st.history| && r == SpecGet(st.history, user, s)
  {
    hide Shape;
    hide ReadsAgree;
    hide Answers;
    SnapshotIsLive(st, s);
    MemTableIsDistinct(st);
    GrownReadsAlike(st.mem, mem, |st.history|, user, s);
    AnswersAsWritten(st, mem, user, s, r);
  }

  /**
   A lookup captures memtables and version in state i, searches the memtable in state k, and is done in state j.  It
   gives what the newest write at or before its snapshot says, in state i and in every state since.
   */
  lemma LookupAcrossRun(run: seq<State>, i: nat, k: nat, j: nat, user: UserKey, s: nat, r: Option<Bytes>)
    requires IsRun(run) && i <= k <= j < |run| && ReadsAgreeOver(run[i])
    requires s == run[i].lastSequence || s in run[i].snapshots
    requires s <= MAX_SEQUENCE && Sorted(MemTableAt(run, i, k)) && (run[i].imm.Some? ==> Sorted(run[i].imm.value))
    requires Answers(MemTableAt(run, i, k), run[i].imm, run[i].version, user, s, r)
    ensures s <= |run[i].history| && run[i].history <= run[j].history && r == SpecGet(run[j].history, user, s)
  {
    hide IsRun;
    hide Shape;
    hide ReadsAgree;
    hide Answers;
    hide MemTableAt;
    hide Grown;
    hide SpecGet;
    hide Sorted;
    EveryRunKeepsShape(run, i);
    MemTableGrows(run, i, k);
    GrownAnswer(run[i], MemTableAt(run, i, k), user, s, r);
    HistoryGrows(run, i, j);
    SpecStays(run[i].history, run[j].history, user, s);
  }

  // ----- the files that were captured -----

  lemma StepKeepsHolder(st: State, st': State, h: Holder)
    requires Next(st, st') && IsReader(h) && h in st.holders && h in st'.holders
    ensures st'.holders[h] == st.holders[h]
  {
    if InsertStep(st, st') {
    } else if FlushStep(st, st') && st.imm.value != [] {
      var m, f :| FlushedTo(st, st', m, f);
    } else if PickStep(st, st') {
      var c :| PickedTo(st, st', c);
    } else if InstallStep(st, st') {
      var input, outs :| InstalledWith(st, st', input, outs);
    } else if TrivialMoveStep(st, st') {
      var c :| MovedBy(st, st', c);
    }
  }

  lemma HeldFilesAreThere(st: State, h: Holder)
    requires Shape(st) && h in st.holders
    ensures FileNumbers(st.holders[h]) <= st.disk
  {
    hide FileNumbers;
    assert LiveFilesOk(st);
  }

  ghost predicate HeldFrom(run: seq<State>, i: nat, k: nat, h: Holder)
    requires k < |run|
  {
    forall j {:trigger run[j]} | i <= j <= k :: h in run[j].holders
  }

  lemma HeldAt(run: seq<State>, i: nat, k: nat, h: Holder, j: nat)
    requires k < |run| && HeldFrom(run, i, k, h) && i <= j <= k
    ensures h in run[j].holders && HeldFrom(run, i, j, h)
  {
  }

  /** As long as a reader holds its version, it is the same version, and all its tables are on disk. */
  lemma {:induction false} HeldFilesStay(run: seq<State>, i: nat, k: nat, h: Holder)
    requires IsRun(run) && i <= k < |run| && IsReader(h) && HeldFrom(run, i, k, h)
    ensures h in run[i].holders && h in run[k].holders && run[k].holders[h] == run[i].holders[h]
    ensures FileNumbers(run[i].holders[h]) <= run[k].disk
  {
    hide IsRun;
    hide Next;
    hide Shape;
    hide HeldFrom;
    hide FileNumbers;
    HeldAt(run, i, k, h, i);
    HeldAt(run, i, k, h, k);
    EveryRunKeepsShape(run, k);
    HeldFilesAreThere(run[k], h);
    if i < k {
      HeldAt(run, i, k, h, k - 1);
      HeldFilesStay(run, i, k - 1, h);
      StepOf(run, k);
      StepKeepsHolder(run[k - 1], run[k], h);
    }
  }
}
