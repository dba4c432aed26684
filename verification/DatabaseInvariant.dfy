/** Every step keeps the shape of the database, and every step but a resurrecting install keeps its reads. */
module DatabaseInvariant {
  import opened InternalKeys
  import opened Versions
  import opened CompactionInputs
  import opened CompactionWork
  import opened VersionBuilder
  import opened LsmSteps
  import opened CompactionReads
  import opened Database

  // ----- reads over a growing history -----

  lemma {:induction false} LastWriteExtends(history: seq<Entry>, e: Entry, user: UserKey, s: nat)
    requires s <= |history|
    ensures LastWrite(history + [e], user, s) == LastWrite(history, user, s)
  {
    if s > 0 && history[s - 1].key.user != user {
      LastWriteExtends(history, e, user, s - 1);
    }
  }

  lemma {:induction false} LastHeldExtends(history: seq<Entry>, held: iset<Entry>, e: Entry, user: UserKey, s: nat)
    requires s <= |history| && e !in history
    ensures LastHeld(history + [e], held + iset{e}, user, s) == LastHeld(history, held, user, s)
  {
    if s > 0 {
      assert (history + [e])[s - 1] == history[s - 1] && history[s - 1] in history;
      LastHeldExtends(history, held, e, user, s - 1);
    }
  }

  /** A write that is held as soon as it is in the history is read back as written, and changes no older read. */
  lemma WriteAgrees(history: seq<Entry>, held: iset<Entry>, e: Entry, user: UserKey, s: nat, horizon: nat)
    requires IsHistory(history) && e.key.sequence == |history| + 1 && horizon <= |history|
    requires forall u, t | horizon <= t <= |history| :: View(history, held, u, t) == SpecGet(history, u, t)
    requires horizon <= s <= |history| + 1
    ensures View(history + [e], held + iset{e}, user, s) == SpecGet(history + [e], user, s)
  {
    assert e !in history;
    var h, t := history + [e], if s > |history| then |history| else s;
    assert View(history, held, user, t) == SpecGet(history, user, t);
    assert View(h, held + iset{e}, user, t) == SpecGet(h, user, t) by { OldReadsStay(history, held, e, user, t); }
    if s > t {
      assert h[t] == e;
    }
  }

  lemma OldReadsStay(history: seq<Entry>, held: iset<Entry>, e: Entry, user: UserKey, t: nat)
    requires t <= |history| && e !in history
    ensures View(history + [e], held + iset{e}, user, t) == View(history, held, user, t)
    ensures SpecGet(history + [e], user, t) == SpecGet(history, user, t)
  {
    LastWriteExtends(history, e, user, t);
    LastHeldExtends(history, held, e, user, t);
  }

  // ----- reads depend on what is held, not on where -----

  lemma SameHeldSameReads(st: State, st': State)
    requires ReadsAgreeOver(st) && st'.history == st.history && All(st') == All(st)
    requires st.horizon <= st'.horizon <= |st.history|
    ensures ReadsAgreeOver(st')
  {
    forall user, s | st'.horizon <= s <= |st'.history|
      ensures View(st'.history, All(st'), user, s) == SpecGet(st'.history, user, s)
    {
    }
  }

  ghost predicate ReadsAgreeOver(st: State) {
    st.horizon <= |st.history| && ReadsAgree(st)
  }

  // ----- memory -----

  lemma InsertKeepsMemory(st: State, e: Entry)
    requires MemoryOk(st) && |st.history| + 1 < MAX_SEQUENCE && e.key.sequence == |st.history| + 1
    ensures forall x | x in st.mem :: x.key.sequence != e.key.sequence
    ensures MemoryOk(st.(history := st.history + [e], mem := InsertSorted(st.mem, e)))
  {
    var h := st.history + [e];
    forall x | x in st.mem ensures x.key.sequence != e.key.sequence && InHistory(h, x) {
      assert InHistory(st.history, x);
    }
    var mem' := InsertSorted(st.mem, e);
    assert forall i | st.memStart <= i < |h| :: h[i] in mem' by {
      assert forall i | st.memStart <= i < |st.history| :: h[i] == st.history[i];
    }
    if st.imm.Some? {
      forall x | x in st.imm.value ensures InHistory(h, x) {
        assert InHistory(st.history, x);
      }
    }
  }

  lemma InsertKeepsShape(st: State, st': State)
    requires Shape(st) && InsertStep(st, st')
    ensures Shape(st') && All(st') == All(st) + iset{st'.history[|st.history|]}
    ensures st'.history == st.history + [st'.history[|st.history|]]
    ensures st'.history[|st.history|].key.sequence == |st.history| + 1
    ensures st'.horizon == st.horizon
  {
    var e := st'.history[|st.history|];
    InsertKeepsMemory(st, e);
    forall x | Stored(st.version, x) ensures InHistory(st'.history, x) {
      assert InHistory(st.history, x);
    }
  }

  lemma InsertKeepsReads(st: State, st': State)
    requires Inv(st) && InsertStep(st, st')
    ensures Inv(st')
  {
    InsertKeepsShape(st, st');
    var e := st'.history[|st.history|];
    forall user, s | st'.horizon <= s <= |st'.history|
      ensures View(st'.history, All(st'), user, s) == SpecGet(st'.history, user, s)
    {
      WriteAgrees(st.history, All(st), e, user, s, st.horizon);
    }
  }

  lemma SwitchKeepsShape(st: State, st': State)
    requires Shape(st) && SwitchStep(st, st')
    ensures Shape(st') && All(st') == All(st)
  {
  }

  // ----- flush -----

  lemma FlushedIsNewest(st: State, f: File)
    requires MemoryOk(st) && FilesOk(st) && st.imm.Some?
    requires f.entries == st.imm.value
    ensures NewerThanAll(st.version, f)
  {
    forall l, g | 0 <= l < NUM_LEVELS && g in st.version[l] ensures NewerThan(f.entries, g.entries) {
      forall x, y | x in f.entries && y in g.entries ensures x.key.sequence > y.key.sequence {
        StoredIn(st.version, l, g, y);
      }
    }
  }

  lemma FileNumberIn(v: Version, l: nat, f: File)
    requires l < NUM_LEVELS && f in v[l]
    ensures f.number in FileNumbers(v)
  {
  }

  lemma FlushAddsStored(v: Version, m: nat, f: File, v': Version, e: Entry)
    requires m < NUM_LEVELS && AddedTo(v, m, f, v')
    ensures Stored(v', e) <==> Stored(v, e) || e in f.entries
  {
    if Stored(v', e) {
      var l, g :| 0 <= l < NUM_LEVELS && g in v'[l] && e in g.entries;
      AddedMember(v, m, f, v', l, g);
      if g in v[l] { StoredIn(v, l, g, e); }
    }
    if Stored(v, e) {
      var l, g :| 0 <= l < NUM_LEVELS && g in v[l] && e in g.entries;
      AddedMember(v, m, f, v', l, g);
      StoredIn(v', l, g, e);
    }
    if e in f.entries {
      AddedMember(v, m, f, v', m, f);
      StoredIn(v', m, f, e);
    }
  }

  lemma FlushAddsNumber(v: Version, m: nat, f: File, v': Version)
    requires m < NUM_LEVELS && AddedTo(v, m, f, v')
    ensures FileNumbers(v') == FileNumbers(v) + {f.number}
  {
    forall n ensures n in FileNumbers(v') <==> n in FileNumbers(v) || n == f.number {
      if n in FileNumbers(v') {
        var l, g :| 0 <= l < NUM_LEVELS && g in v'[l] && g.number == n;
        AddedMember(v, m, f, v', l, g);
      }
      if n in FileNumbers(v) {
        var l, g :| 0 <= l < NUM_LEVELS && g in v[l] && g.number == n;
        AddedMember(v, m, f, v', l, g);
      }
      AddedMember(v, m, f, v', m, f);
      FileNumberIn(v', m, f);
    }
  }

  lemma FlushIsFresh(st: State, st': State, m: nat, f: File)
    requires MemoryOk(st) && FilesOk(st) && LiveFilesOk(st)
    requires st.imm.Some? && FlushedTo(st, st', m, f)
    ensures FlushedFile(st.version, f, m)
  {
    FlushedIsNewest(st, f);
    forall l, g | 0 <= l < NUM_LEVELS && g in st.version[l] ensures g.number < f.number {
      FileNumberIn(st.version, l, g);
    }
  }

  lemma FlushKeepsFiles(st: State, st': State, m: nat, f: File)
    requires MemoryOk(st) && FilesOk(st) && RunningOk(st)
    requires st.imm.Some? && FlushedTo(st, st', m, f) && FlushedFile(st.version, f, m)
    ensures FilesOk(st') && RunningOk(st')
  {
    FlushKeepsInvariant(st.version, m, f, st'.version);
    if st.running.Some? {
      FlushKeepsInFlight(st.version, m, f, st'.version, st.running.value.c, st.running.value.base);
    }
    forall e | Stored(st'.version, e) ensures InHistory(st'.history, e) && e.key.sequence <= st'.immStart {
      FlushAddsStored(st.version, m, f, st'.version, e);
    }
  }

  lemma FlushKeepsHeld(st: State, st': State, m: nat, f: File)
    requires st.imm.Some? && FlushedTo(st, st', m, f)
    ensures All(st') == All(st)
  {
    forall e ensures e in All(st') <==> e in All(st) {
      FlushAddsStored(st.version, m, f, st'.version, e);
    }
  }

  lemma FlushKeepsLive(st: State, st': State, m: nat, f: File)
    requires LiveFilesOk(st) && st.imm.Some? && FlushedTo(st, st', m, f)
    ensures LiveFilesOk(st')
  {
    FlushAddsNumber(st.version, m, f, st'.version);
  }

  lemma EmptyFlushKeepsShape(st: State, st': State, n: nat)
    requires Shape(st) && st.imm == Some([]) && n >= st.nextFile
    requires st' == st.(imm := None, immStart := st.memStart, nextFile := n)
    ensures Shape(st') && All(st') == All(st)
  {
    assert Upper(st') == Upper(st);
    assert FilesHold(st'.version, st'.history, st'.immStart);
  }

  lemma FlushKeepsShape(st: State, st': State)
    requires Shape(st) && FlushStep(st, st')
    ensures Shape(st') && All(st') == All(st)
  {
    if st.imm.value != [] {
      var m, f :| FlushedTo(st, st', m, f);
      FlushIsFresh(st, st', m, f);
      FlushKeepsFiles(st, st', m, f);
      FlushKeepsLive(st, st', m, f);
      FlushKeepsHeld(st, st', m, f);
    } else {
      var n :| n >= st.nextFile && st' == st.(imm := None, immStart := st.memStart, nextFile := n);
      EmptyFlushKeepsShape(st, st', n);
    }
  }

  // ----- compaction -----

  lemma FilesHoldDistinctSequences(v: Version, history: seq<Entry>, upTo: nat)
    requires FilesHold(v, history, upTo)
    ensures DistinctSequences(v)
  {
    forall x, y | Stored(v, x) && Stored(v, y) && x.key.sequence == y.key.sequence ensures x == y {
      assert InHistory(history, x) && InHistory(history, y);
    }
  }

  lemma PickKeepsShape(st: State, st': State)
    requires Shape(st) && PickStep(st, st')
    ensures Shape(st') && All(st') == All(st)
  {
    hide Picked;
    hide LsmInvariant;
    hide InFlight;
    var c :| PickedTo(st, st', c);
    PickKeepsRunning(st, st', c);
    PinKeepsLive(st);
  }

  lemma PickKeepsRunning(st: State, st': State, c: Inputs)
    requires FilesOk(st) && HoldersOk(st) && SmallestSnapshot(st) <= MAX_SEQUENCE
    requires PickedTo(st, st', c)
    ensures RunningOk(st')
  {
    FilesHoldDistinctSequences(st.version, st.history, st.immStart);
    PickedIsInFlight(st.version, c);
    InvariantIsSearchable(st.version);
  }

  lemma InvariantIsSearchable(v: Version)
    requires LsmInvariant(v)
    ensures LevelsSearchable(v)
  {
    forall l | 1 <= l < NUM_LEVELS ensures Ordered(v[l]) { ApartIsOrdered(v[l]); }
  }

  lemma PinKeepsLive(st: State)
    requires LiveFilesOk(st)
    ensures LiveFiles(st.version, st.holders[RunningCompaction := st.version], st.pendingOutputs, st.nextFile, st.disk)
  {
  }

  lemma UpperIsNewer(st: State)
    requires MemoryOk(st) && FilesOk(st)
    ensures AllInHistory(st.history, All(st))
    ensures forall x, e {:trigger x in Upper(st), Stored(st.version, e)} | x in Upper(st) && Stored(st.version, e) ::
      x.key.sequence > e.key.sequence
  {
  }

  lemma RunningContext(st: State)
    requires Shape(st) && st.running.Some?
    ensures Context(st.history, Upper(st), st.version, st.running.value.c, st.running.value.base)
  {
    UpperIsNewer(st);
  }

  lemma ProducedFiles(st: State, r: Running, input: seq<Entry>, outs: seq<File>)
    requires LiveFilesOk(st) && Produced(st, r, input, outs)
    ensures OutputFiles(st.version, r.c, outs)
  {
    NumbersAreFresh(st, r.c, outs);
    OutputsFromInputs(r.c, input, r.smallestSnapshot, r.base, outs);
  }

  lemma NumbersAreFresh(st: State, c: Inputs, outs: seq<File>)
    requires LiveFilesOk(st) && forall o | o in outs :: o.number in st.pendingOutputs
    ensures NumbersFree(st.version, c, outs)
  {
    forall o, l, f | o in outs && 0 <= l < NUM_LEVELS && Remains(st.version, c, l, f) ensures o.number != f.number {
      FileNumberIn(st.version, l, f);
    }
  }

  lemma OutputsFromInputs(c: Inputs, input: seq<Entry>, smallestSnapshot: SequenceNumber, base: Version,
      outs: seq<File>)
    requires OutputsKeep(c, input, smallestSnapshot, base, outs)
    ensures forall o, e | o in outs && e in o.entries :: FromInputs(c, e)
  {
    forall o, e | o in outs && e in o.entries ensures FromInputs(c, e) {
      assert e in input;
    }
  }

  lemma InstalledReplaces(st: State, st': State, input: seq<Entry>, outs: seq<File>)
    requires FilesOk(st) && RunningOk(st) && LiveFilesOk(st)
    requires st.running.Some? && InstalledWith(st, st', input, outs)
    ensures Replaced(st.version, st.running.value.c, outs, st'.version)
    ensures OutputFiles(st.version, st.running.value.c, outs)
  {
    hide Edited;
    hide OutputFiles;
    hide LsmInvariant;
    hide FilesHold;
    hide LevelsSearchable;
    hide OutputsKeep;
    hide NextLevelApart;
    hide DeeperUnaffected;
    hide Connected;
    hide NoOlderLeft;
    hide PairwiseApart;
    var r := st.running.value;
    ProducedFiles(st, r, input, outs);
    forall o | o in outs ensures o.number !in NumbersOf(r.c.in1) {
      forall f | f in r.c.in1 ensures f.number != o.number {
        FileNumberIn(st.version, r.c.level + 1, f);
      }
    }
    CompactionEditReplaces(st.version, r.c, outs, st'.version);
  }

  lemma ReplacedNumbers(v: Version, c: Inputs, outs: seq<File>, v': Version, n: nat)
    requires c.level + 1 < NUM_LEVELS && Replaced(v, c, outs, v') && n in FileNumbers(v')
    ensures n in FileNumbers(v) || exists o :: o in outs && o.number == n
  {
    var l, f :| 0 <= l < NUM_LEVELS && f in v'[l] && f.number == n;
    if Remains(v, c, l, f) { FileNumberIn(v, l, f); }
  }

  lemma InstallKeepsFiles(st: State, st': State, input: seq<Entry>, outs: seq<File>)
    requires FilesOk(st) && RunningOk(st) && LiveFilesOk(st)
    requires st.running.Some? && InstalledWith(st, st', input, outs)
    ensures FilesOk(st')
  {
    var r := st.running.value;
    InstalledReplaces(st, st', input, outs);
    InstallKeepsInvariant(st.version, r.c, r.base, outs, st'.version);
    forall e | Stored(st'.version, e) ensures Stored(st.version, e) {
      assert e in Held(iset{}, st'.version);
      HeldShrinks(iset{}, st.version, r.c, r.base, input, r.smallestSnapshot, outs, st'.version, e);
    }
  }

  lemma InstallKeepsLive(st: State, st': State, input: seq<Entry>, outs: seq<File>)
    requires FilesOk(st) && RunningOk(st) && LiveFilesOk(st)
    requires st.running.Some? && InstalledWith(st, st', input, outs)
    ensures LiveFilesOk(st')
  {
    InstalledReplaces(st, st', input, outs);
    forall n | n in FileNumbers(st'.version) ensures n in st.disk && n < st.nextFile {
      ReplacedNumbers(st.version, st.running.value.c, outs, st'.version, n);
    }
  }

  lemma InstallKeepsShape(st: State, st': State)
    requires Shape(st) && InstallStep(st, st')
    ensures Shape(st')
  {
    var input, outs :| InstalledWith(st, st', input, outs);
    InstallKeepsFiles(st, st', input, outs);
    InstallKeepsLive(st, st', input, outs);
  }

  ghost predicate ResurrectingInstall(st: State, st': State) {
    InstallStep(st, st') && st'.horizon <= |st.history| && st.running.value.c.level + 1 < NUM_LEVELS
    && Resurrects(st.history, Upper(st), st.version, st.running.value.c, st.running.value.smallestSnapshot,
      st.running.value.base, st'.horizon)
  }

  /** Installing a compaction keeps the reads exactly when it does not resurrect a deleted key. */
  lemma InstallKeepsReadsIff(st: State, st': State)
    requires Inv(st) && InstallStep(st, st')
    ensures Shape(st') && (ReadsAgree(st') <==> !ResurrectingInstall(st, st'))
  {
    hide Shape;
    hide InstallStep;
    hide ResurrectingInstall;
    hide ReadsAgree;
    hide View;
    InstallKeepsShape(st, st');
    InstallKeepsRest(st, st');
    InstallPreservesIff(st, st');
    AgreeIffPreserved(st, st');
  }

  lemma InstallKeepsRest(st: State, st': State)
    requires Shape(st) && InstallStep(st, st')
    ensures st'.history == st.history && Upper(st') == Upper(st)
    ensures st.horizon <= st'.horizon <= |st.history|
  {
    hide Produced;
    hide Edited;
    hide FilesOk;
    hide LiveFilesOk;
    hide InFlight;
    hide HoldsWrites;
    var input, outs :| InstalledWith(st, st', input, outs);
  }

  lemma InstallPreservesIff(st: State, st': State)
    requires Shape(st) && InstallStep(st, st') && st'.horizon <= |st.history|
    ensures st.running.value.c.level + 1 < NUM_LEVELS
    ensures (forall user, s | st'.horizon <= s <= |st.history| ::
        View(st.history, Held(Upper(st), st'.version), user, s) ==
          View(st.history, Held(Upper(st), st.version), user, s))
      <==> !ResurrectingInstall(st, st')
  {
    hide Edited;
    hide OutputsKeep;
    hide Replaced;
    hide Context;
    hide Resurrects;
    hide View;
    hide MemoryOk;
    hide HoldersOk;
    hide LevelsSearchable;
    hide LsmInvariant;
    hide NoOlderLeft;
    hide NextLevelApart;
    hide Connected;
    hide InputsInOrder;
    hide DeeperUnaffected;
    hide LiveFiles;
    var input, outs :| InstalledWith(st, st', input, outs);
    var r := st.running.value;
    RunningContext(st);
    InstalledReplaces(st, st', input, outs);
    ReadsPreservedIff(st.history, Upper(st), st.version, r.c, r.base, input, r.smallestSnapshot, outs, st'.version,
      st'.horizon);
  }

  lemma AgreeIffPreserved(st: State, st': State)
    requires ReadsAgreeOver(st) && st'.history == st.history
    requires st.horizon <= st'.horizon <= |st.history| && Upper(st') == Upper(st)
    ensures ReadsAgree(st') <==> forall user, s | st'.horizon <= s <= |st.history| ::
      View(st.history, Held(Upper(st), st'.version), user, s) == View(st.history, Held(Upper(st), st.version), user, s)
  {
    forall user, s | st'.horizon <= s <= |st.history|
      ensures View(st.history, Held(Upper(st), st.version), user, s) == SpecGet(st.history, user, s)
    {
      assert All(st) == Held(Upper(st), st.version);
    }
    assert All(st') == Held(Upper(st), st'.version);
  }

  // ----- trivial move -----

  lemma MoveReplaces(v: Version, c: Inputs, v': Version)
    requires LsmInvariant(v) && InFlight(v, c, v) && |c.in0| == 1
    requires c.in1 == []
    requires Edited(v, CompactionEdit(c, c.in0), v')
    ensures OutputFiles(v, c, c.in0) && Replaced(v, c, c.in0, v')
  {
    var f := c.in0[0];
    assert c.in0 == [f] && f in AllInputs(c);
    forall l, g | 0 <= l < NUM_LEVELS && Remains(v, c, l, g) ensures g.number != f.number {
      assert SameNumber(c.level, f, l, g) || f.number != g.number;
    }
    assert forall e | e in f.entries :: FromInputs(c, e);
    CompactionEditReplaces(v, c, c.in0, v');
  }

  lemma MoveKeepsStored(v: Version, c: Inputs, v': Version, e: Entry)
    requires c.level + 1 < NUM_LEVELS && c.in1 == [] && (forall f | f in c.in0 :: f in v[c.level])
    requires Replaced(v, c, c.in0, v')
    ensures Stored(v', e) <==> Stored(v, e)
  {
    if Stored(v', e) {
      var l, f :| 0 <= l < NUM_LEVELS && f in v'[l] && e in f.entries;
      if Remains(v, c, l, f) { StoredIn(v, l, f, e); } else { StoredIn(v, c.level, f, e); }
    }
    if Stored(v, e) {
      var l, f :| 0 <= l < NUM_LEVELS && f in v[l] && e in f.entries;
      if Remains(v, c, l, f) {
        assert f in v'[l];
        StoredIn(v', l, f, e);
      } else {
        assert f in v'[c.level + 1];
        StoredIn(v', c.level + 1, f, e);
      }
    }
  }

  lemma MoveKeepsNumbers(v: Version, c: Inputs, v': Version)
    requires c.level + 1 < NUM_LEVELS && (forall f | f in c.in0 :: f in v[c.level]) && Replaced(v, c, c.in0, v')
    ensures FileNumbers(v') <= FileNumbers(v)
  {
    forall n | n in FileNumbers(v') ensures n in FileNumbers(v) {
      ReplacedNumbers(v, c, c.in0, v', n);
      forall f | f in c.in0 ensures f.number in FileNumbers(v) { FileNumberIn(v, c.level, f); }
    }
  }

  lemma MoveKeepsFiles(v: Version, c: Inputs, v': Version)
    requires LsmInvariant(v) && InFlight(v, c, v) && |c.in0| == 1
    requires c.in1 == []
    requires Edited(v, CompactionEdit(c, c.in0), v')
    ensures LsmInvariant(v') && FileNumbers(v') <= FileNumbers(v)
    ensures forall e :: Stored(v', e) <==> Stored(v, e)
  {
    MoveReplaces(v, c, v');
    InstallKeepsInvariant(v, c, v, c.in0, v');
    forall e ensures Stored(v', e) <==> Stored(v, e) {
      MoveKeepsStored(v, c, v', e);
    }
    MoveKeepsNumbers(v, c, v');
  }

  lemma MoveKeepsShape(st: State, st': State)
    requires Shape(st) && TrivialMoveStep(st, st')
    ensures Shape(st') && All(st') == All(st)
  {
    hide Picked;
    hide Edited;
    hide LsmInvariant;
    var c :| MovedBy(st, st', c);
    MoveKeepsVersion(st, st', c);
    MovedFilesOk(st, st');
  }

  lemma MoveKeepsVersion(st: State, st': State, c: Inputs)
    requires FilesOk(st) && MovedBy(st, st', c)
    ensures LsmInvariant(st'.version) && FileNumbers(st'.version) <= FileNumbers(st.version)
    ensures forall e :: Stored(st'.version, e) <==> Stored(st.version, e)
  {
    MoveIsInFlight(st, c);
    MoveKeepsFiles(st.version, c, st'.version);
  }

  lemma MoveIsInFlight(st: State, c: Inputs)
    requires FilesOk(st) && Picked(st.version, c)
    ensures InFlight(st.version, c, st.version)
  {
    FilesHoldDistinctSequences(st.version, st.history, st.immStart);
    PickedIsInFlight(st.version, c);
  }

  lemma MovedFilesOk(st: State, st': State)
    requires FilesOk(st) && LiveFilesOk(st) && st' == st.(version := st'.version)
    requires LsmInvariant(st'.version)
    requires FileNumbers(st'.version) <= FileNumbers(st.version)
    requires forall e :: Stored(st'.version, e) <==> Stored(st.version, e)
    ensures FilesOk(st') && LiveFilesOk(st') && All(st') == All(st)
  {
    assert FilesHold(st'.version, st.history, st.immStart);
  }

  // ----- the rest -----

  lemma ReleaseKeepsShape(st: State, st': State)
    requires Shape(st) && ReleaseStep(st, st')
    ensures Shape(st') && All(st') == All(st)
  {
  }

  lemma PublishOrSnapshotKeepsShape(st: State, st': State)
    requires Shape(st) && (PublishStep(st, st') || SnapshotStep(st, st'))
    ensures Shape(st') && All(st') == All(st)
  {
  }

  lemma FileStepsKeepShape(st: State, st': State)
    requires Shape(st)
    requires AllocateStep(st, st') || OpenOutputStep(st, st') || AbandonStep(st, st') || PinStep(st, st')
      || UnpinStep(st, st') || CleanStep(st, st')
    ensures Shape(st') && All(st') == All(st)
  {
    hide LsmInvariant;
    hide HoldsWrites;
    hide IsHistory;
    hide FilesHold;
    hide LiveFiles;
    hide FileNumbers;
    hide Stored;
    hide InFlight;
    hide LevelsSearchable;
    FileStepsKeepLive(st, st');
  }

  lemma FileStepsKeepLive(st: State, st': State)
    requires LiveFilesOk(st)
    requires AllocateStep(st, st') || OpenOutputStep(st, st') || AbandonStep(st, st') || PinStep(st, st')
      || UnpinStep(st, st') || CleanStep(st, st')
    ensures LiveFilesOk(st')
  {
    hide FileNumbers;
    if CleanStep(st, st') {
      forall h, n | h in st.holders && n in FileNumbers(st.holders[h]) ensures Needed(st, n) {
      }
    }
  }

  // ----- every run -----

  /** One step keeps the shape, and the reads too unless it is an install that resurrects a key. */
  lemma StepKeeps(st: State, st': State)
    requires Shape(st) && Next(st, st')
    ensures Shape(st')
    ensures ReadsAgree(st) && !ResurrectingInstall(st, st') ==> ReadsAgree(st')
  {
    if InsertStep(st, st') {
      InsertKeepsShape(st, st');
      if ReadsAgree(st) { InsertKeepsReads(st, st'); }
    } else if InstallStep(st, st') {
      InstallKeepsShape(st, st');
      if ReadsAgree(st) { InstallKeepsReadsIff(st, st'); }
    } else {
      QuietStepKeeps(st, st');
      if ReadsAgree(st) { SameHeldSameReads(st, st'); }
    }
  }

  /** The other steps move entries around without changing what is held. */
  lemma QuietStepKeeps(st: State, st': State)
    requires Shape(st) && Next(st, st') && !InsertStep(st, st')
    requires !InstallStep(st, st')
    ensures Shape(st') && All(st') == All(st) && st'.history == st.history
    ensures st'.horizon == st.horizon
  {
    hide Shape;
    if SwitchStep(st, st') { SwitchKeepsShape(st, st'); }
    else if FlushStep(st, st') { FlushKeepsShape(st, st'); }
    else if PickStep(st, st') { PickKeepsShape(st, st'); }
    else if TrivialMoveStep(st, st') { MoveKeepsShape(st, st'); }
    else if ReleaseStep(st, st') { ReleaseKeepsShape(st, st'); }
    else if PublishStep(st, st') || SnapshotStep(st, st') { PublishOrSnapshotKeepsShape(st, st'); }
    else { FileStepsKeepShape(st, st'); }
  }

  lemma InitIsOk(st: State)
    requires Init(st)
    ensures Inv(st)
  {
    assert forall l, f | 0 <= l < NUM_LEVELS :: f !in st.version[l];
    assert FileNumbers(st.version) == {};
  }

  /** Where a run starts: an empty database, or one that has been opened again on the tables of a former one. */
  ghost predicate Starts(st: State) {
    Init(st) || (Inv(st) && st == FromTables(st.history, st.version, st.nextFile, st.disk))
  }

  lemma StartIsOk(st: State)
    requires Starts(st)
    ensures Inv(st)
  {
    hide Inv;
    if Init(st) { InitIsOk(st); }
  }

  ghost predicate IsRun(run: seq<State>) {
    && run != [] && Starts(run[0])
    && forall i {:trigger run[i]} | 0 < i < |run| :: Next(run[i - 1], run[i])
  }

  /** Every run keeps the LSM invariant, the memtables, the snapshots, the inputs in flight and the live files. */
  lemma {:induction false} EveryRunKeepsShape(run: seq<State>, n: nat)
    requires IsRun(run) && n < |run|
    ensures Shape(run[n])
  {
    if n == 0 {
      StartIsOk(run[0]);
    } else {
      EveryRunKeepsShape(run, n - 1);
      assert Next(run[n - 1], run[n]);
      StepKeeps(run[n - 1], run[n]);
    }
  }

  ghost predicate NeverResurrects(run: seq<State>) {
    forall i {:trigger run[i]} | 0 < i < |run| :: !ResurrectingInstall(run[i - 1], run[i])
  }

  /** In every run without a resurrecting install, every state answers every read at a live snapshot as written. */
  lemma {:induction false} EveryRunReadsAgree(run: seq<State>, n: nat)
    requires IsRun(run) && NeverResurrects(run) && n < |run|
    ensures Inv(run[n])
  {
    if n == 0 {
      StartIsOk(run[0]);
    } else {
      EveryRunReadsAgree(run, n - 1);
      assert Next(run[n - 1], run[n]) && !ResurrectingInstall(run[n - 1], run[n]);
      StepKeeps(run[n - 1], run[n]);
    }
  }

  /**
   So a read at any snapshot that is still live, or at the last sequence number, gives the newest write at or before it.
   */
  lemma LiveReadsAgree(st: State, user: UserKey, s: nat)
    requires Inv(st) && (s == st.lastSequence || s in st.snapshots)
    ensures s <= |st.history| && View(st.history, All(st), user, s) == SpecGet(st.history, user, s)
  {
    if s in st.snapshots {
      var i :| 0 <= i < |st.snapshots| && st.snapshots[i] == s;
    }
  }
}
