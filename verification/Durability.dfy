/**
 What survives without memory: the tables of the current version alone answer every read as of the oldest write that
 is in memory only.  Every step keeps that, but an install whose guard holds on the tables alone.
 */
module Durability {
  import opened InternalKeys
  import opened Versions
  import opened CompactionInputs
  import opened CompactionWork
  import opened VersionBuilder
  import opened LsmSteps
  import opened CompactionReads
  import opened Database
  import opened DatabaseInvariant
  import opened DbImpl

  /** The tables hold what has been written up to `n`, as far as reads go. */
  ghost predicate TablesAgree(history: seq<Entry>, v: Version, n: nat)
    requires n <= |history|
  {
    forall u :: View(history, Held(iset{}, v), u, n) == SpecGet(history, u, n)
  }

  ghost predicate Durable(st: State) {
    st.immStart <= |st.history| && TablesAgree(st.history, st.version, st.immStart)
  }

  // ----- reads of a prefix -----

  lemma {:induction false} LastHeldOfPrefix(history: seq<Entry>, longer: seq<Entry>, held: iset<Entry>, user: UserKey,
      s: nat)
    requires s <= |history| && history <= longer
    ensures LastHeld(longer, held, user, s) == LastHeld(history, held, user, s)
    ensures LastWrite(longer, user, s) == LastWrite(history, user, s)
  {
    if s > 0 {
      assert longer[s - 1] == history[s - 1];
      LastHeldOfPrefix(history, longer, held, user, s - 1);
    }
  }

  lemma AgreeOfPrefix(history: seq<Entry>, longer: seq<Entry>, v: Version, n: nat)
    requires n <= |history| && history <= longer
    ensures TablesAgree(longer, v, n) <==> TablesAgree(history, v, n)
  {
    hide View;
    hide SpecGet;
    hide Held;
    forall u
      ensures View(longer, Held(iset{}, v), u, n) == View(history, Held(iset{}, v), u, n)
      ensures SpecGet(longer, u, n) == SpecGet(history, u, n)
    {
      ViewOfPrefix(history, longer, Held(iset{}, v), u, n);
    }
  }

  lemma ViewOfPrefix(history: seq<Entry>, longer: seq<Entry>, held: iset<Entry>, user: UserKey, s: nat)
    requires s <= |history| && history <= longer
    ensures View(longer, held, user, s) == View(history, held, user, s)
    ensures SpecGet(longer, user, s) == SpecGet(history, user, s)
  {
    LastHeldOfPrefix(history, longer, held, user, s);
    var w, h := LastWrite(history, user, s), LastHeld(history, held, user, s);
    assert w > 0 ==> longer[w - 1] == history[w - 1];
    assert h > 0 ==> longer[h - 1] == history[h - 1];
  }

  lemma SameStoredAgree(history: seq<Entry>, v: Version, v': Version, n: nat)
    requires n <= |history| && TablesAgree(history, v, n) && forall e :: Stored(v', e) <==> Stored(v, e)
    ensures TablesAgree(history, v', n)
  {
    assert Held(iset{}, v') == Held(iset{}, v);
  }

  // ----- flushes -----

  lemma {:induction false} NothingBetween(history: seq<Entry>, held: iset<Entry>, user: UserKey, m: nat, n: nat)
    requires m <= n <= |history| && forall i | m <= i < n :: history[i].key.user != user
    ensures LastHeld(history, held, user, n) == LastHeld(history, held, user, m)
    ensures LastWrite(history, user, n) == LastWrite(history, user, m)
  {
    if m < n { NothingBetween(history, held, user, m, n - 1); }
  }

  lemma {:induction false} LaterHeldAlike(history: seq<Entry>, held: iset<Entry>, held': iset<Entry>, user: UserKey,
      m: nat)
    requires m <= |history| && IsHistory(history)
    requires forall e: Entry | e.key.sequence <= m :: e in held' <==> e in held
    ensures LastHeld(history, held', user, m) == LastHeld(history, held, user, m)
  {
    if m > 0 {
      assert history[m - 1].key.sequence == m;
      LaterHeldAlike(history, held, held', user, m - 1);
    }
  }

  /** The newest write of a user key at or before n is held, or there is none after m. */
  lemma OneReadMore(history: seq<Entry>, held: iset<Entry>, held': iset<Entry>, m: nat, n: nat, user: UserKey)
    requires IsHistory(history) && m <= n <= |history| && View(history, held, user, m) == SpecGet(history, user, m)
    requires forall i | m <= i < n :: history[i] in held'
    requires forall e: Entry | e.key.sequence <= m :: e in held' <==> e in held
    ensures View(history, held', user, n) == SpecGet(history, user, n)
  {
    hide IsHistory;
    var w := LastWrite(history, user, n);
    if w > m {
      assert history[w - 1] in held';
      LastHeldIs(history, held', user, n, w);
    } else {
      NothingBetween(history, held', user, m, n);
      LaterHeldAlike(history, held, held', user, m);
    }
  }

  /** Tables that hold what they held up to m, and besides every write up to n. */
  lemma MoreTablesAgree(history: seq<Entry>, v: Version, v': Version, m: nat, n: nat)
    requires IsHistory(history) && m <= n <= |history| && TablesAgree(history, v, m)
    requires forall i | m <= i < n :: Stored(v', history[i])
    requires forall e: Entry | e.key.sequence <= m :: Stored(v', e) <==> Stored(v, e)
    ensures TablesAgree(history, v', n)
  {
    hide View;
    hide SpecGet;
    hide Stored;
    hide IsHistory;
    var held, held' := Held(iset{}, v), Held(iset{}, v');
    forall u ensures View(history, held', u, n) == SpecGet(history, u, n) {
      assert View(history, held, u, m) == SpecGet(history, u, m);
      OneReadMore(history, held, held', m, n, u);
    }
  }

  lemma FlushKeepsDurable(st: State, st': State, m: nat, f: File)
    requires MemoryOk(st) && st.imm.Some? && Durable(st) && FlushedTo(st, st', m, f)
    ensures Durable(st')
  {
    forall e ensures Stored(st'.version, e) <==> Stored(st.version, e) || e in f.entries {
      FlushAddsStored(st.version, m, f, st'.version, e);
    }
    MoreTablesAgree(st.history, st.version, st'.version, st.immStart, st.memStart);
  }

  // ----- installs -----

  /** What the drop rules see of a snapshot bound: no input is newer than what the tables hold. */
  function TableBound(st: State, smallestSnapshot: SequenceNumber): (r: SequenceNumber) {
    if smallestSnapshot <= st.immStart then smallestSnapshot else st.immStart
  }

  /** The guard, evaluated on the tables alone. */
  ghost predicate ResurrectsOnDisk(st: State, st': State) {
    && InstallStep(st, st') && st.immStart <= |st.history| && st.immStart <= MAX_SEQUENCE
    && st.running.value.c.level + 1 < NUM_LEVELS
    && var r := st.running.value;
       Resurrects(st.history[..st.immStart], iset{}, st.version, r.c, TableBound(st, r.smallestSnapshot), r.base,
         st.immStart)
  }

  lemma InputsAreOld(st: State, e: Entry)
    requires FilesOk(st) && RunningOk(st) && st.running.Some? && FromInputs(st.running.value.c, e)
    ensures e.key.sequence <= st.immStart && InHistory(st.history, e)
  {
    InputStored(st.version, st.running.value.c, st.running.value.base, e);
  }

  /** The bound may be lowered to what the tables hold: the same entries are dropped. */
  lemma SameDropped(st: State, input: seq<Entry>, e: Entry)
    requires st.immStart <= MAX_SEQUENCE && st.running.Some? && e in input
    requires forall x | x in input :: x.key.sequence <= st.immStart
    ensures var r := st.running.value;
      Dropped(e, input, TableBound(st, r.smallestSnapshot), r.base, r.c.level) <==>
        Dropped(e, input, r.smallestSnapshot, r.base, r.c.level)
  {
  }

  lemma KeepsAlike(st: State, input: seq<Entry>, outs: seq<File>)
    requires FilesOk(st) && RunningOk(st) && st.running.Some? && st.immStart <= MAX_SEQUENCE
    requires var r := st.running.value; OutputsKeep(r.c, input, r.smallestSnapshot, r.base, outs)
    ensures var r := st.running.value;
      OutputsKeep(r.c, input, TableBound(st, r.smallestSnapshot), r.base, outs)
  {
    hide Dropped;
    hide InFlight;
    forall e | e in input
      ensures e.key.sequence <= st.immStart
    {
      InputsAreOld(st, e);
    }
    forall e | e in input
      ensures var r := st.running.value;
        Dropped(e, input, TableBound(st, r.smallestSnapshot), r.base, r.c.level) <==>
          Dropped(e, input, r.smallestSnapshot, r.base, r.c.level)
    {
      SameDropped(st, input, e);
    }
  }

  lemma TablesContext(st: State)
    requires Shape(st) && st.running.Some?
    ensures Context(st.history[..st.immStart], iset{}, st.version, st.running.value.c, st.running.value.base)
  {
    var history := st.history[..st.immStart];
    forall e | Stored(st.version, e) ensures InHistory(history, e) {
      assert InHistory(st.history, e) && e.key.sequence <= st.immStart;
    }
  }

  /** Installing a compaction keeps the tables' answers exactly when the guard does not hold on them. */
  lemma InstallKeepsDurableIff(st: State, st': State)
    requires Shape(st) && Durable(st) && InstallStep(st, st')
    ensures Durable(st') <==> !ResurrectsOnDisk(st, st')
  {
    hide Edited;
    hide OutputsKeep;
    hide Replaced;
    hide Context;
    hide Resurrects;
    hide View;
    hide SpecGet;
    hide LsmInvariant;
    hide NoOlderLeft;
    hide NextLevelApart;
    hide Connected;
    hide InputsInOrder;
    hide DeeperUnaffected;
    var input, outs :| InstalledWith(st, st', input, outs);
    var r, n, history := st.running.value, st.immStart, st.history[..st.immStart];
    TablesContext(st);
    InstalledReplaces(st, st', input, outs);
    KeepsAlike(st, input, outs);
    ReadsPreservedIff(history, iset{}, st.version, r.c, r.base, input, TableBound(st, r.smallestSnapshot), outs,
      st'.version, n);
    AgreeOfPrefix(history, st.history, st.version, n);
    AgreeOfPrefix(history, st.history, st'.version, n);
    OneReadEach(history, st.version, st'.version, n);
  }

  /** With closed next-level inputs the guard cannot hold on the tables either. */
  lemma ClosedNeverResurrectsOnDisk(st: State, st': State)
    requires Shape(st) && InstallStep(st, st') && st.running.value.c.level + 1 < NUM_LEVELS
    requires NextLevelClosed(st.version, st.running.value.c)
    ensures !ResurrectsOnDisk(st, st')
  {
    hide InstalledWith;
    hide LsmInvariant;
    hide Resurrects;
    var r := st.running.value;
    if st.immStart <= |st.history| && st.immStart <= MAX_SEQUENCE {
      ClosedNeverResurrects(st.history[..st.immStart], iset{}, st.version, r.c, TableBound(st, r.smallestSnapshot),
        r.base, st.immStart);
    }
  }

  lemma OneReadEach(history: seq<Entry>, v: Version, v': Version, n: nat)
    requires n == |history| && TablesAgree(history, v, n)
    ensures TablesAgree(history, v', n) <==> forall user, s | n <= s <= |history| ::
      View(history, Held(iset{}, v'), user, s) == View(history, Held(iset{}, v), user, s)
  {
    hide View;
    hide SpecGet;
    forall u ensures View(history, Held(iset{}, v), u, n) == SpecGet(history, u, n) {
    }
    if forall user, s | n <= s <= |history| ::
      View(history, Held(iset{}, v'), user, s) == View(history, Held(iset{}, v), user, s)
    {
      forall u ensures View(history, Held(iset{}, v'), u, n) == SpecGet(history, u, n) {
      }
    }
  }

  // ----- every step -----

  /** Every step keeps the tables good for what is not in memory, unless it is an install that resurrects on them. */
  lemma StepKeepsDurable(st: State, st': State)
    requires Shape(st) && Durable(st) && Next(st, st') && !ResurrectsOnDisk(st, st')
    ensures Durable(st')
  {
    hide ResurrectsOnDisk;
    hide TablesAgree;
    if InstallStep(st, st') {
      InstallKeepsDurableIff(st, st');
    } else if FlushStep(st, st') {
      FlushStepKeepsDurable(st, st');
    } else if TrivialMoveStep(st, st') {
      var c :| MovedBy(st, st', c);
      MoveKeepsVersion(st, st', c);
      SameStoredAgree(st.history, st.version, st'.version, st.immStart);
    } else {
      OthersLeaveTables(st, st');
      AgreeOfPrefix(st.history, st'.history, st.version, st.immStart);
    }
  }

  lemma FlushStepKeepsDurable(st: State, st': State)
    requires Shape(st) && Durable(st) && FlushStep(st, st')
    ensures Durable(st')
  {
    hide TablesAgree;
    if st.imm.value != [] {
      var m, f :| FlushedTo(st, st', m, f);
      FlushKeepsDurable(st, st', m, f);
    } else {
      ImmutableCovers(st);
    }
  }

  lemma ImmutableCovers(st: State)
    requires MemoryOk(st) && st.imm.Some?
    ensures st.immStart < st.memStart ==> |st.imm.value| > 0
  {
    if st.immStart < st.memStart {
      assert st.history[st.immStart] in st.imm.value;
    }
  }

  lemma OthersLeaveTables(st: State, st': State)
    requires Shape(st) && Next(st, st')
    requires !InstallStep(st, st') && !FlushStep(st, st') && !TrivialMoveStep(st, st')
    ensures st'.version == st.version && st'.immStart == st.immStart && st.history <= st'.history
    ensures st'.memStart == st.memStart || SwitchStep(st, st')
  {
    hide Shape;
    if PickStep(st, st') {
      var c :| PickedTo(st, st', c);
    }
  }

  lemma InitIsDurable(st: State)
    requires Init(st)
    ensures Durable(st)
  {
  }

  // ----- a database that starts from the tables -----

  /** What is left when memory is lost: the tables, and the history that they hold. */
  ghost function OnlyTables(st: State, nextFile: nat, present: set<nat>): (r: State)
    requires st.immStart <= |st.history|
  {
    FromTables(st.history[..st.immStart], st.version, nextFile, present)
  }

  lemma OnlyTablesIsOk(st: State, nextFile: nat, present: set<nat>)
    requires Shape(st) && Durable(st)
    requires forall n | n in FileNumbers(st.version) :: n in present && n < nextFile
    ensures Inv(OnlyTables(st, nextFile, present))
  {
    hide FileNumbers;
    hide View;
    hide SpecGet;
    hide LsmInvariant;
    var base := OnlyTables(st, nextFile, present);
    OnlyTablesShape(st, nextFile, present);
    AgreeOfPrefix(base.history, st.history, st.version, st.immStart);
    assert All(base) == Held(iset{}, st.version);
    forall user, s | base.horizon <= s <= |base.history|
      ensures View(base.history, All(base), user, s) == SpecGet(base.history, user, s)
    {
    }
  }

  lemma OnlyTablesShape(st: State, nextFile: nat, present: set<nat>)
    requires Shape(st) && st.immStart <= |st.history|
    requires forall n | n in FileNumbers(st.version) :: n in present && n < nextFile
    ensures Shape(OnlyTables(st, nextFile, present))
  {
    hide FileNumbers;
    var base := OnlyTables(st, nextFile, present);
    forall e | Stored(st.version, e) ensures InHistory(base.history, e) && e.key.sequence <= st.immStart {
      assert InHistory(st.history, e);
    }
    assert LiveFilesOk(base);
  }

  // ----- sequence numbers passed over -----

  ghost predicate Unwritten(history: seq<Entry>, user: UserKey) {
    forall i | 0 <= i < |history| :: history[i].key.user != user
  }

  /** Some user key has never been written. */
  lemma {:induction false} SomeUnwritten(history: seq<Entry>) returns (user: UserKey)
    ensures forall i | 0 <= i < |history| :: history[i].key.user < user
  {
    if history == [] {
      user := 0.0;
    } else {
      var n := |history| - 1;
      var before := SomeUnwritten(history[..n]);
      user := if history[n].key.user < before then before else history[n].key.user + 1.0;
      forall i | 0 <= i < |history| ensures history[i].key.user < user {
        if i < n { assert history[..n][i] == history[i]; }
      }
    }
  }

  /** A sequence number that nothing was written with stands for a deletion of a user key never written. */
  function Padded(history: seq<Entry>, user: UserKey, last: nat): (r: seq<Entry>)
    requires |history| <= last < MAX_SEQUENCE
    ensures |r| == last && history <= r
  {
    history + seq(last - |history|, i requires 0 <= i < last - |history| =>
      Entry(InternalKey(user, |history| + 1 + i, Deletion), []))
  }

  lemma PaddingIs(history: seq<Entry>, held: iset<Entry>, user: UserKey, last: nat)
    requires |history| <= last < MAX_SEQUENCE && forall e | e in held :: InHistory(history, e)
    ensures forall i | |history| <= i < last ::
      var e := Padded(history, user, last)[i]; e !in held && e.key.user == user && e.key.kind.Deletion?
  {
    forall i | |history| <= i < last ensures Padded(history, user, last)[i] !in held {
      assert Padded(history, user, last)[i].key.sequence == i + 1;
    }
  }

  /** A key with deletions only, none of them held, reads as absent. */
  lemma NoneShown(history: seq<Entry>, held: iset<Entry>, user: UserKey, s: nat)
    requires s <= |history|
    requires forall i | 0 <= i < s ::
      history[i].key.user != user || (history[i].key.kind.Deletion? && history[i] !in held)
    ensures SpecGet(history, user, s) == None && View(history, held, user, s) == None
  {
  }

  lemma PaddingIsAbsent(history: seq<Entry>, padded: seq<Entry>, held: iset<Entry>, user: UserKey)
    requires Unwritten(history, user) && history <= padded
    requires forall i | |history| <= i < |padded| :: padded[i] !in held && padded[i].key.kind.Deletion?
    ensures SpecGet(padded, user, |padded|) == None && View(padded, held, user, |padded|) == None
    ensures SpecGet(history, user, |history|) == None && View(history, held, user, |history|) == None
  {
    hide View;
    hide SpecGet;
    NoneShown(history, held, user, |history|);
    forall i | 0 <= i < |padded|
      ensures padded[i].key.user != user || (padded[i].key.kind.Deletion? && padded[i] !in held)
    {
      if i < |history| { assert padded[i] == history[i]; }
    }
    NoneShown(padded, held, user, |padded|);
  }

  lemma OtherReadsStay(history: seq<Entry>, padded: seq<Entry>, held: iset<Entry>, u: UserKey)
    requires history <= padded && forall i | |history| <= i < |padded| :: padded[i].key.user != u
    ensures SpecGet(padded, u, |padded|) == SpecGet(history, u, |history|)
    ensures View(padded, held, u, |padded|) == View(history, held, u, |history|)
  {
    hide LastHeld;
    hide LastWrite;
    NothingBetween(padded, held, u, |history|, |padded|);
    ViewOfPrefix(history, padded, held, u, |history|);
  }

  /** No read sees it. */
  lemma PaddedReads(history: seq<Entry>, held: iset<Entry>, user: UserKey, last: nat, u: UserKey)
    requires |history| <= last < MAX_SEQUENCE && Unwritten(history, user)
    requires forall e | e in held :: InHistory(history, e)
    ensures SpecGet(Padded(history, user, last), u, last) == SpecGet(history, u, |history|)
    ensures View(Padded(history, user, last), held, u, last) == View(history, held, u, |history|)
  {
    hide Padded;
    hide Unwritten;
    hide InHistory;
    hide View;
    hide SpecGet;
    var padded := Padded(history, user, last);
    PaddingIs(history, held, user, last);
    if u == user {
      PaddingIsAbsent(history, padded, held, user);
    } else {
      OtherReadsStay(history, padded, held, u);
    }
  }

  lemma PaddedIsOk(history: seq<Entry>, v: Version, nextFile: nat, present: set<nat>, user: UserKey, last: nat)
    requires Inv(FromTables(history, v, nextFile, present)) && |history| <= last < MAX_SEQUENCE
    requires Unwritten(history, user)
    ensures Inv(FromTables(Padded(history, user, last), v, nextFile, present))
  {
    hide View;
    hide SpecGet;
    hide LsmInvariant;
    hide Padded;
    var base := FromTables(history, v, nextFile, present);
    var st := FromTables(Padded(history, user, last), v, nextFile, present);
    PaddedShape(history, v, nextFile, present, user, last);
    assert All(st) == All(base) == Held(iset{}, v);
    forall u ensures View(st.history, All(st), u, last) == SpecGet(st.history, u, last) {
      PaddedReads(history, All(base), user, last, u);
      assert View(history, All(base), u, |history|) == SpecGet(history, u, |history|);
    }
  }

  lemma PaddedShape(history: seq<Entry>, v: Version, nextFile: nat, present: set<nat>, user: UserKey, last: nat)
    requires Shape(FromTables(history, v, nextFile, present)) && |history| <= last < MAX_SEQUENCE
    ensures Shape(FromTables(Padded(history, user, last), v, nextFile, present))
    ensures forall e | e in Held(iset{}, v) :: InHistory(history, e)
  {
    hide LsmInvariant;
    hide FileNumbers;
    var st := FromTables(Padded(history, user, last), v, nextFile, present);
    forall e | Stored(v, e) ensures InHistory(st.history, e) && e.key.sequence <= last {
      assert InHistory(history, e);
    }
  }
}
