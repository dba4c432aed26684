/** Concrete databases that show where the guarantees about compaction stop. */
module LimitsOfCompaction {
  import opened InternalKeys
  import opened Versions
  import opened CompactionInputs
  import opened CompactionWork
  import opened VersionBuilder
  import opened LsmSteps
  import opened CompactionReads

  function Key(user: UserKey, sequence: SequenceNumber, kind: ValueType): (r: InternalKey) {
    InternalKey(user, sequence, kind)
  }

  function Table(number: nat, entries: seq<Entry>): (r: File)
    requires entries != []
  {
    File(number, 1, entries[0].key, entries[|entries| - 1].key, entries)
  }

  // ----- a deleted key comes back -----

  const PUT1 := Entry(Key(1.0, 1, Value), [1])
  const PUT2 := Entry(Key(2.0, 2, Value), [2])
  const DELETE2 := Entry(Key(2.0, 3, Deletion), [])
  const PUT1_AGAIN := Entry(Key(1.0, 4, Value), [4])

  const HISTORY := [PUT1, PUT2, DELETE2, PUT1_AGAIN]

  const NEW_FILE := Table(12, [PUT1_AGAIN])
  const SPLIT_FILE := Table(10, [PUT1, DELETE2])
  const REST_FILE := Table(11, [PUT2])

  /** User key 2.0 spans two files of level 2, the deletion in the first and the deleted value in the second. */
  const SPLIT: Version := [[], [NEW_FILE], [SPLIT_FILE, REST_FILE], [], [], [], []]

  const CHOICE := Inputs(1, [NEW_FILE], [SPLIT_FILE], [])

  lemma SplitIsLsm()
    ensures LsmInvariant(SPLIT)
  {
    assert forall l, f | 0 <= l < NUM_LEVELS && f in SPLIT[l] ::
      (l == 1 && f == NEW_FILE) || (l == 2 && (f == SPLIT_FILE || f == REST_FILE));
    assert Less(SPLIT_FILE.smallest, REST_FILE.smallest);
  }

  lemma SplitIsPicked()
    ensures Picked(SPLIT, CHOICE)
  {
    var k := PUT1_AGAIN.key;
    assert IsRange([NEW_FILE], k, k) by {
      assert NEW_FILE in [NEW_FILE];
    }
    var files := SPLIT[2];
    assert files[..1] == [SPLIT_FILE] && files[..1][..0] == [];
    assert Overlapping(files[..1], Some(1.0), Some(1.0)) == [SPLIT_FILE];
    assert CHOICE.in1 == Overlapping(files, Some(k.user), Some(k.user));
    var all := Files(CHOICE.in0 + CHOICE.in1);
    forall u | 1.0 <= u <= 2.0 ensures SomeCovers(all, u) {
      assert SPLIT_FILE in all && Covers(SPLIT_FILE, u);
    }
    StarIsConnected(all, 1.0, 2.0);
  }

  /** A compaction that PickCompaction may choose resurrects a key: the level+1 inputs need not be closed. */
  lemma DeletedKeyComesBack()
    ensures IsHistory(HISTORY) && Picked(SPLIT, CHOICE)
    ensures Context(HISTORY, iset{}, SPLIT, CHOICE, SPLIT)
    ensures Resurrects(HISTORY, iset{}, SPLIT, CHOICE, 4, SPLIT, 4)
  {
    hide LsmInvariant;
    hide Picked;
    hide InFlight;
    SplitIsLsm();
    SplitIsPicked();
    SplitIsWritten();
    PickedIsInFlight(SPLIT, CHOICE);
    GuardOfSplit();
  }

  lemma SplitIsWritten()
    ensures forall e | Stored(SPLIT, e) :: InHistory(HISTORY, e)
    ensures DistinctSequences(SPLIT)
  {
    forall e | Stored(SPLIT, e) ensures e in HISTORY && InHistory(HISTORY, e) {
      var l, f :| 0 <= l < NUM_LEVELS && f in SPLIT[l] && e in f.entries;
      assert (l == 1 && f == NEW_FILE) || (l == 2 && (f == SPLIT_FILE || f == REST_FILE));
    }
  }

  lemma GuardOfSplit()
    ensures Resurrects(HISTORY, iset{}, SPLIT, CHOICE, 4, SPLIT, 4)
  {
    assert SPLIT_FILE in SPLIT[2] && REST_FILE in SPLIT[2];
    StoredIn(SPLIT, 2, SPLIT_FILE, DELETE2);
    assert LastHeld(HISTORY, Held(iset{}, SPLIT), 2.0, 4) == 3 by {
      assert HISTORY[2] == DELETE2 && HISTORY[3].key.user == 1.0;
      LastHeldIs(HISTORY, Held(iset{}, SPLIT), 2.0, 4, 3);
    }
    assert IsBaseLevel(SPLIT, 1, 2.0);
    assert FirstContinuation(SPLIT[2], CHOICE.in1, SPLIT_FILE, REST_FILE);
    assert ResurrectsAt(HISTORY, iset{}, SPLIT, CHOICE, 4, SPLIT, 4, SPLIT_FILE, REST_FILE, DELETE2);
  }

  // ----- a flush into a gap -----

  /** A file that is flushed to the output level of a compaction, with inputs to its left and to its right. */
  ghost predicate LandsInside(v: Version, c: Inputs, maxFileSize: nat, f: File) {
    && FlushedFile(v, f, c.level + 1) && !Beside(f, AllInputs(c))
    && LandsAt(v, f.smallest.user, f.largest.user, maxFileSize, c.level + 1)
  }

  /** User keys between the inputs' ends for which a flush goes down to level m and no further. */
  ghost predicate IsGap(v: Version, m: nat, s: InternalKey, t: InternalKey, maxFileSize: nat, lo: UserKey, hi: UserKey)
  {
    s.user <= lo <= hi <= t.user && LandsAt(v, lo, hi, maxFileSize, m)
  }

  ghost predicate HasGap(v: Version, m: nat, s: InternalKey, t: InternalKey, maxFileSize: nat) {
    exists lo, hi :: IsGap(v, m, s, t, maxFileSize, lo, hi)
  }

  ghost predicate InputsStored(v: Version, c: Inputs) {
    && AllWellFormed(v) && c.level + 1 < NUM_LEVELS
    && (forall f | f in c.in0 :: f in v[c.level]) && (forall f | f in c.in1 :: f in v[c.level + 1])
  }

  lemma LandedIsInGap(v: Version, c: Inputs, s: InternalKey, t: InternalKey, maxFileSize: nat, f: File)
    requires InputsStored(v, c) && IsRange(c.in0 + c.in1, s, t) && LandsInside(v, c, maxFileSize, f)
    ensures IsGap(v, c.level + 1, s, t, maxFileSize, f.smallest.user, f.largest.user)
  {
    hide LandsAt;
    RangeIsNonempty(f);
    var h :| h in AllInputs(c) && !Less(f.largest, h.smallest);
    var k :| k in AllInputs(c) && !Less(k.largest, f.smallest);
    assert h in c.in0 + c.in1 && k in c.in0 + c.in1;
    assert UserApart(f, h) && UserApart(f, k);
    RangeIsNonempty(h);
    RangeIsNonempty(k);
  }

  /** A table with new entries at both ends of the range. */
  function GapEntries(lo: UserKey, hi: UserKey, sequence: SequenceNumber): (r: seq<Entry>)
    requires sequence < MAX_SEQUENCE
    ensures r != []
  {
    [Entry(Key(lo, sequence, Value), [])] + if lo < hi then [Entry(Key(hi, sequence + 1, Value), [])] else []
  }

  lemma GapTakesFile(v: Version, c: Inputs, s: InternalKey, t: InternalKey, maxFileSize: nat, lo: UserKey, hi: UserKey,
      sequence: SequenceNumber, number: nat)
    requires InputsStored(v, c) && IsRange(c.in0 + c.in1, s, t) && sequence < MAX_SEQUENCE
    requires IsGap(v, c.level + 1, s, t, maxFileSize, lo, hi)
    requires forall e | Stored(v, e) :: e.key.sequence < sequence
    requires forall l, g {:trigger g in v[l]} | 0 <= l < NUM_LEVELS && g in v[l] :: g.number < number
    ensures LandsInside(v, c, maxFileSize, Table(number, GapEntries(lo, hi, sequence)))
  {
    hide NewerThan;
    hide Table;
    hide Beside;
    hide IsRange;
    hide LandsAt;
    var f := GapTable(lo, hi, sequence, number);
    forall l, g | 0 <= l < NUM_LEVELS && g in v[l] ensures NewerThan(f.entries, g.entries) {
      NewestTable(v, l, g, lo, hi, sequence, f);
    }
    LandsClear(v, lo, hi, maxFileSize, c.level + 1);
    LandsShallow(v, lo, hi, maxFileSize, c.level + 1);
    forall l, g | 0 <= l <= c.level + 1 && g in v[l] ensures UserApart(f, g) {
      assert !Overlaps(g, Some(lo), Some(hi));
    }
    assert forall g | g in AllInputs(c) :: UserApart(f, g);
    GapIsBetween(c, s, t, f);
  }

  lemma LandsShallow(v: Version, lo: UserKey, hi: UserKey, maxFileSize: nat, m: nat)
    requires LandsAt(v, lo, hi, maxFileSize, m)
    ensures m <= MAX_MEM_COMPACT_LEVEL
  {
  }

  lemma GapTable(lo: UserKey, hi: UserKey, sequence: SequenceNumber, number: nat) returns (f: File)
    requires sequence < MAX_SEQUENCE && lo <= hi
    ensures f == Table(number, GapEntries(lo, hi, sequence)) && WellFormed(f) && f.number == number
    ensures f.smallest.user == lo && f.largest.user == hi && f.entries == GapEntries(lo, hi, sequence)
  {
    f := Table(number, GapEntries(lo, hi, sequence));
  }

  lemma GapIsBetween(c: Inputs, s: InternalKey, t: InternalKey, f: File)
    requires IsRange(c.in0 + c.in1, s, t) && s.user <= f.smallest.user <= f.largest.user <= t.user
    requires forall g | g in AllInputs(c) :: WellFormed(g) && UserApart(f, g)
    ensures !Beside(f, AllInputs(c))
  {
    var h :| h in c.in0 + c.in1 && h.smallest == s;
    var k :| k in c.in0 + c.in1 && k.largest == t;
    assert h in AllInputs(c) && k in AllInputs(c);
    RangeIsNonempty(h);
    RangeIsNonempty(k);
  }

  lemma NewestTable(v: Version, l: nat, g: File, lo: UserKey, hi: UserKey, sequence: SequenceNumber, f: File)
    requires l < NUM_LEVELS && g in v[l] && forall e | Stored(v, e) :: e.key.sequence < sequence
    requires sequence < MAX_SEQUENCE && f.entries == GapEntries(lo, hi, sequence)
    ensures NewerThan(f.entries, g.entries)
  {
    forall e | e in g.entries ensures e.key.sequence < sequence { StoredIn(v, l, g, e); }
  }

  /**
   A flush can land among the inputs of a compaction at its output level if and only if between the ends of the inputs
   there are user keys for which it goes down to that level and no further: no file meets them down to that level, the
   levels below are light, and either flushes reach no deeper or the next level is in the way.
   */
  lemma FlushLandsInsideIff(v: Version, c: Inputs, s: InternalKey, t: InternalKey, maxFileSize: nat,
      sequence: SequenceNumber, number: nat)
    requires InputsStored(v, c) && IsRange(c.in0 + c.in1, s, t) && sequence < MAX_SEQUENCE
    requires forall e | Stored(v, e) :: e.key.sequence < sequence
    requires forall l, g {:trigger g in v[l]} | 0 <= l < NUM_LEVELS && g in v[l] :: g.number < number
    ensures (exists f :: LandsInside(v, c, maxFileSize, f)) <==> HasGap(v, c.level + 1, s, t, maxFileSize)
  {
    hide InputsStored;
    hide IsRange;
    hide LandsInside;
    hide IsGap;
    if f :| LandsInside(v, c, maxFileSize, f) {
      LandedIsInGap(v, c, s, t, maxFileSize, f);
    }
    var m := c.level + 1;
    if HasGap(v, m, s, t, maxFileSize) {
      var lo, hi :| IsGap(v, m, s, t, maxFileSize, lo, hi);
      GapTakesFile(v, c, s, t, maxFileSize, lo, hi, sequence, number);
    }
  }

  /** Inputs that PickCompaction chooses join up and so leave no gap. */
  lemma PickedHasNoGap(v: Version, c: Inputs, s: InternalKey, t: InternalKey, maxFileSize: nat)
    requires InputsStored(v, c) && IsRange(c.in0 + c.in1, s, t) && Connected(Files(c.in0 + c.in1))
    ensures !HasGap(v, c.level + 1, s, t, maxFileSize)
  {
    hide IsGap;
    hide Connected;
    var m := c.level + 1;
    forall lo, hi ensures !IsGap(v, m, s, t, maxFileSize, lo, hi) {
      NoGapAt(v, c, s, t, maxFileSize, lo, hi);
    }
  }

  lemma NoGapAt(v: Version, c: Inputs, s: InternalKey, t: InternalKey, maxFileSize: nat, lo: UserKey, hi: UserKey)
    requires InputsStored(v, c) && IsRange(c.in0 + c.in1, s, t) && Connected(Files(c.in0 + c.in1))
    ensures !IsGap(v, c.level + 1, s, t, maxFileSize, lo, hi)
  {
    hide LandsAt;
    hide Connected;
    if s.user <= lo <= hi <= t.user {
      ConnectedCovers(c.in0 + c.in1, s, t, lo);
      var f :| f in Files(c.in0 + c.in1) && Covers(f, lo);
      assert f in v[c.level] || f in v[c.level + 1];
      if LandsAt(v, lo, hi, maxFileSize, c.level + 1) {
        LandsClear(v, lo, hi, maxFileSize, c.level + 1);
        assert false;
      }
    }
  }

  /** An output that reaches over the landed file breaks the tree as soon as it is installed. */
  lemma LandedBreaksTree(v: Version, c: Inputs, f: File, outs: seq<File>, o: File, v': Version)
    requires c.level + 1 < NUM_LEVELS && f in v[c.level + 1] && f !in c.in1
    requires o in outs && o.smallest.user < f.smallest.user <= f.largest.user < o.largest.user
    requires Replaced(v, c, outs, v')
    ensures !LsmInvariant(v')
  {
    assert Remains(v, c, c.level + 1, f);
    assert f in v'[c.level + 1] && o in v'[c.level + 1] && !Apart(f, o);
  }

  const LEFT := Table(20, [Entry(Key(1.0, 1, Value), [])])
  const RIGHT := Table(21, [Entry(Key(5.0, 2, Value), [])])
  const FLUSHED := Table(22, [Entry(Key(3.0, 3, Value), [])])
  const OUTPUT := Table(23, LEFT.entries + RIGHT.entries)

  const GAP: Version := [[], [LEFT, RIGHT], [], [], [], [], []]
  const GAP_FLUSHED: Version := [[], [LEFT, RIGHT], [FLUSHED], [], [], [], []]
  const BROKEN: Version := [[], [], [OUTPUT, FLUSHED], [], [], [], []]

  const MANUAL := Inputs(1, [LEFT, RIGHT], [], [])

  /** The manual compaction of [1.0, 5.0] in level 1 leaves a gap between its two input files. */
  method ManualLeavesGap(limit: nat, maxFileSize: nat) returns (c: Option<Inputs>)
    requires limit > 2
    ensures c.Some? && c.value.level == 1 && c.value.in0 == [LEFT, RIGHT]
    ensures c.value.in1 == []
    ensures LsmInvariant(GAP) && !Connected(AllInputs(MANUAL))
  {
    GapIsLsm();
    var pointer;
    c, pointer := CompactRange(GAP, 1, Some(1.0), Some(5.0), limit, maxFileSize);
    ghost var n: nat :| UpTo(Overlapping(GAP[1], Some(1.0), Some(5.0)), limit, n)
      && Files(Overlapping(GAP[1], Some(1.0), Some(5.0))[..n]) <= Files(c.value.in0);
    OnlyChoice(c, limit, n);
  }

  lemma GapIsLsm()
    ensures LsmInvariant(GAP) && Tidy(GAP) && !Connected(AllInputs(MANUAL))
  {
    assert forall l, f | 0 <= l < NUM_LEVELS && f in GAP[l] :: l == 1 && (f == LEFT || f == RIGHT);
    assert LEFT in AllInputs(MANUAL) && RIGHT in AllInputs(MANUAL);
    assert !SomeCovers(AllInputs(MANUAL), 3.0);
    InvariantIsTidy(GAP);
  }

  lemma OnlyChoice(c: Option<Inputs>, limit: nat, n: nat)
    requires limit > 2 && c.Some? && c.value.level == 1
    requires InputsChosen(GAP, 1, c.value.in0, c.value.in1)
    requires UpTo(Overlapping(GAP[1], Some(1.0), Some(5.0)), limit, n)
    requires Files(Overlapping(GAP[1], Some(1.0), Some(5.0))[..n]) <= Files(c.value.in0)
    ensures c.value.in0 == [LEFT, RIGHT] && c.value.in1 == []
  {
    hide Contiguous;
    hide BoundaryClosed;
    var level := [LEFT, RIGHT];
    AllOverlap();
    assert level[..1] == [LEFT] && TotalFileSize(level[..1]) == 1;
    assert n == 2 && level[..n] == level;
    assert LEFT in Files(level) && RIGHT in Files(level);
    InLevel(c.value.in0);
    assert Files(c.value.in0) == Files(level);
    SortedIsUnique(c.value.in0, level);
    assert GAP[2] == [];
  }

  lemma AllOverlap()
    ensures Overlapping(GAP[1], Some(1.0), Some(5.0)) == [LEFT, RIGHT] && SortedFiles([LEFT, RIGHT])
  {
    var level := [LEFT, RIGHT];
    assert level[..1] == [LEFT] && level[..1][..0] == [];
    assert Overlapping([], Some(1.0), Some(5.0)) == [];
    assert Overlapping(level[..1], Some(1.0), Some(5.0)) == [LEFT];
    assert GAP[1] == level;
    assert BySmallest(LEFT, RIGHT);
  }

  lemma InLevel(in0: seq<File>)
    requires Contiguous(1, GAP[1], in0)
    ensures SortedFiles(in0) && Files(in0) <= {LEFT, RIGHT}
  {
  }

  /**
   A flush during that compaction may go into the gap; once the output is installed, level 2 has overlapping files.
   */
  lemma GapAdmitsOverlap(maxFileSize: nat)
    ensures FlushedFile(GAP, FLUSHED, 2) && AddedTo(GAP, 2, FLUSHED, GAP_FLUSHED)
    ensures LandsInside(GAP, MANUAL, maxFileSize, FLUSHED)
    ensures OutputFiles(GAP_FLUSHED, MANUAL, [OUTPUT]) && Replaced(GAP_FLUSHED, MANUAL, [OUTPUT], BROKEN)
    ensures !LsmInvariant(BROKEN)
  {
    FlushIntoGap(maxFileSize);
    OutputOfGap();
    assert FLUSHED in GAP_FLUSHED[2] && OUTPUT in [OUTPUT];
    LandedBreaksTree(GAP_FLUSHED, MANUAL, FLUSHED, [OUTPUT], OUTPUT, BROKEN);
  }

  lemma FlushIntoGap(maxFileSize: nat)
    ensures FlushedFile(GAP, FLUSHED, 2) && AddedTo(GAP, 2, FLUSHED, GAP_FLUSHED)
    ensures LandsInside(GAP, MANUAL, maxFileSize, FLUSHED)
  {
    hide LandsAt;
    GoesIntoGap(maxFileSize);
    assert forall l, f | 0 <= l < NUM_LEVELS && f in GAP[l] :: l == 1 && (f == LEFT || f == RIGHT);
    assert LEFT in MANUAL.in0 && RIGHT in MANUAL.in0;
    assert LEFT in AllInputs(MANUAL) && RIGHT in AllInputs(MANUAL);
    assert Files([FLUSHED]) == {} + {FLUSHED};
    assert SortedFiles(GAP_FLUSHED[1]) by { assert BySmallest(LEFT, RIGHT); }
  }

  lemma GoesIntoGap(maxFileSize: nat)
    ensures LandsAt(GAP, 3.0, 3.0, maxFileSize, 2)
  {
    assert forall f | f in GAP[1] :: f == LEFT || f == RIGHT;
    assert GAP[2] == [] && GAP[3] == [] && Overlapping([], Some(3.0), Some(3.0)) == [];
    assert GoesDown(GAP, 3.0, 3.0, maxFileSize, 0) && GoesDown(GAP, 3.0, 3.0, maxFileSize, 1);
  }

  lemma OutputOfGap()
    ensures OutputFiles(GAP_FLUSHED, MANUAL, [OUTPUT]) && Replaced(GAP_FLUSHED, MANUAL, [OUTPUT], BROKEN)
  {
    var v, outs := GAP_FLUSHED, [OUTPUT];
    assert forall l, f | 0 <= l < NUM_LEVELS && f in v[l] ::
      (l == 1 && (f == LEFT || f == RIGHT)) || (l == 2 && f == FLUSHED);
    assert LEFT in MANUAL.in0 && RIGHT in MANUAL.in0;
    assert LEFT in AllInputs(MANUAL) && RIGHT in AllInputs(MANUAL);
    forall e | e in OUTPUT.entries ensures FromInputs(MANUAL, e) {
      assert e in LEFT.entries || e in RIGHT.entries;
    }
    forall l, f | 0 <= l < NUM_LEVELS
      ensures f in BROKEN[l] <==> Remains(v, MANUAL, l, f) || (l == 2 && f in outs)
    {
      assert l == 2 ==> (f in BROKEN[l] <==> f == OUTPUT || f == FLUSHED);
    }
    assert SortedFiles(BROKEN[2]) by { assert BySmallest(OUTPUT, FLUSHED); }
  }
}
