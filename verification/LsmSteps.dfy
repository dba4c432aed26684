/**
 What one edit does to the tree: a memtable flush, also in the middle of a compaction, and the installation of a
 compaction's outputs both keep the LSM invariant.
 */
module LsmSteps {
  import opened InternalKeys
  import opened Versions
  import opened CompactionInputs
  import opened VersionBuilder

  ghost predicate Edited(v: Version, edit: VersionEdit, v': Version) {
    LevelsSorted(v') && forall l | 0 <= l < NUM_LEVELS :: Files(v'[l]) == Install(Files(v[l]), ChangeAt(edit, l))
  }

  predicate UserApart(f: File, g: File) {
    f.largest.user < g.smallest.user || g.largest.user < f.smallest.user
  }

  function AllInputs(c: Inputs): (r: set<File>) {
    Files(c.in0 + c.in1)
  }

  ghost predicate Beside(g: File, files: set<File>) {
    (forall h | h in files :: Less(g.largest, h.smallest)) || (forall h | h in files :: Less(h.largest, g.smallest))
  }

  /** Level+1 files outside the inputs lie to one side of all inputs and share no user key with the level inputs. */
  ghost predicate NextLevelApart(level: seq<File>, c: Inputs) {
    && (forall g | g in level && g !in c.in1 :: Beside(g, AllInputs(c)))
    && (forall g, f | g in level && g !in c.in1 && f in c.in0 :: UserApart(f, g))
  }

  /** Below the output level, every file was there when the compaction was picked or shares no user key with it. */
  ghost predicate DeeperUnaffected(v: Version, c: Inputs, base: Version) {
    forall l, g, f {:trigger g in v[l], f in AllInputs(c)}
      | c.level + 2 <= l < NUM_LEVELS && g in v[l] && f in AllInputs(c) :: g in base[l] || UserApart(f, g)
  }

  /** The inputs of each level from 1 on can be read one file after the other. */
  ghost predicate InputsInOrder(c: Inputs) {
    SortedFiles(c.in0) && (c.level > 0 ==> Ordered(c.in0)) && Ordered(c.in1)
  }

  /** What stays true of the inputs of a running compaction, picked on version `base`, in the current version `v`. */
  ghost predicate InFlight(v: Version, c: Inputs, base: Version) {
    && c.level + 1 < NUM_LEVELS && c.in0 != []
    && (forall f | f in c.in0 :: f in v[c.level]) && (forall f | f in c.in1 :: f in v[c.level + 1])
    && NoOlderLeft(v[c.level], c.in0)
    && NextLevelApart(v[c.level + 1], c)
    && Connected(AllInputs(c)) && InputsInOrder(c)
    && DeeperUnaffected(v, c, base)
  }

  // ----- a picked compaction -----

  lemma LeftOutIsBeside(level: seq<File>, c: Inputs, g: File, s: InternalKey, l: InternalKey)
    requires (forall f | f in level :: WellFormed(f)) && PairwiseApart(level)
    requires (forall f | f in c.in0 :: WellFormed(f)) && IsRange(c.in0, s, l)
    requires c.in1 == Overlapping(level, Some(s.user), Some(l.user))
    requires g in level && g !in c.in1
    ensures Beside(g, AllInputs(c)) && forall f | f in c.in0 :: UserApart(f, g)
  {
    RangeMeets(c.in0, s, l);
    RangeIsNonempty(g);
    var left := g.largest.user < s.user;
    assert !left ==> g.smallest.user > l.user;
    forall h | h in AllInputs(c)
      ensures if left then Less(g.largest, h.smallest) else Less(h.largest, g.smallest)
    {
      if h in c.in1 {
        RangeIsNonempty(h);
        assert Apart(g, h);
      }
    }
  }

  lemma NextLevelIsApart(level: seq<File>, c: Inputs, s: InternalKey, l: InternalKey)
    requires (forall f | f in level :: WellFormed(f)) && PairwiseApart(level)
    requires (forall f | f in c.in0 :: WellFormed(f)) && IsRange(c.in0, s, l)
    requires c.in1 == Overlapping(level, Some(s.user), Some(l.user))
    ensures NextLevelApart(level, c)
  {
    forall g | g in level && g !in c.in1
      ensures Beside(g, AllInputs(c)) && forall f | f in c.in0 :: UserApart(f, g)
    {
      LeftOutIsBeside(level, c, g, s, l);
    }
  }

  lemma PickedIsInFlight(v: Version, c: Inputs)
    requires LsmInvariant(v) && DistinctSequences(v) && Picked(v, c)
    ensures InFlight(v, c, v)
  {
    InvariantIsTidy(v);
    ContiguousLeavesNoOlder(v, c.level, c.in0);
    ClosedIsInFlight(v, c);
  }

  lemma ClosedIsInFlight(v: Version, c: Inputs)
    requires Tidy(v) && Picked(v, c) && NoOlderLeft(v[c.level], c.in0)
    ensures InFlight(v, c, v)
  {
    hide Tidy;
    hide NextLevelApart;
    hide NoOlderLeft;
    hide InputsInOrder;
    hide Connected;
    hide BoundaryClosed;
    hide NextLevelMatches;
    PickedNextLevel(v, c);
    PickedInOrder(v, c);
  }

  lemma PickedInOrder(v: Version, c: Inputs)
    requires Tidy(v) && Picked(v, c)
    ensures InputsInOrder(c)
  {
    LevelOfPicked(v, c);
    var s, t := RangeOfPicked(v, c);
    assert LevelFiles(c.level, v[c.level]) && LevelFiles(c.level + 1, v[c.level + 1]);
    OverlappingKeepsOrder(v[c.level + 1], Some(s.user), Some(t.user));
    ApartIsOrdered(c.in1);
    if c.level > 0 { ApartIsOrdered(c.in0); }
  }

  lemma PickedNextLevel(v: Version, c: Inputs)
    requires Tidy(v) && Picked(v, c)
    ensures NextLevelApart(v[c.level + 1], c) && forall f | f in c.in1 :: f in v[c.level + 1]
  {
    var s, t := RangeOfPicked(v, c);
    LevelOfPicked(v, c);
    NextLevelIsApart(v[c.level + 1], c, s, t);
  }

  lemma RangeOfPicked(v: Version, c: Inputs) returns (s: InternalKey, t: InternalKey)
    requires Picked(v, c)
    ensures IsRange(c.in0, s, t) && c.in1 == Overlapping(v[c.level + 1], Some(s.user), Some(t.user))
  {
    s, t :| IsRange(c.in0, s, t) && c.in1 == Overlapping(v[c.level + 1], Some(s.user), Some(t.user));
  }

  lemma LevelOfPicked(v: Version, c: Inputs)
    requires Tidy(v) && Picked(v, c)
    ensures forall f | f in c.in0 :: f in v[c.level] && WellFormed(f)
    ensures (forall f | f in v[c.level + 1] :: WellFormed(f)) && PairwiseApart(v[c.level + 1])
  {
    assert LevelFiles(c.level, v[c.level]) && LevelFiles(c.level + 1, v[c.level + 1]);
  }

  // ----- flush -----

  /** PickLevelForMemTableOutput goes below level 0 only over levels that the new file does not overlap. */
  ghost predicate FlushLevelOk(v: Version, f: File, m: nat) {
    m <= MAX_MEM_COMPACT_LEVEL && (m > 0 ==> forall l, g {:trigger g in v[l]} | 0 <= l <= m && g in v[l] ::
      UserApart(f, g))
  }

  ghost predicate Misses(files: seq<File>, lo: UserKey, hi: UserKey) {
    forall f | f in files :: !Overlaps(f, Some(lo), Some(hi))
  }

  /** What a file over [lo, hi] would have to be merged with when it leaves the level above is not too heavy. */
  predicate LightBelow(files: seq<File>, lo: UserKey, hi: UserKey, maxFileSize: nat) {
    TotalFileSize(Overlapping(files, Some(lo), Some(hi))) <= 10 * maxFileSize
  }

  /** From one level to the next: free of overlap there, and not too heavy one further down. */
  ghost predicate GoesDown(v: Version, lo: UserKey, hi: UserKey, maxFileSize: nat, level: nat) {
    && level < MAX_MEM_COMPACT_LEVEL && Misses(v[level + 1], lo, hi) && LightBelow(v[level + 2], lo, hi, maxFileSize)
  }

  /** The level for a new file over [lo, hi]: as deep as it goes down from level 0, if that is free of overlap. */
  ghost predicate LandsAt(v: Version, lo: UserKey, hi: UserKey, maxFileSize: nat, level: nat) {
    && level <= MAX_MEM_COMPACT_LEVEL && (level > 0 ==> Misses(v[0], lo, hi))
    && (forall l | 0 <= l < level :: GoesDown(v, lo, hi, maxFileSize, l))
    && (Misses(v[0], lo, hi) ==> !GoesDown(v, lo, hi, maxFileSize, level))
  }

  /** There is one such level. */
  lemma LandsAtOne(v: Version, lo: UserKey, hi: UserKey, maxFileSize: nat, level: nat, other: nat)
    requires LandsAt(v, lo, hi, maxFileSize, level) && LandsAt(v, lo, hi, maxFileSize, other)
    ensures level == other
  {
    hide GoesDown;
    assert level < other ==> GoesDown(v, lo, hi, maxFileSize, level);
    assert other < level ==> GoesDown(v, lo, hi, maxFileSize, other);
  }

  lemma LandsClear(v: Version, lo: UserKey, hi: UserKey, maxFileSize: nat, level: nat)
    requires LandsAt(v, lo, hi, maxFileSize, level) && level > 0
    ensures forall l, f {:trigger f in v[l]} | 0 <= l <= level && f in v[l] :: !Overlaps(f, Some(lo), Some(hi))
  {
    forall l, f | 0 <= l <= level && f in v[l] ensures !Overlaps(f, Some(lo), Some(hi)) {
      assert l > 0 ==> GoesDown(v, lo, hi, maxFileSize, l - 1);
    }
  }

  /** Goes down from level 0 as long as it may. */
  method PickLevelForMemTableOutput(v: Version, lo: UserKey, hi: UserKey, maxFileSize: nat) returns (level: nat)
    requires Tidy(v) && LevelsSorted(v) && lo <= hi
    ensures LandsAt(v, lo, hi, maxFileSize, level)
  {
    hide Tidy;
    hide LevelsSorted;
    hide Misses;
    hide LightBelow;
    level := 0;
    var overlap := OverlapInLevel(v, 0, lo, hi);
    if !overlap {
      while level < MAX_MEM_COMPACT_LEVEL
        invariant level <= MAX_MEM_COMPACT_LEVEL
        invariant forall l | 0 <= l < level :: GoesDown(v, lo, hi, maxFileSize, l)
      {
        overlap := OverlapInLevel(v, level + 1, lo, hi);
        if overlap {
          break;
        }
        if level + 2 < NUM_LEVELS {
          var overlaps := GetOverlappingInputs(v[level + 2], level + 2, Some(lo), Some(hi));
          var sum := TotalFileSize(overlaps);
          assert sum <= 10 * maxFileSize <==> LightBelow(v[level + 2], lo, hi, maxFileSize) by {
            WeighsOverlaps(v[level + 2], lo, hi, maxFileSize);
          }
          if sum > 10 * maxFileSize {
            break;
          }
        }
        level := level + 1;
      }
    }
  }

  lemma WeighsOverlaps(files: seq<File>, lo: UserKey, hi: UserKey, maxFileSize: nat)
    ensures LightBelow(files, lo, hi, maxFileSize) <==>
      TotalFileSize(Overlapping(files, Some(lo), Some(hi))) <= 10 * maxFileSize
  {
  }

  method OverlapInLevel(v: Version, level: nat, lo: UserKey, hi: UserKey) returns (overlap: bool)
    requires Tidy(v) && LevelsSorted(v) && lo <= hi && level < NUM_LEVELS
    ensures overlap <==> !Misses(v[level], lo, hi)
  {
    assert LevelFiles(level, v[level]);
    if level > 0 { ApartIsOrdered(v[level]); }
    overlap := SomeFileOverlapsRange(level > 0, v[level], Some(lo), Some(hi));
  }

  ghost predicate NewerThanAll(v: Version, f: File) {
    forall l, g {:trigger g in v[l]} | 0 <= l < NUM_LEVELS && g in v[l] :: NewerThan(f.entries, g.entries)
  }

  /** A new file of the memtable: fresh number above every number in use, newer than everything stored. */
  ghost predicate FlushedFile(v: Version, f: File, m: nat) {
    && WellFormed(f) && FlushLevelOk(v, f, m) && NewerThanAll(v, f)
    && forall l, g {:trigger g in v[l]} | 0 <= l < NUM_LEVELS && g in v[l] :: g.number < f.number
  }

  ghost predicate AddedTo(v: Version, m: nat, f: File, v': Version)
    requires m < NUM_LEVELS
  {
    LevelsSorted(v') && forall l | 0 <= l < NUM_LEVELS :: Files(v'[l]) == Files(v[l]) + if l == m then {f} else {}
  }

  lemma FlushEditAdds(v: Version, m: nat, f: File, v': Version)
    requires m < NUM_LEVELS && Edited(v, VersionEdit({}, [(m, f)]), v')
    ensures AddedTo(v, m, f, v')
  {
    var edit := VersionEdit({}, [(m, f)]);
    forall l | 0 <= l < NUM_LEVELS
      ensures Files(v'[l]) == Files(v[l]) + if l == m then {f} else {}
    {
      assert AddedAt(edit.newFiles, l) == if l == m then {f} else {};
      assert DeletedAt(edit, l) == {};
    }
  }

  lemma AddedMember(v: Version, m: nat, f: File, v': Version, l: nat, g: File)
    requires m < NUM_LEVELS && AddedTo(v, m, f, v') && l < NUM_LEVELS
    ensures g in v'[l] <==> g in v[l] || (l == m && g == f)
  {
    assert g in v'[l] <==> g in Files(v'[l]);
  }

  lemma UserApartIsApart(f: File, g: File)
    requires WellFormed(f) && WellFormed(g) && UserApart(f, g)
    ensures Apart(f, g) && NewerThan(f.entries, g.entries) && NewerThan(g.entries, f.entries)
  {
    forall x, y | x in f.entries && y in g.entries ensures x.key.user != y.key.user {
      EntryInRange(f, x);
      EntryInRange(g, y);
    }
  }

  lemma FlushKeepsApart(v: Version, m: nat, f: File, v': Version, l: nat)
    requires AllWellFormed(v) && 1 <= l < NUM_LEVELS && PairwiseApart(v[l])
    requires m < NUM_LEVELS && WellFormed(f) && FlushLevelOk(v, f, m)
    requires AddedTo(v, m, f, v')
    ensures PairwiseApart(v'[l])
  {
    forall g, h | g in v'[l] && h in v'[l] && g != h ensures Apart(g, h) {
      AddedMember(v, m, f, v', l, g);
      AddedMember(v, m, f, v', l, h);
      if l == m {
        if g == f { UserApartIsApart(f, h); } else if h == f { UserApartIsApart(f, g); }
      }
    }
  }

  lemma FlushKeepsNumbers(v: Version, m: nat, f: File, v': Version)
    requires AllWellFormed(v) && DistinctNumbers(v) && m < NUM_LEVELS
    requires FlushedFile(v, f, m) && AddedTo(v, m, f, v')
    ensures AllWellFormed(v') && DistinctNumbers(v')
  {
    forall l, g | 0 <= l < NUM_LEVELS && g in v'[l] ensures WellFormed(g) {
      AddedMember(v, m, f, v', l, g);
    }
    forall l, k, g, h | 0 <= l < NUM_LEVELS && 0 <= k < NUM_LEVELS && g in v'[l] && h in v'[k] && g.number == h.number
      ensures l == k && g == h
    {
      AddedMember(v, m, f, v', l, g);
      AddedMember(v, m, f, v', k, h);
      assert SameNumber(l, g, k, h);
    }
  }

  lemma FlushKeepsAge(v: Version, m: nat, f: File, v': Version)
    requires AllWellFormed(v) && AgeOrdered(v) && m < NUM_LEVELS
    requires FlushedFile(v, f, m) && AddedTo(v, m, f, v')
    ensures AgeOrdered(v')
  {
    forall l, k, g, h | 0 <= l < NUM_LEVELS && 0 <= k < NUM_LEVELS && g in v'[l] && h in v'[k] && Above(l, g, k, h)
      ensures NewerThan(g.entries, h.entries)
    {
      AddedMember(v, m, f, v', l, g);
      AddedMember(v, m, f, v', k, h);
      if g in v[l] && h !in v[k] { UserApartIsApart(f, g); }
    }
  }

  lemma FlushKeepsInvariant(v: Version, m: nat, f: File, v': Version)
    requires LsmInvariant(v) && m < NUM_LEVELS && FlushedFile(v, f, m)
    requires AddedTo(v, m, f, v')
    ensures LsmInvariant(v')
  {
    forall l | 1 <= l < NUM_LEVELS ensures PairwiseApart(v'[l]) {
      FlushKeepsApart(v, m, f, v', l);
    }
    FlushKeepsNumbers(v, m, f, v');
    FlushKeepsAge(v, m, f, v');
  }

  /** A file apart from every member of a connected set of ranges lies to one side of all of them. */
  lemma ConnectedHasSides(files: set<File>, f: File)
    requires Connected(files) && WellFormed(f)
    requires forall g | g in files :: WellFormed(g) && UserApart(f, g)
    ensures Beside(f, files)
  {
    RangeIsNonempty(f);
    forall g, h | g in files && h in files
      ensures f.largest.user < g.smallest.user <==> f.largest.user < h.smallest.user
    {
      RangeIsNonempty(g);
      RangeIsNonempty(h);
      var u := f.smallest.user;
      assert g.largest.user < u <= h.largest.user ==> SomeCovers(files, u);
      assert h.largest.user < u <= g.largest.user ==> SomeCovers(files, u);
    }
    if files != {} {
      var g :| g in files;
      forall h | h in files
        ensures if f.largest.user < g.smallest.user then Less(f.largest, h.smallest) else Less(h.largest, f.smallest)
      {
      }
    }
  }

  lemma FlushKeepsNextLevelApart(v: Version, m: nat, f: File, v': Version, c: Inputs)
    requires AllWellFormed(v) && m < NUM_LEVELS && WellFormed(f)
    requires FlushLevelOk(v, f, m) && AddedTo(v, m, f, v')
    requires c.level + 1 < NUM_LEVELS && Connected(AllInputs(c)) && NextLevelApart(v[c.level + 1], c)
    requires (forall f | f in c.in0 :: f in v[c.level]) && (forall f | f in c.in1 :: f in v[c.level + 1])
    ensures NextLevelApart(v'[c.level + 1], c)
  {
    var l := c.level + 1;
    if l == m {
      assert forall h | h in AllInputs(c) :: h in v[c.level] || h in v[l];
      ConnectedHasSides(AllInputs(c), f);
    }
    forall g | g in v'[l] && g !in c.in1
      ensures Beside(g, AllInputs(c)) && forall h | h in c.in0 :: UserApart(h, g)
    {
      AddedMember(v, m, f, v', l, g);
    }
  }

  lemma FlushKeepsDeeper(v: Version, m: nat, f: File, v': Version, c: Inputs, base: Version)
    requires m < NUM_LEVELS && FlushLevelOk(v, f, m) && AddedTo(v, m, f, v')
    requires c.level + 1 < NUM_LEVELS && DeeperUnaffected(v, c, base)
    requires (forall f | f in c.in0 :: f in v[c.level]) && (forall f | f in c.in1 :: f in v[c.level + 1])
    ensures DeeperUnaffected(v', c, base)
  {
    forall k, g, h | c.level + 2 <= k < NUM_LEVELS && g in v'[k] && h in AllInputs(c)
      ensures g in base[k] || UserApart(h, g)
    {
      AddedMember(v, m, f, v', k, g);
      assert h in v[c.level] || h in v[c.level + 1];
    }
  }

  /** A flush in the middle of a compaction is harmless: the file never lands among the inputs' ranges. */
  lemma FlushKeepsInFlight(v: Version, m: nat, f: File, v': Version, c: Inputs, base: Version)
    requires AllWellFormed(v) && m < NUM_LEVELS && FlushedFile(v, f, m)
    requires AddedTo(v, m, f, v')
    requires InFlight(v, c, base)
    ensures InFlight(v', c, base)
  {
    var l := c.level;
    FlushKeepsNextLevelApart(v, m, f, v', c);
    FlushKeepsDeeper(v, m, f, v', c, base);
    forall h | h in c.in0 ensures h in v'[l] { AddedMember(v, m, f, v', l, h); }
    forall h | h in c.in1 ensures h in v'[l + 1] { AddedMember(v, m, f, v', l + 1, h); }
    forall g, h | g in v'[l] && g !in c.in0 && h in c.in0 ensures NewerThan(g.entries, h.entries) {
      AddedMember(v, m, f, v', l, g);
    }
  }

  // ----- installing a compaction -----

  function NumbersOf(files: seq<File>): (r: set<nat>) {
    set f | f in files :: f.number
  }

  function CompactionEdit(c: Inputs, outs: seq<File>): (r: VersionEdit) {
    VersionEdit(
      (set n | n in NumbersOf(c.in0) :: (c.level, n)) + (set n | n in NumbersOf(c.in1) :: (c.level + 1, n)),
      AtLevel(c.level + 1, outs))
  }

  function AtLevel(level: nat, files: seq<File>): (r: seq<(nat, File)>) {
    seq(|files|, i requires 0 <= i < |files| => (level, files[i]))
  }

  /** The files of level l that the edit leaves alone. */
  ghost predicate Remains(v: Version, c: Inputs, l: nat, f: File)
    requires l < NUM_LEVELS
  {
    f in v[l] && (l == c.level ==> f !in c.in0) && (l == c.level + 1 ==> f !in c.in1)
  }

  /** Output files: well-formed, apart, made of input entries, with numbers no remaining file has. */
  ghost predicate OutputFiles(v: Version, c: Inputs, outs: seq<File>) {
    && (forall o | o in outs :: WellFormed(o))
    && PairwiseApart(outs)
    && (forall o, p | o in outs && p in outs && o.number == p.number :: o == p)
    && (forall o, e | o in outs && e in o.entries :: FromInputs(c, e))
    && NumbersFree(v, c, outs)
  }

  ghost predicate NumbersFree(v: Version, c: Inputs, outs: seq<File>) {
    forall o, l, f {:trigger o in outs, f in v[l]} | o in outs && 0 <= l < NUM_LEVELS && Remains(v, c, l, f) ::
      o.number != f.number
  }

  ghost predicate FromInputs(c: Inputs, e: Entry) {
    exists f :: f in AllInputs(c) && e in f.entries
  }

  ghost predicate Replaced(v: Version, c: Inputs, outs: seq<File>, v': Version) {
    LevelsSorted(v') && forall l, f {:trigger f in v'[l]} | 0 <= l < NUM_LEVELS :: f in v'[l] <==>
      Remains(v, c, l, f) || (l == c.level + 1 && f in outs)
  }

  /** What the edit does to one level. */
  lemma CompactionChange(c: Inputs, outs: seq<File>, l: nat)
    ensures DeletedAt(CompactionEdit(c, outs), l) ==
      if l == c.level then NumbersOf(c.in0) else if l == c.level + 1 then NumbersOf(c.in1) else {}
    ensures AddedAt(CompactionEdit(c, outs).newFiles, l) == if l == c.level + 1 then Files(outs) else {}
  {
    var edit := CompactionEdit(c, outs);
    forall n ensures n in DeletedAt(edit, l) <==> (l, n) in edit.deletedFiles {
      if (l, n) in edit.deletedFiles { assert (l, n).1 in DeletedAt(edit, l); }
    }
    forall o | l == c.level + 1 && o in outs ensures o in AddedAt(edit.newFiles, l) {
      var i :| 0 <= i < |outs| && outs[i] == o;
      assert edit.newFiles[i] == (l, o);
      assert edit.newFiles[i] in edit.newFiles;
    }
  }

  lemma CompactionEditReplaces(v: Version, c: Inputs, outs: seq<File>, v': Version)
    requires LsmInvariant(v) && c.level + 1 < NUM_LEVELS
    requires (forall f | f in c.in0 :: f in v[c.level]) && (forall f | f in c.in1 :: f in v[c.level + 1])
    requires OutputFiles(v, c, outs)
    requires Edited(v, CompactionEdit(c, outs), v')
    requires forall o | o in outs :: o.number !in NumbersOf(c.in1)
    ensures Replaced(v, c, outs, v')
  {
    var edit := CompactionEdit(c, outs);
    forall l, f | 0 <= l < NUM_LEVELS
      ensures f in v'[l] <==> Remains(v, c, l, f) || (l == c.level + 1 && f in outs)
    {
      assert f in v'[l] <==> f in Files(v'[l]);
      CompactionChange(c, outs, l);
      if f in v[l] && f.number in DeletedAt(edit, l) {
        var g :| g in (if l == c.level then c.in0 else c.in1) && g.number == f.number;
        assert g in v[l] && SameNumber(l, f, l, g);
      }
    }
  }

  /** Newer than every input is newer than every output; and so the other way round. */
  lemma OutputAge(v: Version, c: Inputs, outs: seq<File>, o: File, g: File)
    requires o in outs && forall p, e | p in outs && e in p.entries :: FromInputs(c, e)
    ensures (forall h | h in AllInputs(c) :: NewerThan(g.entries, h.entries)) ==> NewerThan(g.entries, o.entries)
    ensures (forall h | h in AllInputs(c) :: NewerThan(h.entries, g.entries)) ==> NewerThan(o.entries, g.entries)
  {
    forall e | e in o.entries ensures FromInputs(c, e) {
    }
  }

  lemma OutputBeside(c: Inputs, o: File, g: File)
    requires forall h | h in AllInputs(c) :: WellFormed(h)
    requires WellFormed(o) && WellFormed(g) && Beside(g, AllInputs(c))
    requires forall e | e in o.entries :: FromInputs(c, e)
    ensures Apart(g, o)
  {
    var first, last := o.entries[0], o.entries[|o.entries| - 1];
    assert FromInputs(c, first) && FromInputs(c, last);
    var h :| h in AllInputs(c) && first in h.entries;
    var k :| k in AllInputs(c) && last in k.entries;
    EntryInRange(h, first);
    EntryInRange(k, last);
  }

  lemma RemainsNewer(v: Version, c: Inputs, base: Version, l: nat, g: File, h: File)
    requires LsmInvariant(v) && InFlight(v, c, base)
    requires l < NUM_LEVELS && Remains(v, c, l, g) && h in AllInputs(c)
    ensures l <= c.level ==> NewerThan(g.entries, h.entries)
    ensures l >= c.level + 2 ==> NewerThan(h.entries, g.entries)
  {
    if h in c.in0 {
      assert l < c.level ==> Above(l, g, c.level, h);
      assert l > c.level ==> Above(c.level, h, l, g);
    } else {
      assert h in c.in1;
      assert l <= c.level ==> Above(l, g, c.level + 1, h);
      assert l > c.level + 1 ==> Above(c.level + 1, h, l, g);
    }
  }

  lemma InstallKeepsApart(v: Version, c: Inputs, outs: seq<File>, v': Version, l: nat)
    requires AllWellFormed(v) && 1 <= l < NUM_LEVELS && PairwiseApart(v[l])
    requires c.level + 1 < NUM_LEVELS && NextLevelApart(v[c.level + 1], c)
    requires (forall f | f in c.in0 :: f in v[c.level]) && (forall f | f in c.in1 :: f in v[c.level + 1])
    requires OutputFiles(v, c, outs) && Replaced(v, c, outs, v')
    ensures PairwiseApart(v'[l])
  {
    assert forall h | h in AllInputs(c) :: h in v[c.level] || h in v[c.level + 1];
    forall g, h | g in v'[l] && h in v'[l] && g != h ensures Apart(g, h) {
      if Remains(v, c, l, g) && !Remains(v, c, l, h) { OutputBeside(c, h, g); }
      if Remains(v, c, l, h) && !Remains(v, c, l, g) { OutputBeside(c, g, h); }
    }
  }

  lemma InstallKeepsNumbers(v: Version, c: Inputs, outs: seq<File>, v': Version)
    requires AllWellFormed(v) && DistinctNumbers(v) && OutputFiles(v, c, outs)
    requires Replaced(v, c, outs, v')
    ensures AllWellFormed(v') && DistinctNumbers(v')
  {
    forall l, k, g, h | 0 <= l < NUM_LEVELS && 0 <= k < NUM_LEVELS && g in v'[l] && h in v'[k] && g.number == h.number
      ensures l == k && g == h
    {
      assert SameNumber(l, g, k, h);
      assert Remains(v, c, l, g) ==> g in v[l];
      assert Remains(v, c, k, h) ==> h in v[k];
    }
  }

  lemma InstallKeepsInvariant(v: Version, c: Inputs, base: Version, outs: seq<File>, v': Version)
    requires LsmInvariant(v) && InFlight(v, c, base) && OutputFiles(v, c, outs)
    requires Replaced(v, c, outs, v')
    ensures LsmInvariant(v')
  {
    forall l | 1 <= l < NUM_LEVELS ensures PairwiseApart(v'[l]) {
      InstallKeepsApart(v, c, outs, v', l);
    }
    InstallKeepsNumbers(v, c, outs, v');
    InstallKeepsAge(v, c, base, outs, v');
  }

  lemma InstallKeepsAge(v: Version, c: Inputs, base: Version, outs: seq<File>, v': Version)
    requires LsmInvariant(v) && InFlight(v, c, base) && OutputFiles(v, c, outs)
    requires Replaced(v, c, outs, v')
    ensures AgeOrdered(v')
  {
    forall l, k, g, h | 0 <= l < NUM_LEVELS && 0 <= k < NUM_LEVELS && g in v'[l] && h in v'[k] && Above(l, g, k, h)
      ensures NewerThan(g.entries, h.entries)
    {
      if Remains(v, c, l, g) {
        if !Remains(v, c, k, h) {
          forall i | i in AllInputs(c) ensures NewerThan(g.entries, i.entries) { RemainsNewer(v, c, base, l, g, i); }
          OutputAge(v, c, outs, h, g);
        }
      } else {
        forall i | i in AllInputs(c) ensures NewerThan(i.entries, h.entries) { RemainsNewer(v, c, base, k, h, i); }
        OutputAge(v, c, outs, g, h);
      }
    }
  }
}
