/**
 A run of the whole database in which a deleted key comes back.  Every flush goes to the level that
 PickLevelForMemTableOutput gives, and no compaction in it could have been a trivial move instead.
 */
module ResurrectingRun {
  import opened InternalKeys
  import opened Versions
  import opened CompactionInputs
  import opened CompactionWork
  import opened VersionBuilder
  import opened LsmSteps
  import opened CompactionReads
  import opened Database
  import opened DatabaseInvariant
  import opened LimitsOfCompaction

  // ----- runs -----

  ghost predicate Reaches(run: seq<State>, st: State) {
    IsRun(run) && Init(run[0]) && run[|run| - 1] == st
  }

  lemma Extend(run: seq<State>, st: State, st': State)
    requires Reaches(run, st) && Next(st, st')
    ensures Reaches(run + [st'], st')
  {
    hide Next;
    var all := run + [st'];
    forall i | 0 < i < |all| ensures Next(all[i - 1], all[i]) {
      if i < |run| { assert all[i - 1] == run[i - 1] && all[i] == run[i]; }
    }
  }

  lemma WriteOne(run: seq<State>, st: State, e: Entry) returns (run': seq<State>, st': State)
    requires Reaches(run, st) && |st.history| + 1 < MAX_SEQUENCE && e.key.sequence == |st.history| + 1
    requires Sorted(st.mem) && forall x | x in st.mem :: x.key.sequence <= |st.history|
    ensures st' == st.(history := st.history + [e], mem := InsertSorted(st.mem, e)) && Reaches(run', st')
  {
    st' := st.(history := st.history + [e], mem := InsertSorted(st.mem, e));
    assert e == NewEntry(st, e.key.user, e.key.kind, e.value);
    assert InsertStep(st, st');
    Extend(run, st, st');
    run' := run + [st'];
  }

  /** The writes become visible, and a flush brings them to level 2 as table f. */
  lemma FlushAll(run: seq<State>, st: State, f: File, l3: seq<File>) returns (run': seq<State>, st': State)
    requires Reaches(run, st) && st.imm.None? && st.version == At([], l3)
    requires SortedFiles(l3)
    requires WellFormed(f) && f.entries == st.mem && f.number == st.nextFile
    ensures Reaches(run', st')
    ensures st' == st.(mem := [], memStart := |st.history|, immStart := |st.history|, lastSequence := |st.history|,
      version := At([f], l3), nextFile := st.nextFile + 1, disk := st.disk + {f.number})
  {
    hide Reaches;
    var st1 := st.(lastSequence := |st.history|);
    assert PublishStep(st, st1);
    Extend(run, st, st1);
    var st2 := st1.(imm := Some(st.mem), mem := [], memStart := |st.history|);
    assert SwitchStep(st1, st2);
    Extend(run + [st1], st1, st2);
    st' := st2.(imm := None, immStart := st2.memStart, version := At([f], l3), nextFile := st.nextFile + 1,
      disk := st.disk + {f.number});
    FlushedToLevel2(st2, st', f, l3);
    Extend(run + [st1] + [st2], st2, st');
    run' := run + [st1] + [st2] + [st'];
  }

  lemma FlushedToLevel2(st: State, st': State, f: File, l3: seq<File>)
    requires st.version == At([], l3) && SortedFiles(l3)
    requires WellFormed(f) && st.imm == Some(f.entries) && f.number == st.nextFile
    requires st' == st.(imm := None, immStart := st.memStart, version := At([f], l3), nextFile := st.nextFile + 1,
      disk := st.disk + {f.number})
    ensures FlushStep(st, st')
  {
    AtHas([], l3);
    assert Files([f]) == {} + {f};
    assert FlushedTo(st, st', 2, f);
  }

  // ----- versions with files in levels 2 and 3 only -----

  function At(l2: seq<File>, l3: seq<File>): (r: Version) {
    [[], [], l2, l3, [], [], []]
  }

  lemma AtHas(l2: seq<File>, l3: seq<File>)
    ensures forall l, f {:trigger f in At(l2, l3)[l]} | 0 <= l < NUM_LEVELS ::
      f in At(l2, l3)[l] <==> (l == 2 && f in l2) || (l == 3 && f in l3)
  {
  }

  /** With nothing above level 3 and no great weight in it, a flush goes to level 2. */
  method LevelOfFlush(l3: seq<File>, lo: UserKey, hi: UserKey, maxFileSize: nat) returns (level: nat)
    requires Tidy(At([], l3)) && SortedFiles(l3) && lo <= hi
    requires TotalFileSize(Overlapping(l3, Some(lo), Some(hi))) <= 10 * maxFileSize
    ensures level == 2
  {
    AtHas([], l3);
    level := PickLevelForMemTableOutput(At([], l3), lo, hi, maxFileSize);
    assert At([], l3)[level] == [] || level == 3;
    assert Overlapping([], Some(lo), Some(hi)) == [];
  }

  function Over(f: File, in1: seq<File>): (r: Inputs) {
    Inputs(2, [f], in1, [])
  }

  lemma OnlyFileIsPicked(f: File, l3: seq<File>)
    requires WellFormed(f)
    ensures Picked(At([f], l3), Over(f, Overlapping(l3, Some(f.smallest.user), Some(f.largest.user))))
  {
    var in0, in1 := [f], Overlapping(l3, Some(f.smallest.user), Some(f.largest.user));
    RangeIsNonempty(f);
    assert f in in0 && IsRange(in0, f.smallest, f.largest);
    assert forall m | IsLargest(in0, m) :: m == f;
    assert Contiguous(2, in0, in0) && BoundaryClosed(in0, in0);
    assert NextLevelMatches(At([f], l3), 2, in0, in1);
    var all := Files(in0 + in1);
    forall u | f.smallest.user <= u <= f.largest.user ensures SomeCovers(all, u) {
      assert f in all && Covers(f, u);
    }
    StarIsConnected(all, f.smallest.user, f.largest.user);
  }

  /** Replacing the only file of level 2 and some files of level 3 by the outputs. */
  lemma EditedBy(f: File, in1: seq<File>, outs: seq<File>, l3: seq<File>, l3': seq<File>)
    requires SortedFiles(l3') && NumbersOf(in1) !! NumbersOf(outs)
    requires Files(l3') == (set g | g in Files(l3) && g.number !in NumbersOf(in1)) + Files(outs)
    ensures Edited(At([f], l3), CompactionEdit(Over(f, in1), outs), At([], l3'))
  {
    var v, v', c := At([f], l3), At([], l3'), Over(f, in1);
    var edit := CompactionEdit(c, outs);
    assert Numbers(Files(outs)) == NumbersOf(outs);
    forall l | 0 <= l < NUM_LEVELS ensures Files(v'[l]) == Install(Files(v[l]), ChangeAt(edit, l)) {
      CompactionChange(c, outs, l);
      LevelEdited(v[l], NumbersOf(if l == 2 then [f] else if l == 3 then in1 else []), if l == 3 then outs else []);
      if l == 2 { assert Files([f]) == {f} && f.number in NumbersOf([f]); }
    }
  }

  lemma LevelEdited(level: seq<File>, deleted: set<nat>, added: seq<File>)
    requires deleted !! NumbersOf(added)
    ensures Install(Files(level), Change(deleted, Files(added))) ==
      (set g | g in Files(level) && g.number !in deleted) + Files(added)
  {
    assert Numbers(Files(added)) == NumbersOf(added);
    forall g | g in Files(added) ensures g.number in NumbersOf(added) {
    }
  }

  /** Picks the compaction of the only file of level 2. */
  lemma PickOnly(run: seq<State>, st: State, f: File, l3: seq<File>) returns (run': seq<State>, st': State)
    requires Reaches(run, st) && st.running.None? && st.version == At([f], l3)
    requires WellFormed(f)
    requires SmallestSnapshot(st) <= MAX_SEQUENCE
    ensures var c := Over(f, Overlapping(l3, Some(f.smallest.user), Some(f.largest.user)));
      st' == st.(running := Some(Running(c, SmallestSnapshot(st), st.version)),
      holders := st.holders[RunningCompaction := st.version])
    ensures Reaches(run', st')
  {
    OnlyFileIsPicked(f, l3);
    var c := Over(f, Overlapping(l3, Some(f.smallest.user), Some(f.largest.user)));
    st' := st.(running := Some(Running(c, SmallestSnapshot(st), st.version)),
      holders := st.holders[RunningCompaction := st.version]);
    assert PickedTo(st, st', c);
    Extend(run, st, st');
    run' := run + [st'];
  }

  lemma OpenOne(run: seq<State>, st: State) returns (run': seq<State>, st': State)
    requires Reaches(run, st) && st.running.Some?
    ensures Reaches(run', st') && st' == st.(nextFile := st.nextFile + 1,
      pendingOutputs := st.pendingOutputs + {st.nextFile}, disk := st.disk + {st.nextFile})
  {
    st' := st.(nextFile := st.nextFile + 1, pendingOutputs := st.pendingOutputs + {st.nextFile},
      disk := st.disk + {st.nextFile});
    Extend(run, st, st');
    run' := run + [st'];
  }

  /** Installs the outputs. */
  lemma InstallOnly(run: seq<State>, st: State, f: File, in1: seq<File>, input: seq<Entry>, outs: seq<File>,
      l3: seq<File>, l3': seq<File>) returns (run': seq<State>, st': State)
    requires Reaches(run, st) && st.running.Some? && st.running.value.c == Over(f, in1)
    requires st.version == At([f], l3)
    requires Produced(st, st.running.value, input, outs)
    requires SortedFiles(l3') && NumbersOf(in1) !! NumbersOf(outs)
    requires Files(l3') == (set g | g in Files(l3) && g.number !in NumbersOf(in1)) + Files(outs)
    ensures var r := st.running.value;
      st' == st.(version := At([], l3'), running := None, pendingOutputs := {},
                 holders := st.holders - {RunningCompaction},
                 horizon := if st.horizon < r.smallestSnapshot then r.smallestSnapshot else st.horizon)
    ensures Reaches(run', st') && InstallStep(st, st') && run' == run + [st']
  {
    hide Produced;
    EditedBy(f, in1, outs, l3, l3');
    var r := st.running.value;
    st' := st.(version := At([], l3'), running := None, pendingOutputs := {},
               holders := st.holders - {RunningCompaction},
               horizon := if st.horizon < r.smallestSnapshot then r.smallestSnapshot else st.horizon);
    assert InstalledWith(st, st', input, outs);
    assert InstallStep(st, st');
    Extend(run, st, st');
    run' := run + [st'];
  }

  /** A trivial move to an empty level 3. */
  lemma MoveOnly(run: seq<State>, st: State, f: File) returns (run': seq<State>, st': State)
    requires Reaches(run, st) && st.running.None? && st.version == At([f], [])
    requires WellFormed(f)
    ensures Reaches(run', st') && st' == st.(version := At([], [f]))
  {
    OnlyFileIsPicked(f, []);
    assert NumbersOf([]) == {} && Files([f]) == {} + {f};
    EditedBy(f, [], [f], [], [f]);
    st' := st.(version := At([], [f]));
    assert MovedBy(st, st', Over(f, []));
    assert TrivialMoveStep(st, st');
    Extend(run, st, st');
    run' := run + [st'];
  }

  // ----- the run -----

  const P1 := Entry(Key(1.0, 1, Value), [1])
  const P2 := Entry(Key(2.0, 2, Value), [2])
  const D2 := Entry(Key(2.0, 3, Deletion), [])
  const Q1 := Entry(Key(1.0, 4, Value), [4])
  const R1 := Entry(Key(1.0, 5, Value), [5])

  const FIRST := Table(2, [P1])
  const SECOND := Table(3, [Q1, D2, P2])
  const OUT1 := Table(4, [Q1, P1, D2])
  const OUT2 := Table(5, [P2])
  const THIRD := Table(6, [R1])
  const LAST := Table(7, [R1])

  const EMPTY := State([], [], None, 0, 0, At([], []), 0, [], None, 0, 2, {}, map[], {})

  /** One key is written and ends up in level 3. */
  lemma Phase1() returns (run: seq<State>, st: State)
    ensures Reaches(run, st)
    ensures st == EMPTY.(history := [P1], memStart := 1, immStart := 1, lastSequence := 1, version := At([], [FIRST]),
      nextFile := 3, disk := {2})
  {
    run, st := [EMPTY], EMPTY;
    run, st := WriteOne(run, st, P1);
    run, st := FlushAll(run, st, FIRST, []);
    run, st := MoveOnly(run, st, FIRST);
    assert {} + {2} == {2};
  }

  lemma TakeSnapshot(run: seq<State>, st: State) returns (run': seq<State>, st': State)
    requires Reaches(run, st)
    ensures Reaches(run', st')
    ensures st' == st.(lastSequence := |st.history|, snapshots := st.snapshots + [|st.history|])
  {
    var seen := st.(lastSequence := |st.history|);
    assert PublishStep(st, seen);
    Extend(run, st, seen);
    st' := seen.(snapshots := seen.snapshots + [seen.lastSequence]);
    assert SnapshotStep(seen, st');
    Extend(run + [seen], seen, st');
    run' := run + [seen] + [st'];
  }

  /** A second key is written and a snapshot taken. */
  lemma Phase2() returns (run: seq<State>, st: State)
    ensures Reaches(run, st)
    ensures st == EMPTY.(history := [P1, P2], mem := [P2], memStart := 1, immStart := 1, lastSequence := 2,
      version := At([], [FIRST]), snapshots := [2], nextFile := 3, disk := {2})
  {
    hide Reaches;
    run, st := Phase1();
    run, st := WriteOne(run, st, P2);
    run, st := TakeSnapshot(run, st);
  }

  /** The second key is deleted and the first written again. */
  lemma Phase3() returns (run: seq<State>, st: State)
    ensures Reaches(run, st)
    ensures st == EMPTY.(history := [P1, P2, D2, Q1], mem := [Q1, D2, P2], memStart := 1, immStart := 1,
      lastSequence := 2, version := At([], [FIRST]), snapshots := [2], nextFile := 3, disk := {2})
  {
    hide Reaches;
    run, st := Phase2();
    run, st := WriteOne(run, st, D2);
    assert st.mem == [D2, P2];
    run, st := WriteOne(run, st, Q1);
    assert st.mem == [Q1, D2, P2];
  }

  /** All of that is flushed to level 2 and a compaction of it starts, with the snapshot still held. */
  lemma Phase4() returns (run: seq<State>, st: State)
    ensures Reaches(run, st)
    ensures st == EMPTY.(history := [P1, P2, D2, Q1], memStart := 4, immStart := 4, lastSequence := 4,
      version := At([SECOND], [FIRST]), snapshots := [2], nextFile := 6, disk := {2, 3, 4, 5},
      running := Some(Running(Over(SECOND, [FIRST]), 2, At([SECOND], [FIRST]))), pendingOutputs := {4, 5},
      holders := map[RunningCompaction := At([SECOND], [FIRST])])
  {
    hide Reaches;
    run, st := Phase3();
    assert SortedFiles([FIRST]);
    run, st := FlushAll(run, st, SECOND, [FIRST]);
    assert [FIRST][..0] == [] && Overlapping([FIRST], Some(1.0), Some(2.0)) == [FIRST];
    run, st := PickOnly(run, st, SECOND, [FIRST]);
    run, st := OpenOne(run, st);
    run, st := OpenOne(run, st);
    assert {2} + {3} + {4} + {5} == {2, 3, 4, 5} && {} + {4} + {5} == {4, 5};
  }

  const MERGED := [Q1, P1, D2, P2]

  lemma InputsMerged(e: Entry)
    ensures e in MERGED <==> FromInputs(Over(SECOND, [FIRST]), e)
  {
    var c := Over(SECOND, [FIRST]);
    assert c.in0 + c.in1 == [SECOND, FIRST];
    assert SECOND in AllInputs(c) && FIRST in AllInputs(c);
    assert forall f | f in AllInputs(c) :: f == SECOND || f == FIRST;
  }

  lemma NothingDropped(e: Entry)
    requires e in MERGED
    ensures !Dropped(e, MERGED, 2, At([SECOND], [FIRST]), 2)
  {
    assert forall x | x in MERGED :: x == Q1 || x == P1 || x == D2 || x == P2;
  }

  /** The snapshot at 2 keeps every entry, and the output is cut between the deletion and the deleted value. */
  lemma AllAreKept(st: State)
    requires st.pendingOutputs == {4, 5}
    ensures Produced(st, Running(Over(SECOND, [FIRST]), 2, At([SECOND], [FIRST])), MERGED, [OUT1, OUT2])
  {
    hide Dropped;
    hide FromInputs;
    var outs := [OUT1, OUT2];
    assert OUT1 in outs && OUT2 in outs;
    forall e ensures e in MERGED <==> FromInputs(Over(SECOND, [FIRST]), e) { InputsMerged(e); }
    forall e | e in MERGED ensures !Dropped(e, MERGED, 2, At([SECOND], [FIRST]), 2) { NothingDropped(e); }
    forall e | e in MERGED ensures exists o :: o in outs && e in o.entries {
      assert e in OUT1.entries || e in OUT2.entries;
    }
    assert Less(OUT1.largest, OUT2.smallest);
  }

  /** The outputs are installed. */
  lemma Phase5() returns (run: seq<State>, st: State)
    ensures Reaches(run, st)
    ensures st == EMPTY.(history := [P1, P2, D2, Q1], memStart := 4, immStart := 4, lastSequence := 4,
      version := At([], [OUT1, OUT2]), snapshots := [2], horizon := 2, nextFile := 6, disk := {2, 3, 4, 5})
  {
    hide Reaches;
    hide Produced;
    run, st := Phase4();
    AllAreKept(st);
    var outs, l3 := [OUT1, OUT2], [FIRST];
    assert FIRST in l3 && OUT1 in outs && OUT2 in outs;
    assert NumbersOf(l3) == {2} && NumbersOf(outs) == {4, 5};
    assert (set g | g in Files(l3) && g.number !in NumbersOf(l3)) == {};
    assert {} + Files(outs) == Files(outs) && Less(OUT1.smallest, OUT2.smallest);
    run, st := InstallOnly(run, st, SECOND, l3, MERGED, outs, l3, outs);
    assert st.holders == map[];
  }

  /** The snapshot is released; the first key is written once more and flushed to level 2. */
  lemma Phase6() returns (run: seq<State>, st: State)
    ensures Reaches(run, st)
    ensures st == EMPTY.(history := [P1, P2, D2, Q1, R1], memStart := 5, immStart := 5, lastSequence := 5,
      version := At([THIRD], [OUT1, OUT2]), horizon := 2, nextFile := 7, disk := {2, 3, 4, 5, 6})
  {
    hide Reaches;
    run, st := Phase5();
    run, st := Release(run, st);
    run, st := WriteOne(run, st, R1);
    assert st.mem == [R1];
    assert SortedFiles([OUT1, OUT2]) by { assert Less(OUT1.smallest, OUT2.smallest); }
    run, st := FlushAll(run, st, THIRD, [OUT1, OUT2]);
    assert {2, 3, 4, 5} + {6} == {2, 3, 4, 5, 6};
  }

  lemma Release(run: seq<State>, st: State) returns (run': seq<State>, st': State)
    requires Reaches(run, st) && |st.snapshots| == 1
    ensures Reaches(run', st') && st' == st.(snapshots := [])
  {
    st' := st.(snapshots := []);
    assert st.snapshots[..0] + st.snapshots[1..] == [];
    assert ReleaseStep(st, st');
    Extend(run, st, st');
    run' := run + [st'];
  }

  /** A second compaction starts.  Of the two files of level 3 it takes only the one that the new file meets. */
  lemma Phase7() returns (run: seq<State>, st: State)
    ensures Reaches(run, st)
    ensures st == EMPTY.(history := [P1, P2, D2, Q1, R1], memStart := 5, immStart := 5, lastSequence := 5,
      version := At([THIRD], [OUT1, OUT2]), horizon := 2, nextFile := 8, disk := {2, 3, 4, 5, 6, 7},
      running := Some(Running(Over(THIRD, [OUT1]), 5, At([THIRD], [OUT1, OUT2]))), pendingOutputs := {7},
      holders := map[RunningCompaction := At([THIRD], [OUT1, OUT2])])
  {
    hide Reaches;
    run, st := Phase6();
    var l3 := [OUT1, OUT2];
    assert l3[..1] == [OUT1] && l3[..1][..0] == [];
    assert Overlapping(l3[..1], Some(1.0), Some(1.0)) == [OUT1];
    assert Overlapping(l3, Some(1.0), Some(1.0)) == [OUT1];
    run, st := PickOnly(run, st, THIRD, l3);
    run, st := OpenOne(run, st);
    assert {2, 3, 4, 5, 6} + {7} == {2, 3, 4, 5, 6, 7} && {} + {7} == {7};
  }

  const REMERGED := [R1, Q1, P1, D2]

  lemma InputsRemerged(e: Entry)
    ensures e in REMERGED <==> FromInputs(Over(THIRD, [OUT1]), e)
  {
    var c := Over(THIRD, [OUT1]);
    assert c.in0 + c.in1 == [THIRD, OUT1];
    assert THIRD in AllInputs(c) && OUT1 in AllInputs(c);
    assert forall f | f in AllInputs(c) :: f == THIRD || f == OUT1;
  }

  lemma NothingBelow()
    ensures IsBaseLevel(At([THIRD], [OUT1, OUT2]), 2, 2.0)
  {
    AtHas([THIRD], [OUT1, OUT2]);
  }

  /** Without the snapshot only the newest value of the first key stays; the deletion is dropped. */
  lemma OneIsKept(st: State)
    requires st.pendingOutputs == {7}
    ensures Produced(st, Running(Over(THIRD, [OUT1]), 5, At([THIRD], [OUT1, OUT2])), REMERGED, [LAST])
  {
    hide Dropped;
    hide FromInputs;
    var base, outs := At([THIRD], [OUT1, OUT2]), [LAST];
    assert LAST in outs;
    forall e ensures e in REMERGED <==> FromInputs(Over(THIRD, [OUT1]), e) { InputsRemerged(e); }
    forall e | e in REMERGED ensures Dropped(e, REMERGED, 5, base, 2) <==> e != R1 { OthersDropped(e); }
  }

  lemma OthersDropped(e: Entry)
    requires e in REMERGED
    ensures Dropped(e, REMERGED, 5, At([THIRD], [OUT1, OUT2]), 2) <==> e != R1
  {
    hide IsBaseLevel;
    NothingBelow();
    assert forall x | x in REMERGED :: x == R1 || x == Q1 || x == P1 || x == D2;
    assert R1 in REMERGED;
  }

  /** The guard that fails. */
  lemma GuardFails(st: State)
    requires st.history == [P1, P2, D2, Q1, R1] && st.mem == [] && st.imm.None?
    requires st.version == At([THIRD], [OUT1, OUT2])
    ensures Resurrects(st.history, Upper(st), st.version, Over(THIRD, [OUT1]), 5, st.version, 5)
  {
    hide IsBaseLevel;
    var v, c := st.version, Over(THIRD, [OUT1]);
    var l3 := [OUT1, OUT2];
    assert OUT1 in v[3] && OUT2 in v[3] && v[3] == l3;
    StoredIn(v, 3, OUT1, D2);
    assert LastHeld(st.history, Held(Upper(st), v), 2.0, 5) == 3 by {
      LastHeldIs(st.history, Held(Upper(st), v), 2.0, 5, 3);
    }
    NothingBelow();
    assert FirstContinuation(l3, c.in1, OUT1, OUT2);
    assert ResurrectsAt(st.history, Upper(st), v, c, 5, v, 5, OUT1, OUT2, D2);
  }

  /**
   A run from the empty database that ends in a resurrecting install: the key 2.0, deleted by the third write, reads as
   its old value again.  So the hypothesis of `EveryRunReadsAgree` cannot be dropped.
   */
  lemma DeletedKeyComesBackInARun() returns (run: seq<State>)
    ensures IsRun(run) && Init(run[0]) && |run| >= 2 && ResurrectingInstall(run[|run| - 2], run[|run| - 1])
    ensures var st := run[|run| - 1];
      && st.lastSequence == 5 == |st.history| && st.horizon <= 5 && SpecGet(st.history, 2.0, 5) == None
      && View(st.history, All(st), 2.0, 5) == Some([2])
  {
    hide Reaches;
    hide Produced;
    var before, st;
    before, st := Phase7();
    OneIsKept(st);
    Replacing();
    var after;
    run, after := InstallOnly(before, st, THIRD, [OUT1], REMERGED, [LAST], [OUT1, OUT2], [LAST, OUT2]);
    LastTwo(before, st, run, after);
    GuardFails(st);
    BackAgain(after);
  }

  lemma LastTwo(before: seq<State>, st: State, run: seq<State>, after: State)
    requires Reaches(before, st) && Reaches(run, after) && run == before + [after]
    ensures IsRun(run) && Init(run[0]) && |run| >= 2 && run[|run| - 2] == st
    ensures run[|run| - 1] == after
  {
    hide Next;
  }

  lemma Replacing()
    ensures SortedFiles([LAST, OUT2]) && NumbersOf([OUT1]) !! NumbersOf([LAST])
    ensures Files([LAST, OUT2]) == (set g | g in Files([OUT1, OUT2]) && g.number !in NumbersOf([OUT1])) + Files([LAST])
  {
    assert OUT1 in [OUT1] && LAST in [LAST] && Less(LAST.smallest, OUT2.smallest);
    assert NumbersOf([OUT1]) == {4} && NumbersOf([LAST]) == {7};
    assert (set g | g in Files([OUT1, OUT2]) && g.number !in {4}) == {OUT2};
  }

  lemma BackAgain(st: State)
    requires st.history == [P1, P2, D2, Q1, R1] && st.mem == [] && st.imm.None?
    requires st.version == At([], [LAST, OUT2])
    ensures SpecGet(st.history, 2.0, 5) == None && View(st.history, All(st), 2.0, 5) == Some([2])
  {
    var v, h := st.version, st.history;
    AtHas([], [LAST, OUT2]);
    assert OUT2 in v[3];
    StoredIn(v, 3, OUT2, P2);
    assert forall e | e in All(st) :: e == R1 || e == P2;
    LastHeldIs(h, All(st), 2.0, 5, 2);
    assert LastWrite(h, 2.0, 3) == 3;
    assert LastWrite(h, 2.0, 4) == 3;
  }
}
