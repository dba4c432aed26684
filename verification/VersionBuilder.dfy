/**
 Applying version edits (version_set.cc: VersionSet::Builder) and what recovery from a MANIFEST relies on:
 folding all the edits into one builder gives the version that installing them one by one gave.
 */
module VersionBuilder {
  import opened InternalKeys
  import opened Versions
  import opened CompactionInputs

  datatype VersionEdit = VersionEdit(deletedFiles: set<(nat, nat)>, newFiles: seq<(nat, File)>)

  function DeletedAt(edit: VersionEdit, l: nat): (r: set<nat>) {
    set d | d in edit.deletedFiles && d.0 == l :: d.1
  }

  function AddedAt(newFiles: seq<(nat, File)>, l: nat): (r: set<File>) {
    set a | a in newFiles && a.0 == l :: a.1
  }

  function Numbers(files: set<File>): (r: set<nat>) {
    set f | f in files :: f.number
  }

  /** A file number names one file. */
  ghost predicate NumbersNameFiles(files: set<File>) {
    forall f, g | f in files && g in files && f.number == g.number :: f == g
  }

  predicate LevelsInRange(edit: VersionEdit) {
    (forall d | d in edit.deletedFiles :: d.0 < NUM_LEVELS) && (forall a | a in edit.newFiles :: a.0 < NUM_LEVELS)
  }

  /** The files of one level after deletions and additions. */
  ghost function Surviving(base: set<File>, added: set<File>, deleted: set<nat>): (r: set<File>) {
    set f | f in base + added && f.number !in deleted
  }

  lemma BySmallestIsTotal(f: File, g: File)
    requires f.number != g.number
    ensures BySmallest(f, g) || BySmallest(g, f)
  {
    LessIsTotal(f.smallest, g.smallest, g.smallest);
  }

  lemma LastIsNew(a: seq<File>)
    requires SortedFiles(a) && a != []
    ensures Files(a[..|a| - 1]) == Files(a) - {a[|a| - 1]}
  {
    var m := |a| - 1;
    assert a == a[..m] + [a[m]];
    forall f | f in a[..m] ensures f != a[m] {
      assert BySmallest(f, a[m]);
      LessIsTotal(f.smallest, f.smallest, f.smallest);
    }
  }

  /** A level is determined by its set of files. */
  lemma {:induction false} SortedIsUnique(a: seq<File>, b: seq<File>)
    requires SortedFiles(a) && SortedFiles(b) && Files(a) == Files(b)
    ensures a == b
  {
    assert b != [] ==> b[0] in Files(b);
    if a == [] {
      assert Files(a) == {};
    } else {
      var m, n := |a| - 1, |b| - 1;
      assert a[m] in Files(b) && (b != [] ==> b[n] in Files(a));
      var i :| 0 <= i < |b| && b[i] == a[m];
      var j :| 0 <= j < |a| && a[j] == b[n];
      assert a[m] == b[n] by {
        if i < n && j < m {
          assert BySmallest(b[i], b[n]) && BySmallest(a[j], a[m]);
          LessIsTotal(a[m].smallest, b[n].smallest, a[m].smallest);
          assert false;
        }
      }
      LastIsNew(a);
      LastIsNew(b);
      assert Files(a[..m]) == Files(a) - {a[m]} && Files(b[..n]) == Files(b) - {b[n]};
      SortedIsUnique(a[..m], b[..n]);
    }
  }

  lemma FrontFits(files: seq<File>, f: File)
    requires SortedFiles(files) && files != [] && BySmallest(f, files[0])
    ensures SortedFiles([f] + files)
  {
    assert forall j | 0 < j < |files| :: BySmallest(files[0], files[j]);
  }

  lemma RestFits(files: seq<File>, f: File, rest: seq<File>)
    requires SortedFiles(files) && files != [] && BySmallest(files[0], f)
    requires SortedFiles(rest) && Files(rest) == Files(files[1..]) + {f}
    ensures SortedFiles([files[0]] + rest) && Files([files[0]] + rest) == Files(files) + {f}
  {
    hide BySmallest;
    assert Files(files) == {files[0]} + Files(files[1..]);
    forall g | g in rest ensures BySmallest(files[0], g) {
      assert g in Files(rest);
      if g != f {
        var k :| 0 <= k < |files[1..]| && files[1..][k] == g;
        assert BySmallest(files[0], files[k + 1]);
      }
    }
    var r := [files[0]] + rest;
    assert Files(r) == {files[0]} + Files(rest);
    assert Files(r) == Files(files) + {f};
    assert forall i, j | 0 <= i < j < |r| :: BySmallest(r[i], r[j]) by {
      forall i, j | 0 <= i < j < |r| ensures BySmallest(r[i], r[j]) {
        if i > 0 { assert BySmallest(rest[i - 1], rest[j - 1]); }
      }
    }
  }

  /** std::set insertion: keeps the order, ignores a file that is already there. */
  function Insert(files: seq<File>, f: File): (r: seq<File>)
    requires SortedFiles(files) && NumbersNameFiles(Files(files) + {f})
    ensures SortedFiles(r) && Files(r) == Files(files) + {f}
  {
    if files == [] then [f]
    else
      SubsetNames(Files(files[1..]) + {f}, Files(files) + {f});
      assert files[0] in Files(files);
      if files[0] == f then files
      else if BySmallest(f, files[0]) then
        FrontFits(files, f);
        [f] + files
      else
        BySmallestIsTotal(f, files[0]);
        var rest := Insert(files[1..], f);
        RestFits(files, f, rest);
        [files[0]] + rest
  }

  /** The state of one level once `newFiles` has been added to it. */
  ghost predicate Applied(newFiles: seq<(nat, File)>, l: nat, deleted0: set<nat>, added0: set<File>, deleted: set<nat>,
      added: set<File>)
  {
    deleted == deleted0 - Numbers(AddedAt(newFiles, l)) && added == added0 + AddedAt(newFiles, l)
  }

  lemma SubsetNames(a: set<File>, b: set<File>)
    requires a <= b && NumbersNameFiles(b)
    ensures NumbersNameFiles(a)
  {
  }

  class Builder {
    const base: Version
    var deletedFiles: seq<set<nat>>
    var addedFiles: seq<seq<File>>

    ghost predicate Valid()
      reads this
    {
      && |deletedFiles| == NUM_LEVELS && |addedFiles| == NUM_LEVELS
      && (forall l | 0 <= l < NUM_LEVELS :: SortedFiles(addedFiles[l]))
      && (forall l | 0 <= l < NUM_LEVELS :: SortedFiles(base[l]))
    }

    constructor (base: Version)
      requires forall l | 0 <= l < NUM_LEVELS :: SortedFiles(base[l])
      ensures Valid() && this.base == base
      ensures forall l | 0 <= l < NUM_LEVELS :: deletedFiles[l] == {} && addedFiles[l] == []
    {
      this.base := base;
      deletedFiles := seq(NUM_LEVELS, _ => {});
      addedFiles := seq(NUM_LEVELS, _ => []);
    }

    /** Deletions first, then additions; adding a file takes its number off the deleted ones. */
    method Apply(edit: VersionEdit)
      requires Valid() && LevelsInRange(edit)
      requires forall l | 0 <= l < NUM_LEVELS :: NumbersNameFiles(Files(addedFiles[l]) + AddedAt(edit.newFiles, l))
      modifies this
      ensures Valid()
      ensures forall l | 0 <= l < NUM_LEVELS ::
        deletedFiles[l] == old(deletedFiles)[l] + DeletedAt(edit, l) - Numbers(AddedAt(edit.newFiles, l))
      ensures forall l | 0 <= l < NUM_LEVELS ::
        Files(addedFiles[l]) == Files(old(addedFiles)[l]) + AddedAt(edit.newFiles, l)
    {
      DeleteFiles(edit);
      label deleted:
      for i := 0 to |edit.newFiles|
        invariant Valid()
        invariant forall l | 0 <= l < NUM_LEVELS ::
          Applied(edit.newFiles[..i], l, old@deleted(deletedFiles)[l], Files(old(addedFiles)[l]), deletedFiles[l],
            Files(addedFiles[l]))
      {
        var (l, f) := edit.newFiles[i];
        assert (l, f) in edit.newFiles;
        AddOne(edit.newFiles, i);
        assert NumbersNameFiles(Files(addedFiles[l]) + {f}) by {
          SubsetNames(Files(addedFiles[l]) + {f}, Files(old(addedFiles)[l]) + AddedAt(edit.newFiles, l));
        }
        label before:
        AddFile(l, f);
        forall m | 0 <= m < NUM_LEVELS
          ensures Applied(edit.newFiles[..i + 1], m, old@deleted(deletedFiles)[m], Files(old(addedFiles)[m]),
            deletedFiles[m], Files(addedFiles[m]))
        {
          assert Applied(edit.newFiles[..i], m, old@deleted(deletedFiles)[m], Files(old(addedFiles)[m]),
            old@before(deletedFiles)[m], Files(old@before(addedFiles)[m]));
        }
      }
      assert edit.newFiles[..|edit.newFiles|] == edit.newFiles;
    }

    method AddFile(l: nat, f: File)
      requires Valid() && l < NUM_LEVELS && NumbersNameFiles(Files(addedFiles[l]) + {f})
      modifies this
      ensures Valid()
      ensures deletedFiles == old(deletedFiles)[l := old(deletedFiles)[l] - {f.number}]
      ensures forall m | 0 <= m < NUM_LEVELS ::
        Files(addedFiles[m]) == Files(old(addedFiles)[m]) + if m == l then {f} else {}
    {
      deletedFiles := deletedFiles[l := deletedFiles[l] - {f.number}];
      addedFiles := addedFiles[l := Insert(addedFiles[l], f)];
    }

    method DeleteFiles(edit: VersionEdit)
      requires Valid() && LevelsInRange(edit)
      modifies `deletedFiles
      ensures Valid()
      ensures forall l | 0 <= l < NUM_LEVELS :: deletedFiles[l] == old(deletedFiles)[l] + DeletedAt(edit, l)
    {
      var del := edit.deletedFiles;
      ghost var done: set<(nat, nat)> := {};
      while del != {}
        invariant Valid() && done + del == edit.deletedFiles
        invariant forall l | 0 <= l < NUM_LEVELS ::
          deletedFiles[l] == old(deletedFiles)[l] + DeletedAt(VersionEdit(done, []), l)
        decreases |del|
      {
        var d :| d in del;
        del := del - {d};
        deletedFiles := deletedFiles[d.0 := deletedFiles[d.0] + {d.1}];
        done := done + {d};
      }
      assert done == edit.deletedFiles;
    }

    /** Merges base and added files by smallest key and leaves out the deleted ones. */
    method SaveTo() returns (v: Version)
      requires Valid()
      requires forall l | 0 <= l < NUM_LEVELS :: NumbersNameFiles(Files(base[l]) + Files(addedFiles[l]))
      requires forall l, f | 0 <= l < NUM_LEVELS && f in base[l] && f in addedFiles[l] :: f.number in deletedFiles[l]
      ensures forall l | 0 <= l < NUM_LEVELS :: SortedFiles(v[l])
      ensures forall l | 0 <= l < NUM_LEVELS ::
        Files(v[l]) == Surviving(Files(base[l]), Files(addedFiles[l]), deletedFiles[l])
    {
      v := [[], [], [], [], [], [], []];
      for l := 0 to NUM_LEVELS
        invariant forall m | 0 <= m < l :: SortedFiles(v[m])
        invariant forall m | 0 <= m < l ::
          Files(v[m]) == Surviving(Files(base[m]), Files(addedFiles[m]), deletedFiles[m])
      {
        assert forall f | f in base[l] && f in addedFiles[l] :: f.number in deletedFiles[l];
        var files := SaveLevel(base[l], addedFiles[l], deletedFiles[l]);
        v := v[l := files];
      }
    }
  }

  lemma AddOne(newFiles: seq<(nat, File)>, i: nat)
    requires i < |newFiles|
    ensures var (l, f) := newFiles[i];
      && AddedAt(newFiles[..i + 1], l) == AddedAt(newFiles[..i], l) + {f}
      && Numbers(AddedAt(newFiles[..i + 1], l)) == Numbers(AddedAt(newFiles[..i], l)) + {f.number}
      && AddedAt(newFiles[..i + 1], l) <= AddedAt(newFiles, l)
      && forall m | m != l :: AddedAt(newFiles[..i + 1], m) == AddedAt(newFiles[..i], m)
  {
    assert newFiles[..i + 1] == newFiles[..i] + [newFiles[i]];
    var (l, f) := newFiles[i];
    assert AddedAt(newFiles[..i + 1], l) == AddedAt(newFiles[..i], l) + {f};
  }

  lemma FilesAppend(files: seq<File>, f: File)
    ensures Files(files + [f]) == Files(files) + {f}
  {
  }

  lemma SurvivingGrows(base: set<File>, added: set<File>, deleted: set<nat>, f: File)
    ensures Surviving(base + {f}, added, deleted) == Surviving(base, added, deleted) + if f.number in deleted then {}
      else {f}
    ensures Surviving(base, added + {f}, deleted) == Surviving(base, added, deleted) + if f.number in deleted then {}
      else {f}
  {
  }

  lemma MaybeAddSorted(out: seq<File>, f: File, deleted: set<nat>)
    requires SortedFiles(out) && forall x | x in out :: BySmallest(x, f)
    ensures SortedFiles(MaybeAddFile(out, f, deleted))
    ensures Files(MaybeAddFile(out, f, deleted)) == Files(out) + if f.number in deleted then {} else {f}
  {
    assert forall i | 0 <= i < |out| :: out[i] in out;
    FilesAppend(out, f);
  }

  /** Where the next base file and the next added file stand relative to what has been saved. */
  ghost predicate Merged(base: seq<File>, added: seq<File>, deleted: set<nat>, i: nat, j: nat, out: seq<File>) {
    && i <= |base| && j <= |added| && SortedFiles(out)
    && Files(out) == Surviving(Files(base[..i]), Files(added[..j]), deleted)
    && (forall x, k | x in out && i <= k < |base| :: BySmallest(x, base[k]))
    && (forall x, k | x in out && j <= k < |added| :: BySmallest(x, added[k]))
  }

  function MaybeAddFile(out: seq<File>, f: File, deleted: set<nat>): (r: seq<File>) {
    if f.number in deleted then out else out + [f]
  }

  lemma MergeBase(base: seq<File>, added: seq<File>, deleted: set<nat>, i: nat, j: nat, out: seq<File>)
    requires SortedFiles(base) && SortedFiles(added) && NumbersNameFiles(Files(base) + Files(added))
    requires forall f | f in base && f in added :: f.number in deleted
    requires Merged(base, added, deleted, i, j, out) && i < |base|
    requires j < |added| ==> !BySmallest(added[j], base[i])
    ensures Merged(base, added, deleted, i + 1, j, MaybeAddFile(out, base[i], deleted))
  {
    var f := base[i];
    assert base[..i + 1] == base[..i] + [f];
    FilesAppend(base[..i], f);
    SurvivingGrows(Files(base[..i]), Files(added[..j]), deleted, f);
    MaybeAddSorted(out, f, deleted);
    BaseBeforeAdded(base, added, deleted, i, j);
  }

  lemma BaseBeforeAdded(base: seq<File>, added: seq<File>, deleted: set<nat>, i: nat, j: nat)
    requires SortedFiles(added) && NumbersNameFiles(Files(base) + Files(added))
    requires forall f | f in base && f in added :: f.number in deleted
    requires i < |base| && j <= |added| && (j < |added| ==> !BySmallest(added[j], base[i]))
    ensures forall k | base[i].number !in deleted && j <= k < |added| :: BySmallest(base[i], added[k])
  {
    var f := base[i];
    assert f in base;
    forall k | f.number !in deleted && j <= k < |added| ensures BySmallest(f, added[k]) {
      assert added[k] in added && f in Files(base) + Files(added) && added[j] in Files(base) + Files(added);
      if f.number != added[j].number {
        BySmallestIsTotal(f, added[j]);
      }
      assert j == k || BySmallest(added[j], added[k]);
    }
  }

  lemma MergeAdded(base: seq<File>, added: seq<File>, deleted: set<nat>, i: nat, j: nat, out: seq<File>)
    requires SortedFiles(base) && SortedFiles(added)
    requires Merged(base, added, deleted, i, j, out) && j < |added|
    requires i < |base| ==> BySmallest(added[j], base[i])
    ensures Merged(base, added, deleted, i, j + 1, MaybeAddFile(out, added[j], deleted))
  {
    var f := added[j];
    assert added[..j + 1] == added[..j] + [f];
    FilesAppend(added[..j], f);
    SurvivingGrows(Files(base[..i]), Files(added[..j]), deleted, f);
    MaybeAddSorted(out, f, deleted);
    forall k | i <= k < |base| ensures BySmallest(f, base[k]) {
      assert i == k || BySmallest(base[i], base[k]);
    }
  }

  method SaveLevel(base: seq<File>, added: seq<File>, deleted: set<nat>) returns (out: seq<File>)
    requires SortedFiles(base) && SortedFiles(added) && NumbersNameFiles(Files(base) + Files(added))
    requires forall f | f in base && f in added :: f.number in deleted
    ensures SortedFiles(out)
    ensures Files(out) == Surviving(Files(base), Files(added), deleted)
  {
    out := [];
    var i := 0;
    for j := 0 to |added|
      invariant Merged(base, added, deleted, i, j, out)
    {
      while i < |base| && !BySmallest(added[j], base[i])
        invariant Merged(base, added, deleted, i, j, out)
        decreases |base| - i
      {
        MergeBase(base, added, deleted, i, j, out);
        out := MaybeAddFile(out, base[i], deleted);
        i := i + 1;
      }
      MergeAdded(base, added, deleted, i, j, out);
      out := MaybeAddFile(out, added[j], deleted);
    }
    while i < |base|
      invariant Merged(base, added, deleted, i, |added|, out)
      decreases |base| - i
    {
      MergeBase(base, added, deleted, i, |added|, out);
      out := MaybeAddFile(out, base[i], deleted);
      i := i + 1;
    }
    assert base[..i] == base && added[..|added|] == added;
  }

  // ----- installing edits one at a time, and folding them through one builder -----

  /** What one edit does to one level. */
  datatype Change = Change(deleted: set<nat>, added: set<File>)

  ghost function ChangeAt(edit: VersionEdit, l: nat): (r: Change) {
    Change(DeletedAt(edit, l), AddedAt(edit.newFiles, l))
  }

  ghost function Changes(edits: seq<VersionEdit>, l: nat): (r: seq<Change>)
    ensures |r| == |edits|
  {
    seq(|edits|, i requires 0 <= i < |edits| => ChangeAt(edits[i], l))
  }

  /** Installing one edit: deletions take effect, then additions. */
  ghost function Install(files: set<File>, c: Change): (r: set<File>) {
    set f | f in files + c.added && (f.number in c.deleted ==> f.number in Numbers(c.added))
  }

  ghost function InstallAll(files: set<File>, cs: seq<Change>): (r: set<File>) {
    if cs == [] then files else Install(InstallAll(files, cs[..|cs| - 1]), cs[|cs| - 1])
  }

  /** What a builder has accumulated after applying the edits in order. */
  ghost function FoldDeleted(cs: seq<Change>): (r: set<nat>) {
    if cs == [] then {}
    else FoldDeleted(cs[..|cs| - 1]) + cs[|cs| - 1].deleted - Numbers(cs[|cs| - 1].added)
  }

  ghost function FoldAdded(cs: seq<Change>): (r: set<File>) {
    if cs == [] then {} else FoldAdded(cs[..|cs| - 1]) + cs[|cs| - 1].added
  }

  /** Edit i takes file f, which is there or was there before, out of the level, and no later edit adds it again. */
  ghost predicate Struck(base: set<File>, cs: seq<Change>, f: File, i: nat) {
    && i < |cs| && f in base + FoldAdded(cs[..i])
    && f.number in cs[i].deleted && f.number !in Numbers(cs[i].added)
    && forall k | i < k < |cs| :: f !in cs[k].added
  }

  /** Edit j adds the number to the level, and it stays. */
  ghost predicate AddedToStay(cs: seq<Change>, n: nat, j: nat) {
    && j < |cs| && n in Numbers(cs[j].added)
    && forall k | j < k < |cs| && n in cs[k].deleted :: n in Numbers(cs[k].added)
  }

  /** After edit i the number is added to the level again, and stays. */
  ghost predicate NumberReturns(cs: seq<Change>, n: nat, i: nat) {
    exists j: nat :: i < j && AddedToStay(cs, n, j)
  }

  /** A deleted file whose number comes back with another file. */
  ghost predicate BroughtBack(base: set<File>, cs: seq<Change>, f: File) {
    exists i: nat :: Struck(base, cs, f, i) && NumberReturns(cs, f.number, i)
  }

  lemma {:induction false} GoneIsStruck(base: set<File>, cs: seq<Change>, f: File)
    ensures f in base + FoldAdded(cs) && f !in InstallAll(base, cs) <==> exists i: nat :: Struck(base, cs, f, i)
  {
    if cs != [] {
      var m := |cs| - 1;
      var front := cs[..m];
      GoneIsStruck(base, front, f);
      forall i: nat | i < m ensures Struck(base, cs, f, i) <==> Struck(base, front, f, i) && f !in cs[m].added {
        assert cs[..i] == front[..i];
      }
      if i: nat :| Struck(base, front, f, i) {
        assert f !in cs[m].added ==> Struck(base, cs, f, i);
      }
      assert Struck(base, cs, f, m) ==
        (f in base + FoldAdded(front) && f.number in cs[m].deleted && f.number !in Numbers(cs[m].added));
    }
  }

  lemma NumberReturnsNext(cs: seq<Change>, c: Change, n: nat, i: nat)
    requires i < |cs|
    ensures NumberReturns(cs + [c], n, i) <==>
      n in Numbers(c.added) || (n !in c.deleted && NumberReturns(cs, n, i))
  {
    var all := cs + [c];
    forall j: nat | j < |cs|
      ensures AddedToStay(all, n, j) <==> AddedToStay(cs, n, j) && (n in c.deleted ==> n in Numbers(c.added))
    {
      assert all[|cs|] == c && forall k | 0 <= k < |cs| :: all[k] == cs[k];
    }
    assert AddedToStay(all, n, |cs|) <==> n in Numbers(c.added);
  }

  lemma BroughtBackNext(base: set<File>, cs: seq<Change>, c: Change, f: File)
    ensures f in c.added ==> !BroughtBack(base, cs + [c], f)
    ensures f !in c.added ==> (BroughtBack(base, cs + [c], f) <==>
      if f.number in Numbers(c.added) then exists i: nat :: Struck(base, cs, f, i)
      else f.number !in c.deleted && BroughtBack(base, cs, f))
  {
    var all := cs + [c];
    forall i: nat | i < |cs|
      ensures Struck(base, all, f, i) <==> Struck(base, cs, f, i) && f !in c.added
      ensures NumberReturns(all, f.number, i) <==>
        f.number in Numbers(c.added) || (f.number !in c.deleted && NumberReturns(cs, f.number, i))
    {
      assert all[..i] == cs[..i];
      assert all[|cs|] == c && forall k | 0 <= k < |cs| :: all[k] == cs[k];
      NumberReturnsNext(cs, c, f.number, i);
    }
    assert !NumberReturns(all, f.number, |cs|);
    if BroughtBack(base, all, f) {
      var i: nat :| Struck(base, all, f, i) && NumberReturns(all, f.number, i);
      assert i < |cs| && Struck(base, cs, f, i);
    }
    if i: nat :| Struck(base, cs, f, i) && f !in c.added && f.number in Numbers(c.added) {
      assert Struck(base, all, f, i) && NumberReturns(all, f.number, i);
    }
    if BroughtBack(base, cs, f) && f !in c.added && f.number !in c.deleted {
      var i: nat :| Struck(base, cs, f, i) && NumberReturns(cs, f.number, i);
      assert Struck(base, all, f, i) && NumberReturns(all, f.number, i);
    }
  }

  /** File by file: folding loses nothing, and keeps exactly the files that were brought back in addition. */
  lemma {:induction false} SurvivingIs(base: set<File>, cs: seq<Change>, f: File)
    ensures f in Surviving(base, FoldAdded(cs), FoldDeleted(cs)) <==>
      f in InstallAll(base, cs) || BroughtBack(base, cs, f)
  {
    if cs != [] {
      var m := |cs| - 1;
      var front, c := cs[..m], cs[m];
      assert cs == front + [c];
      SurvivingIs(base, front, f);
      GoneIsStruck(base, front, f);
      BroughtBackNext(base, front, c, f);
    }
  }

  /**
   One builder fed with all the edits ends with the files that installing them one at a time leaves, if and only if no
   deleted file has its number brought back by another file.
   */
  lemma FoldIsInstallAllIff(base: set<File>, cs: seq<Change>)
    ensures InstallAll(base, cs) == Surviving(base, FoldAdded(cs), FoldDeleted(cs))
      <==> !exists f :: BroughtBack(base, cs, f)
  {
    forall f ensures f in Surviving(base, FoldAdded(cs), FoldDeleted(cs)) <==>
      f in InstallAll(base, cs) || BroughtBack(base, cs, f)
    {
      SurvivingIs(base, cs, f);
    }
    forall f | BroughtBack(base, cs, f) ensures f !in InstallAll(base, cs) {
      GoneIsStruck(base, cs, f);
    }
  }

  lemma {:induction false} AddedIsFolded(cs: seq<Change>, j: nat)
    requires j < |cs|
    ensures cs[j].added <= FoldAdded(cs)
  {
    if j < |cs| - 1 { AddedIsFolded(cs[..|cs| - 1], j); }
  }

  /** So it is for the engine, where a number, once given out, never names another file. */
  lemma FoldIsInstallAll(base: set<File>, cs: seq<Change>)
    requires NumbersNameFiles(base + FoldAdded(cs))
    ensures InstallAll(base, cs) == Surviving(base, FoldAdded(cs), FoldDeleted(cs))
  {
    forall f: File, i: nat | Struck(base, cs, f, i) ensures !NumberReturns(cs, f.number, i) {
      forall j: nat | i < j < |cs| ensures f.number !in Numbers(cs[j].added) {
        NamedOnce(base, cs, f, i, j);
      }
    }
    FoldIsInstallAllIff(base, cs);
  }

  lemma NamedOnce(base: set<File>, cs: seq<Change>, f: File, i: nat, j: nat)
    requires NumbersNameFiles(base + FoldAdded(cs)) && Struck(base, cs, f, i) && i < j < |cs|
    ensures f.number !in Numbers(cs[j].added)
  {
    AddedIsFolded(cs, j);
    FoldAddedGrows(cs, i);
    forall g | g in cs[j].added ensures g.number != f.number {
      assert f in base + FoldAdded(cs) && g in base + FoldAdded(cs) && f !in cs[j].added;
    }
  }

  /** Two files under one number, on the other hand, bring the deleted one back. */
  lemma ReaddingDiffers(f: File, g: File)
    requires f.number == g.number && f != g
    ensures var cs := [Change({f.number}, {}), Change({}, {g})];
      BroughtBack({f}, cs, f) && InstallAll({f}, cs) != Surviving({f}, FoldAdded(cs), FoldDeleted(cs))
  {
    var cs := [Change({f.number}, {}), Change({}, {g})];
    assert g in cs[1].added && f.number in Numbers(cs[1].added);
    assert AddedToStay(cs, f.number, 1) && NumberReturns(cs, f.number, 0);
    assert Struck({f}, cs, f, 0);
    assert BroughtBack({f}, cs, f);
    FoldIsInstallAllIff({f}, cs);
  }

  ghost predicate LevelsSorted(v: Version) {
    forall l | 0 <= l < NUM_LEVELS :: SortedFiles(v[l])
  }

  /** What LogAndApply does with a builder: one edit on top of the current version. */
  method InstallEdit(current: Version, edit: VersionEdit) returns (v: Version)
    requires LevelsSorted(current) && LevelsInRange(edit)
    requires forall l | 0 <= l < NUM_LEVELS :: NumbersNameFiles(Files(current[l]) + AddedAt(edit.newFiles, l))
    requires forall l | 0 <= l < NUM_LEVELS :: Files(current[l]) !! AddedAt(edit.newFiles, l)
    ensures LevelsSorted(v)
    ensures forall l | 0 <= l < NUM_LEVELS :: Files(v[l]) == Install(Files(current[l]), ChangeAt(edit, l))
  {
    var builder := new Builder(current);
    forall l | 0 <= l < NUM_LEVELS ensures NumbersNameFiles(Files(builder.addedFiles[l]) + AddedAt(edit.newFiles, l)) {
      SubsetNames(Files(builder.addedFiles[l]) + AddedAt(edit.newFiles, l),
        Files(current[l]) + AddedAt(edit.newFiles, l));
    }
    builder.Apply(edit);
    assert forall l, f | 0 <= l < NUM_LEVELS && f in current[l] && f in builder.addedFiles[l] ::
      f in Files(current[l]) && f in AddedAt(edit.newFiles, l);
    v := builder.SaveTo();
  }

  lemma {:induction false} FoldAddedGrows(cs: seq<Change>, n: nat)
    requires n <= |cs|
    ensures FoldAdded(cs[..n]) <= FoldAdded(cs)
  {
    if n < |cs| {
      assert cs[..|cs| - 1][..n] == cs[..n];
      FoldAddedGrows(cs[..|cs| - 1], n);
    } else {
      assert cs[..n] == cs;
    }
  }

  lemma FoldStep(edits: seq<VersionEdit>, i: nat, l: nat)
    requires i < |edits|
    ensures var c := ChangeAt(edits[i], l);
      && FoldAdded(Changes(edits[..i + 1], l)) == FoldAdded(Changes(edits[..i], l)) + c.added
      && FoldDeleted(Changes(edits[..i + 1], l)) == FoldDeleted(Changes(edits[..i], l)) + c.deleted - Numbers(c.added)
      && FoldAdded(Changes(edits[..i], l)) + c.added <= FoldAdded(Changes(edits, l))
  {
    var cs := Changes(edits[..i + 1], l);
    assert cs[..i] == Changes(edits[..i], l);
    FoldAddedGrows(Changes(edits, l), i + 1);
    assert Changes(edits, l)[..i + 1] == cs;
  }
}
