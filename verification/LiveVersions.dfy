/**
 Version objects (version_set.cc): reference counts, the circular list of the versions that somebody still needs, the
 reference counts of their files, and what AddLiveFiles collects from the list.
 */
module LiveVersions {
  import opened InternalKeys
  import opened Versions
  import opened CompactionInputs
  import opened VersionBuilder
  import opened LsmSteps

  class FileMetaData {
    const file: File
    var refs: nat

    constructor (file: File, refs: nat)
      ensures this.file == file && this.refs == refs
    {
      this.file, this.refs := file, refs;
    }
  }

  // ----- the files of a version -----

  ghost function Elems(objs: seq<FileMetaData>): (r: set<FileMetaData>) {
    set f | f in objs
  }

  ghost function FilesOf(files: seq<seq<FileMetaData>>): (r: set<FileMetaData>) {
    set l, i | 0 <= l < |files| && 0 <= i < |files[l]| :: files[l][i]
  }

  /** The files themselves. */
  function Plain(objs: seq<FileMetaData>): (r: seq<File>)
    ensures |r| == |objs| && forall i | 0 <= i < |objs| :: r[i] == objs[i].file
  {
    seq(|objs|, i requires 0 <= i < |objs| => objs[i].file)
  }

  /** No object is named twice. */
  ghost predicate NoRepeats(files: seq<seq<FileMetaData>>) {
    forall l, i, m, j {:trigger files[l][i], files[m][j]}
      | 0 <= l < |files| && 0 <= m < |files| && 0 <= i < |files[l]| && 0 <= j < |files[m]|
        && files[l][i] == files[m][j] ::
      l == m && i == j
  }

  lemma SortedHasNoRepeats(objs: seq<FileMetaData>)
    requires SortedFiles(Plain(objs))
    ensures forall i, j | 0 <= i < j < |objs| :: objs[i] != objs[j]
  {
    forall i, j | 0 <= i < j < |objs| ensures objs[i] != objs[j] {
      assert BySmallest(Plain(objs)[i], Plain(objs)[j]);
      LessIsTotal(objs[i].file.smallest, objs[i].file.smallest, objs[i].file.smallest);
    }
  }

  type Levels = f: seq<seq<FileMetaData>> | |f| == NUM_LEVELS witness [[], [], [], [], [], [], []]

  class LiveVersion {
    /** They do not change once the builder has saved them. */
    const files: Levels
    var refs: nat
    var prev: LiveVersion?
    var next: LiveVersion?

    constructor (files: Levels)
      ensures this.files == files && refs == 0 && prev == null
      ensures next == null
    {
      this.files, refs, prev, next := files, 0, null, null;
    }

    ghost predicate WellMade() {
      NoRepeats(files) && forall l | 0 <= l < NUM_LEVELS :: SortedFiles(Plain(files[l]))
    }

    /** The version as a value. */
    function Value(): (r: Version)
      ensures forall l | 0 <= l < NUM_LEVELS :: r[l] == Plain(files[l])
    {
      seq(NUM_LEVELS, l requires 0 <= l < NUM_LEVELS => Plain(files[l]))
    }
  }

  ghost function Values(holders: map<Holder, LiveVersion>): (r: map<Holder, Version>)
    ensures r.Keys == holders.Keys
  {
    map h | h in holders :: holders[h].Value()
  }

  // ----- counting -----

  /** The versions that name the file. */
  ghost function Namers(versions: set<LiveVersion>, f: FileMetaData): (r: set<LiveVersion>) {
    set v | v in versions && f in FilesOf(v.files)
  }

  ghost function HoldersOf(holders: map<Holder, LiveVersion>, v: LiveVersion): (r: set<Holder>) {
    set h | h in holders && holders[h] == v
  }

  /** One for every holder, and one for being current. */
  ghost function Wanted(holders: map<Holder, LiveVersion>, current: LiveVersion?, v: LiveVersion): (r: nat) {
    |HoldersOf(holders, v)| + if v == current then 1 else 0
  }

  lemma WantedByHolders(holders: map<Holder, LiveVersion>, current: LiveVersion?, v: LiveVersion)
    ensures Wanted(holders, current, v) > 0 <==> v in holders.Values || v == current
  {
    if v in holders.Values {
      var h :| h in holders && holders[h] == v;
      assert h in HoldersOf(holders, v);
    } else {
      assert HoldersOf(holders, v) == {};
    }
  }

  lemma CurrentCounts(holders: map<Holder, LiveVersion>, versions: set<LiveVersion>, v: LiveVersion)
    requires v !in versions && holders.Values <= versions
    ensures Wanted(holders, v, v) == 1 && forall u | u in versions :: Wanted(holders, v, u) == Wanted(holders, null, u)
  {
    WantedByHolders(holders, null, v);
  }

  lemma NewHolder(holders: map<Holder, LiveVersion>, current: LiveVersion?, h: Holder, v: LiveVersion)
    requires h !in holders
    ensures forall u :: Wanted(holders[h := v], current, u) == Wanted(holders, current, u) + if u == v then 1 else 0
  {
    hide HoldersOf;
    forall u ensures |HoldersOf(holders[h := v], u)| == |HoldersOf(holders, u)| + if u == v then 1 else 0 {
      HoldersNext(holders, h, v, u);
    }
  }

  lemma HoldersNext(holders: map<Holder, LiveVersion>, h: Holder, v: LiveVersion, u: LiveVersion)
    requires h !in holders
    ensures |HoldersOf(holders[h := v], u)| == |HoldersOf(holders, u)| + if u == v then 1 else 0
  {
    if u == v {
      assert HoldersOf(holders[h := v], u) == HoldersOf(holders, u) + {h};
    } else {
      assert HoldersOf(holders[h := v], u) == HoldersOf(holders, u);
    }
  }

  lemma LostHolder(holders: map<Holder, LiveVersion>, current: LiveVersion?, h: Holder)
    requires h in holders
    ensures forall u :: Wanted(holders, current, u) == Wanted(holders - {h}, current, u) + if u == holders[h] then 1
      else 0
  {
    forall u ensures |HoldersOf(holders, u)| == |HoldersOf(holders - {h}, u)| + if u == holders[h] then 1 else 0 {
      assert HoldersOf(holders - {h}, u) == HoldersOf(holders, u) - if u == holders[h] then {h} else {};
    }
  }

  /**
   `known` are the file objects that have not been freed.  Each counts the versions that name it, one more while a
   builder has it among its added files, and one more while it has been pushed to a version that is not there yet.
   */
  ghost predicate FileCounts(known: set<FileMetaData>, namers: set<LiveVersion>, added: set<FileMetaData>,
      pushed: set<FileMetaData>)
    reads known`refs
  {
    && added <= known && pushed <= known && (forall v | v in namers :: FilesOf(v.files) <= known)
    && forall f | f in known ::
      && f.refs == |Namers(namers, f)| + (if f in added then 1 else 0) + (if f in pushed then 1 else 0)
      && f.refs > 0
  }

  /** A version with the pushed files counts instead of the pushes. */
  lemma PushedAreNamed(known: set<FileMetaData>, namers: set<LiveVersion>, added: set<FileMetaData>, v: LiveVersion)
    requires v !in namers && FilesOf(v.files) <= known
    ensures FileCounts(known, namers, added, FilesOf(v.files)) <==> FileCounts(known, namers + {v}, added, {})
  {
    forall f ensures |Namers(namers + {v}, f)| == |Namers(namers, f)| + if f in FilesOf(v.files) then 1 else 0 {
      assert Namers(namers + {v}, f) == Namers(namers, f) + if f in FilesOf(v.files) then {v} else {};
    }
  }

  /** One reference less; the last one frees the file. */
  method DropFile(f: FileMetaData, ghost known: set<FileMetaData>, ghost namers: set<LiveVersion>,
      ghost added: set<FileMetaData>, ghost pushed: set<FileMetaData>)
    returns (ghost known': set<FileMetaData>)
    requires FileCounts(known, namers, added, pushed) && f in added + pushed && added !! pushed
    modifies f`refs
    ensures FileCounts(known', namers, added - {f}, pushed - {f}) && known' <= known && known - {f} <= known'
  {
    f.refs := f.refs - 1;
    known' := if f.refs == 0 then known - {f} else known;
    if f.refs == 0 {
      assert Namers(namers, f) == {};
      assert forall v | v in namers && f in FilesOf(v.files) :: v in Namers(namers, f);
    }
  }

  // ----- the circular list -----

  ghost function Nodes(items: seq<LiveVersion>): (r: set<LiveVersion>) {
    set v | v in items
  }

  /** Around the circle: the dummy, the versions, the dummy. */
  ghost function Place(dummy: LiveVersion, items: seq<LiveVersion>, i: nat): (r: LiveVersion)
    requires i <= |items| + 1
    ensures r == dummy || r in Nodes(items)
  {
    if 1 <= i <= |items| then items[i - 1] else dummy
  }

  ghost predicate Joined(a: LiveVersion, b: LiveVersion)
    reads a`next, b`prev
  {
    a.next == b && b.prev == a
  }

  ghost predicate Circle(dummy: LiveVersion, items: seq<LiveVersion>)
    reads dummy`next, dummy`prev, Nodes(items)`next, Nodes(items)`prev
  {
    && (forall i, j | 0 <= i < j < |items| :: items[i] != items[j]) && dummy !in items
    && forall i {:trigger Place(dummy, items, i)} | 0 <= i <= |items| ::
      Joined(Place(dummy, items, i), Place(dummy, items, i + 1))
  }

  function Without(items: seq<LiveVersion>, k: nat): (r: seq<LiveVersion>)
    requires k < |items|
    ensures |r| == |items| - 1 && forall i | 0 <= i < |r| :: r[i] == items[if i < k then i else i + 1]
  {
    items[..k] + items[k + 1..]
  }

  lemma WithoutNodes(items: seq<LiveVersion>, k: nat)
    requires k < |items| && forall i, j | 0 <= i < j < |items| :: items[i] != items[j]
    ensures Nodes(Without(items, k)) == Nodes(items) - {items[k]}
  {
    var r := Without(items, k);
    forall v | v in items && v != items[k] ensures v in r {
      var i :| 0 <= i < |items| && items[i] == v;
      assert r[if i < k then i else i - 1] == v;
    }
  }

  /** The places around the circle are different, but for the dummy's at the start and at the end. */
  lemma PlacesDiffer(dummy: LiveVersion, items: seq<LiveVersion>, i: nat, j: nat)
    requires (forall a, b | 0 <= a < b < |items| :: items[a] != items[b]) && dummy !in items
    requires i != j && ((i <= |items| && j <= |items|) || (1 <= i <= |items| + 1 && 1 <= j <= |items| + 1))
    ensures Place(dummy, items, i) != Place(dummy, items, j)
  {
  }

  /** AppendVersion's last lines. */
  method LinkLast(dummy: LiveVersion, v: LiveVersion, ghost items: seq<LiveVersion>)
    requires Circle(dummy, items) && v !in items && v != dummy
    modifies dummy`next, dummy`prev, Nodes(items)`next, Nodes(items)`prev, v`next, v`prev
    ensures Circle(dummy, items + [v])
  {
    ghost var n := |items|;
    assert Joined(Place(dummy, items, n), Place(dummy, items, n + 1));
    v.prev := dummy.prev;
    v.next := dummy;
    v.prev.next := v;
    v.next.prev := v;
    ghost var r := items + [v];
    forall i {:trigger Place(dummy, r, i)} | 0 <= i <= |r| ensures Joined(Place(dummy, r, i), Place(dummy, r, i + 1)) {
      if i < n {
        assert old(Joined(Place(dummy, items, i), Place(dummy, items, i + 1)));
      }
    }
  }

  method Unlink(dummy: LiveVersion, v: LiveVersion, ghost items: seq<LiveVersion>, ghost k: nat)
    requires Circle(dummy, items) && k < |items| && v == items[k]
    modifies dummy`next, dummy`prev, Nodes(items)`next, Nodes(items)`prev
    ensures Circle(dummy, Without(items, k))
  {
    assert Joined(Place(dummy, items, k), Place(dummy, items, k + 1))
      && Joined(Place(dummy, items, k + 1), Place(dummy, items, k + 1 + 1));
    ghost var r := Without(items, k);
    v.prev.next := v.next;
    v.next.prev := v.prev;
    forall i {:trigger Place(dummy, r, i)} | 0 <= i <= |r| ensures Joined(Place(dummy, r, i), Place(dummy, r, i + 1)) {
      PlacesWithout(dummy, items, k, i);
      if i != k {
        var j := if i < k then i else i + 1;
        assert old(Joined(Place(dummy, items, j), Place(dummy, items, j + 1)));
        PlacesDiffer(dummy, items, j, k);
        PlacesDiffer(dummy, items, j + 1, k + 2);
      }
    }
  }

  lemma PlacesWithout(dummy: LiveVersion, items: seq<LiveVersion>, k: nat, i: nat)
    requires k < |items| && i < |items|
    ensures |Without(items, k)| == |items| - 1
    ensures Place(dummy, Without(items, k), i) == Place(dummy, items, if i <= k then i else i + 1)
    ensures Place(dummy, Without(items, k), i + 1) == Place(dummy, items, if i < k then i + 1 else i + 2)
  {
  }

  // ----- saving a version -----

  /** MaybeAddFile: a file that is not deleted gets a reference and goes to the level. */
  method MaybePush(out: seq<FileMetaData>, f: FileMetaData, deleted: set<nat>, ghost known: set<FileMetaData>,
      ghost namers: set<LiveVersion>, ghost added: set<FileMetaData>, ghost pushed: set<FileMetaData>)
    returns (out': seq<FileMetaData>)
    requires FileCounts(known, namers, added, pushed + Elems(out)) && f in known && f !in pushed + Elems(out)
    modifies f`refs
    ensures Plain(out') == MaybeAddFile(Plain(out), f.file, deleted) && Elems(out') <= Elems(out) + {f}
    ensures FileCounts(known, namers, added, pushed + Elems(out'))
  {
    out' := out;
    if f.file.number !in deleted {
      f.refs := f.refs + 1;
      out' := out + [f];
      assert Elems(out') == Elems(out) + {f};
      assert pushed + Elems(out') == pushed + Elems(out) + {f};
    }
  }

  lemma NextIsNew(objs: seq<FileMetaData>, i: nat)
    requires SortedFiles(Plain(objs)) && i < |objs|
    ensures objs[i] !in Elems(objs[..i]) && Elems(objs[..i + 1]) == Elems(objs[..i]) + {objs[i]}
    ensures objs[i] in Elems(objs) && Elems(objs[..i]) <= Elems(objs)
  {
    SortedHasNoRepeats(objs);
    assert objs[..i + 1] == objs[..i] + [objs[i]];
  }

  /**
   One level of SaveTo: base and added files merged, the deleted ones left out, one reference for each that is kept.
   */
  method SaveLevel(base: seq<FileMetaData>, added: seq<FileMetaData>, deleted: set<nat>, ghost known: set<FileMetaData>,
      ghost namers: set<LiveVersion>, ghost building: set<FileMetaData>, ghost pushed: set<FileMetaData>)
    returns (out: seq<FileMetaData>)
    requires SortedFiles(Plain(base)) && SortedFiles(Plain(added))
    requires NumbersNameFiles(Files(Plain(base)) + Files(Plain(added)))
    requires forall f | f in Plain(base) && f in Plain(added) :: f.number in deleted
    requires FileCounts(known, namers, building, pushed) && Elems(base) + Elems(added) <= known - pushed
    requires Elems(base) !! Elems(added)
    modifies known`refs
    ensures SortedFiles(Plain(out)) && Files(Plain(out)) == Surviving(Files(Plain(base)), Files(Plain(added)), deleted)
    ensures Elems(out) <= Elems(base) + Elems(added) && FileCounts(known, namers, building, pushed + Elems(out))
  {
    hide BySmallest;
    hide NumbersNameFiles;
    hide FileCounts;
    hide SortedFiles;
    hide Surviving;
    hide Merged;
    hide Elems;
    ghost var b, a := Plain(base), Plain(added);
    out := [];
    NoElems();
    assert pushed + {} == pushed;
    var i := 0;
    NothingMerged(b, a, deleted);
    for j := 0 to |added|
      invariant i <= |base| && Merged(b, a, deleted, i, j, Plain(out))
      invariant Elems(out) <= Elems(base[..i]) + Elems(added[..j])
      invariant FileCounts(known, namers, building, pushed + Elems(out))
    {
      while i < |base| && !BySmallest(added[j].file, base[i].file)
        invariant i <= |base| && Merged(b, a, deleted, i, j, Plain(out))
        invariant Elems(out) <= Elems(base[..i]) + Elems(added[..j])
        invariant FileCounts(known, namers, building, pushed + Elems(out))
        decreases |base| - i
      {
        MergeBase(b, a, deleted, i, j, Plain(out));
        NextIsNew(base, i);
        PrefixElems(added, j);
        out := MaybePush(out, base[i], deleted, known, namers, building, pushed);
        i := i + 1;
      }
      MergeAdded(b, a, deleted, i, j, Plain(out));
      NextIsNew(added, j);
      PrefixElems(base, i);
      out := MaybePush(out, added[j], deleted, known, namers, building, pushed);
    }
    assert added[..|added|] == added;
    while i < |base|
      invariant i <= |base| && Merged(b, a, deleted, i, |added|, Plain(out))
      invariant Elems(out) <= Elems(base[..i]) + Elems(added)
      invariant FileCounts(known, namers, building, pushed + Elems(out))
      decreases |base| - i
    {
      MergeBase(b, a, deleted, i, |added|, Plain(out));
      NextIsNew(base, i);
      out := MaybePush(out, base[i], deleted, known, namers, building, pushed);
      i := i + 1;
    }
    AllMerged(b, a, deleted, Plain(out));
    assert base[..|base|] == base;
  }

  lemma PrefixElems(objs: seq<FileMetaData>, i: nat)
    requires i <= |objs|
    ensures Elems(objs[..i]) <= Elems(objs)
  {
  }

  lemma NoElems()
    ensures Elems([]) == {}
  {
  }

  lemma NothingMerged(base: seq<File>, added: seq<File>, deleted: set<nat>)
    ensures Merged(base, added, deleted, 0, 0, [])
  {
  }

  lemma AllMerged(base: seq<File>, added: seq<File>, deleted: set<nat>, out: seq<File>)
    requires Merged(base, added, deleted, |base|, |added|, out)
    ensures SortedFiles(out) && Files(out) == Surviving(Files(base), Files(added), deleted)
  {
    assert base[..|base|] == base && added[..|added|] == added;
  }

  lemma LevelAdded(files: seq<seq<FileMetaData>>, level: seq<FileMetaData>)
    requires NoRepeats(files) && Elems(level) !! FilesOf(files)
    requires forall i, j | 0 <= i < j < |level| :: level[i] != level[j]
    ensures NoRepeats(files + [level]) && FilesOf(files + [level]) == FilesOf(files) + Elems(level)
  {
    var all := files + [level];
    forall f ensures f in FilesOf(all) <==> f in FilesOf(files) || f in level {
      if f in FilesOf(files) {
        var l, i :| 0 <= l < |files| && 0 <= i < |files[l]| && files[l][i] == f;
        assert all[l][i] == f;
      }
      if f in level {
        var i :| 0 <= i < |level| && level[i] == f;
        assert all[|files|][i] == f;
      }
    }
    assert forall l, i | 0 <= l < |files| && 0 <= i < |files[l]| :: files[l][i] in FilesOf(files);
    forall l, i, m, j
      | 0 <= l < |all| && 0 <= m < |all| && 0 <= i < |all[l]| && 0 <= j < |all[m]| && all[l][i] == all[m][j]
      ensures l == m && i == j
    {
      if l < |files| && m < |files| { assert files[l][i] == files[m][j]; }
    }
  }

  /** Builder::Apply makes an object with one reference for each added file. */
  method NewLevel(files: seq<File>, ghost known: set<FileMetaData>, ghost namers: set<LiveVersion>,
      ghost building: set<FileMetaData>)
    returns (objs: seq<FileMetaData>)
    requires FileCounts(known, namers, building, {})
    ensures fresh(Elems(objs)) && Plain(objs) == files && forall i, j | 0 <= i < j < |objs| :: objs[i] != objs[j]
    ensures FileCounts(known + Elems(objs), namers, building + Elems(objs), {})
  {
    objs := [];
    assert known + Elems([]) == known && building + Elems([]) == building;
    for i := 0 to |files|
      invariant |objs| == i && fresh(Elems(objs)) && (forall j | 0 <= j < i :: objs[j].file == files[j])
      invariant forall j, k | 0 <= j < k < i :: objs[j] != objs[k]
      invariant FileCounts(known + Elems(objs), namers, building + Elems(objs), {})
    {
      var f := new FileMetaData(files[i], 1);
      assert Namers(namers, f) == {};
      assert Elems(objs + [f]) == Elems(objs) + {f};
      objs := objs + [f];
    }
  }

  method NewFiles(files: seq<seq<File>>, ghost known: set<FileMetaData>, ghost namers: set<LiveVersion>)
    returns (objs: seq<seq<FileMetaData>>)
    requires FileCounts(known, namers, {}, {})
    ensures |objs| == |files| && fresh(FilesOf(objs)) && NoRepeats(objs)
    ensures forall l | 0 <= l < |files| :: Plain(objs[l]) == files[l]
    ensures FileCounts(known + FilesOf(objs), namers, FilesOf(objs), {})
  {
    hide FileCounts;
    objs := [];
    assert FilesOf([]) == {} && known + {} == known;
    for l := 0 to |files|
      invariant |objs| == l && fresh(FilesOf(objs)) && NoRepeats(objs)
      invariant forall m | 0 <= m < l :: Plain(objs[m]) == files[m]
      invariant FileCounts(known + FilesOf(objs), namers, FilesOf(objs), {})
    {
      var level := NewLevel(files[l], known + FilesOf(objs), namers, FilesOf(objs));
      LevelAdded(objs, level);
      assert known + FilesOf(objs) + Elems(level) == known + (FilesOf(objs) + Elems(level));
      objs := objs + [level];
    }
  }

  /** What is still to be dropped from file i of level l on. */
  ghost function Rest(files: seq<seq<FileMetaData>>, l: nat, i: nat): (r: set<FileMetaData>) {
    set m, j | l <= m < |files| && 0 <= j < |files[m]| && (m > l || j >= i) :: files[m][j]
  }

  lemma RestShrinks(files: seq<seq<FileMetaData>>, l: nat, i: nat)
    requires NoRepeats(files) && l < |files| && i < |files[l]|
    ensures files[l][i] in Rest(files, l, i) && Rest(files, l, i) - {files[l][i]} == Rest(files, l, i + 1)
  {
  }

  lemma RestIs(files: seq<seq<FileMetaData>>, l: nat)
    ensures Rest(files, 0, 0) == FilesOf(files) && Rest(files, |files|, 0) == {}
    ensures l < |files| ==> Rest(files, l, |files[l]|) == Rest(files, l + 1, 0)
  {
  }

  /** Every file loses a reference: the loops of ~Version and ~Builder. */
  method DropFiles(files: seq<seq<FileMetaData>>, ghost known: set<FileMetaData>, ghost namers: set<LiveVersion>)
    returns (ghost known': set<FileMetaData>)
    requires NoRepeats(files) && FileCounts(known, namers, FilesOf(files), {})
    modifies known`refs
    ensures known' <= known && FileCounts(known', namers, {}, {})
  {
    hide Rest;
    known' := known;
    RestIs(files, 0);
    for l := 0 to |files|
      invariant known' <= known && FileCounts(known', namers, Rest(files, l, 0), {})
    {
      for i := 0 to |files[l]|
        invariant known' <= known && FileCounts(known', namers, Rest(files, l, i), {})
      {
        RestShrinks(files, l, i);
        known' := DropFile(files[l][i], known', namers, Rest(files, l, i), {});
      }
      RestIs(files, l);
    }
    RestIs(files, 0);
  }

  lemma FilesAt(files: seq<seq<FileMetaData>>, l: nat)
    requires l < |files|
    ensures Elems(files[l]) <= FilesOf(files) && FilesOf(files[..l + 1]) == FilesOf(files[..l]) + Elems(files[l])
    ensures NoRepeats(files) ==> Elems(files[l]) !! FilesOf(files[..l])
  {
    forall f | f in files[l] ensures f in FilesOf(files) && f in FilesOf(files[..l + 1]) {
      var i :| 0 <= i < |files[l]| && files[l][i] == f;
      assert files[..l + 1][l][i] == f;
    }
    forall f | f in FilesOf(files[..l]) ensures f in FilesOf(files[..l + 1]) && (NoRepeats(files) ==> f !in files[l]) {
      var m, j :| 0 <= m < l && 0 <= j < |files[..l][m]| && files[..l][m][j] == f;
      assert files[..l + 1][m][j] == f && files[m][j] == f;
    }
    forall f | f in FilesOf(files[..l + 1]) ensures f in FilesOf(files[..l]) || f in files[l] {
      var m, j :| 0 <= m < l + 1 && 0 <= j < |files[..l + 1][m]| && files[..l + 1][m][j] == f;
      if m < l { assert files[..l][m][j] == f; }
    }
  }

  /** What SaveTo needs of the base, the objects of the added files, and the builder's sets. */
  ghost predicate CanSave(base: seq<seq<FileMetaData>>, added: seq<seq<FileMetaData>>, deleted: seq<set<nat>>) {
    && |base| == |added| == |deleted| == NUM_LEVELS && NoRepeats(base) && NoRepeats(added)
    && FilesOf(base) !! FilesOf(added)
    && forall l | 0 <= l < NUM_LEVELS ::
      && SortedFiles(Plain(base[l])) && SortedFiles(Plain(added[l]))
      && NumbersNameFiles(Files(Plain(base[l])) + Files(Plain(added[l])))
      && forall f | f in Plain(base[l]) && f in Plain(added[l]) :: f.number in deleted[l]
  }

  ghost predicate SavedLevel(out: seq<FileMetaData>, base: seq<FileMetaData>, added: seq<FileMetaData>,
      deleted: set<nat>) {
    SortedFiles(Plain(out)) && Files(Plain(out)) == Surviving(Files(Plain(base)), Files(Plain(added)), deleted)
  }

  method SaveTo(base: seq<seq<FileMetaData>>, added: seq<seq<FileMetaData>>, deleted: seq<set<nat>>,
      ghost known: set<FileMetaData>, ghost namers: set<LiveVersion>)
    returns (files: seq<seq<FileMetaData>>)
    requires CanSave(base, added, deleted) && FilesOf(base) + FilesOf(added) <= known
    requires FileCounts(known, namers, FilesOf(added), {})
    modifies known`refs
    ensures |files| == NUM_LEVELS && NoRepeats(files) && FilesOf(files) <= known
    ensures forall l | 0 <= l < NUM_LEVELS :: SavedLevel(files[l], base[l], added[l], deleted[l])
    ensures FileCounts(known, namers, FilesOf(added), FilesOf(files))
  {
    hide FileCounts;
    hide SortedFiles;
    hide Surviving;
    hide NumbersNameFiles;
    hide Elems;
    hide FilesOf;
    hide NoRepeats;
    files := [];
    NoFiles();
    for l := 0 to NUM_LEVELS
      invariant |files| == l && NoRepeats(files) && FilesOf(files) <= FilesOf(base[..l]) + FilesOf(added[..l])
      invariant forall m | 0 <= m < l :: SavedLevel(files[m], base[m], added[m], deleted[m])
      invariant FileCounts(known, namers, FilesOf(added), FilesOf(files))
      invariant FilesOf(base[..l]) <= FilesOf(base) && FilesOf(added[..l]) <= FilesOf(added)
    {
      FilesAt(base, l);
      FilesAt(added, l);
      var out := SaveLevel(base[l], added[l], deleted[l], known, namers, FilesOf(added), FilesOf(files));
      SortedHasNoRepeats(out);
      LevelAdded(files, out);
      files := files + [out];
    }
  }

  lemma NoFiles()
    ensures FilesOf([]) == {} && NoRepeats([])
  {
  }

  // ----- the versions of a database -----

  class VersionList {
    const dummyVersions: LiveVersion
    var current: LiveVersion?
    /** The versions on the list, the oldest first. */
    ghost var live: seq<LiveVersion>
    /** Who holds a reference to which version; `current` is one more. */
    ghost var holders: map<Holder, LiveVersion>
    /** The file objects that have not been freed. */
    ghost var known: set<FileMetaData>
    /** Every version that has ever been current. */
    ghost var created: set<LiveVersion>

    ghost predicate LinksOk()
      reads `live, `created, dummyVersions, Nodes(live)`next, Nodes(live)`prev
    {
      && Circle(dummyVersions, live) && Nodes(live) <= created && dummyVersions !in created
      && forall v | v in live :: v.WellMade()
    }

    /** `extra` has one reference more than it should: it is about to be dropped. */
    ghost predicate RefsOk(extra: LiveVersion?)
      reads `live, `holders, `current, `created, created`refs
    {
      && holders.Values <= Nodes(live) <= created && (current != null ==> current in Nodes(live))
      && (forall v | v in Nodes(live) :: v.refs == Wanted(holders, current, v) + if v == extra then 1 else 0)
      && forall v | v in created :: v in Nodes(live) <==> v.refs > 0
    }

    /** `coming` is a version that is about to go on the list. */
    ghost predicate FilesOk(coming: set<LiveVersion>)
      reads `live, `known, known`refs
    {
      FileCounts(known, Nodes(live) + coming, {}, {})
    }

    ghost predicate Valid()
      reads this, dummyVersions, created, known
    {
      Nodes(live) <= created && LinksOk() && RefsOk(null) && FilesOk({}) && current != null
    }

    /** The value of the current version. */
    function Current(): (r: Version)
      requires current != null
      reads `current
    {
      current.Value()
    }

    ghost function CurrentValue(): (r: Version)
      reads `current
    {
      if current == null then [[], [], [], [], [], [], []] else current.Value()
    }

    /** The versions that are held, as values. */
    ghost function Held(): (r: map<Holder, Version>)
      reads `holders
      ensures r.Keys == holders.Keys
    {
      Values(holders)
    }

    /**
     In every reachable state: a version's references are its holders, and one for being current; it is on the list
     exactly as long as it has any; a file's references are the versions on the list that name it.
     */
    lemma RefsTellHolders(v: LiveVersion, f: FileMetaData)
      requires Valid()
      ensures v in created ==> (v in live <==> v.refs > 0)
      ensures v in live ==> v.refs == |HoldersOf(holders, v)| + if v == current then 1 else 0
      ensures v in created ==> (v in live <==> v == current || v in holders.Values)
      ensures f in known <==> exists u :: u in live && f in FilesOf(u.files)
      ensures f in known ==> f.refs == |Namers(Nodes(live), f)| > 0
    {
      WantedByHolders(holders, current, v);
      if f in known {
        var u :| u in Namers(Nodes(live), f);
        assert u in live && f in FilesOf(u.files);
      }
      forall u | u in live && f in FilesOf(u.files) ensures f in known {
        assert u in Nodes(live);
      }
    }

    /** The list starts with an empty version. */
    constructor ()
      ensures Valid() && CurrentValue() == [[], [], [], [], [], [], []] && holders == map[] && Held() == map[]
      ensures fresh(dummyVersions) && fresh(created) && fresh(known)
    {
      hide LinksOk;
      hide RefsOk;
      hide FilesOk;
      hide LiveVersion.WellMade;
      var d := new LiveVersion([[], [], [], [], [], [], []]);
      d.prev, d.next := d, d;
      dummyVersions, current := d, null;
      live, holders, known, created := [], map[], {}, {};
      new;
      var v := new LiveVersion([[], [], [], [], [], [], []]);
      StartsEmpty(v);
      PutLast(v);
      EmptyValue(v);
    }

    lemma StartsEmpty(v: LiveVersion)
      requires live == [] && holders == map[] && created == {} && known == {} && current == null
      requires dummyVersions.next == dummyVersions && dummyVersions.prev == dummyVersions
      requires v.files == [[], [], [], [], [], [], []]
      ensures LinksOk() && RefsOk(null) && FilesOk({v})
      ensures v.WellMade()
    {
      EmptyCircle(dummyVersions);
      NothingCounted(v);
    }

    /** Version::Unref; the destructor takes the version off the list and drops its files. */
    method Unref(v: LiveVersion, ghost coming: set<LiveVersion>)
      requires LinksOk() && RefsOk(v) && FilesOk(coming)
      requires v in live && v !in coming
      modifies `live, `known, dummyVersions`next, dummyVersions`prev, Nodes(live)`next, Nodes(live)`prev, v`refs,
        known`refs
      ensures LinksOk() && RefsOk(null) && FilesOk(coming)
      ensures known <= old(known)
      ensures Nodes(live) == if Wanted(holders, current, v) == 0 then Nodes(old(live)) - {v} else Nodes(old(live))
    {
      hide Circle;
      hide FileCounts;
      hide Wanted;
      v.refs := v.refs - 1;
      if v.refs == 0 {
        WantedByHolders(holders, current, v);
        ghost var k :| 0 <= k < |live| && live[k] == v;
        Remove(v, k, coming);
      }
    }

    method Remove(v: LiveVersion, ghost k: nat, ghost coming: set<LiveVersion>)
      requires LinksOk() && FilesOk(coming) && k < |live|
      requires live[k] == v && v !in coming
      modifies `live, `known, dummyVersions`next, dummyVersions`prev, Nodes(live)`next, Nodes(live)`prev, known`refs
      ensures LinksOk() && FilesOk(coming) && known <= old(known)
      ensures Nodes(live) == Nodes(old(live)) - {v}
    {
      hide FileCounts;
      hide Circle;
      DistinctNodes(dummyVersions, live);
      WithoutNodes(live, k);
      Unlink(dummyVersions, v, live, k);
      live := Without(live, k);
      ghost var namers := Nodes(live) + coming;
      assert namers + {v} == Nodes(old(live)) + coming;
      assert v in old(live);
      CountedFiles(known, namers + {v}, v);
      PushedAreNamed(known, namers, {}, v);
      Swapped(known, namers, FilesOf(v.files));
      known := DropFiles(v.files, known, namers);
    }

    /** The new version takes the place of the current one, which goes unless somebody holds it. */
    method AppendVersion(v: LiveVersion)
      requires LinksOk() && RefsOk(null) && FilesOk({v})
      requires v !in created && v != dummyVersions
      requires v.WellMade() && v.refs == 0
      modifies this, dummyVersions, created, v, known`refs
      ensures Valid() && current == v && holders == old(holders)
      ensures created == old(created) + {v} && known <= old(known)
    {
      hide Circle;
      hide FileCounts;
      hide Wanted;
      if current != null {
        DropCurrent({v});
      }
      PutLast(v);
    }

    method DropCurrent(ghost coming: set<LiveVersion>)
      requires LinksOk() && RefsOk(null) && FilesOk(coming)
      requires current != null && created !! coming
      modifies `current, `live, `known, dummyVersions, created, known`refs
      ensures LinksOk() && RefsOk(null) && FilesOk(coming)
      ensures current == null && known <= old(known)
    {
      hide Circle;
      hide FileCounts;
      hide HoldersOf;
      var was := current;
      current := null;
      Unref(was, coming);
    }

    method PutLast(v: LiveVersion)
      requires LinksOk() && RefsOk(null) && FilesOk({v})
      requires current == null && v !in created && v != dummyVersions
      requires v.WellMade() && v.refs == 0
      modifies `current, `live, `created, dummyVersions, Nodes(live), v
      ensures Valid() && current == v && created == old(created) + {v}
    {
      hide LinksOk;
      hide FilesOk;
      hide Wanted;
      hide NoRepeats;
      WantedByHolders(holders, null, v);
      ghost var was := Nodes(live);
      current := v;
      v.refs := 1;
      Link(v);
      hide Nodes;
      CurrentCounts(holders, was, v);
    }

    method Link(v: LiveVersion)
      requires LinksOk() && FilesOk({v}) && v !in created
      requires v != dummyVersions && v.WellMade()
      modifies `live, `created, dummyVersions`next, dummyVersions`prev, Nodes(live)`next, Nodes(live)`prev, v`next,
        v`prev
      ensures LinksOk() && FilesOk({}) && Nodes(live) == Nodes(old(live)) + {v}
      ensures created == old(created) + {v}
    {
      hide Circle;
      hide FileCounts;
      LinkLast(dummyVersions, v, live);
      assert Nodes(live + [v]) == Nodes(live) + {v};
      assert Nodes(live) + {v} + {} == Nodes(live) + {v};
      live := live + [v];
      created := created + {v};
    }

    /** A lookup, an iterator or a compaction holds on to the current version. */
    method Ref(ghost h: Holder) returns (v: LiveVersion)
      requires Valid() && h !in holders
      modifies `holders, created`refs
      ensures Valid() && v == current && holders == old(holders)[h := v]
      ensures live == old(live)
    {
      hide Circle;
      hide FileCounts;
      v := current;
      v.refs := v.refs + 1;
      NewHolder(holders, current, h, v);
      holders := holders[h := v];
    }

    /** And lets it go. */
    method Release(ghost h: Holder, v: LiveVersion)
      requires Valid() && h in holders && holders[h] == v
      modifies `holders, `live, `known, dummyVersions, created, known`refs
      ensures Valid() && holders == old(holders) - {h} && known <= old(known)
    {
      hide Circle;
      hide FileCounts;
      hide HoldersOf;
      DropHolder(h, v, {});
    }

    method DropHolder(ghost h: Holder, v: LiveVersion, ghost coming: set<LiveVersion>)
      requires LinksOk() && RefsOk(null) && FilesOk(coming)
      requires h in holders && holders[h] == v && created !! coming
      modifies `holders, `live, `known, dummyVersions, created, known`refs
      ensures LinksOk() && RefsOk(null) && FilesOk(coming)
      ensures holders == old(holders) - {h} && known <= old(known)
    {
      hide Circle;
      hide FileCounts;
      LostHolder(holders, current, h);
      assert v in holders.Values;
      holders := holders - {h};
      Unref(v, coming);
    }

    /** The numbers of all files of all versions on the list: those of the current version and of the held ones. */
    method AddLiveFiles() returns (numbers: set<nat>)
      requires Valid()
      ensures forall n :: n in numbers <==>
        n in FileNumbers(Current()) || exists h :: h in holders && n in FileNumbers(holders[h].Value())
    {
      hide FileNumbers;
      hide FileCounts;
      hide Wanted;
      hide LiveVersion.WellMade;
      numbers := {};
      assert Joined(Place(dummyVersions, live, 0), Place(dummyVersions, live, 0 + 1));
      var v := dummyVersions.next;
      ghost var k := 0;
      while v != dummyVersions
        invariant k <= |live| && v == Place(dummyVersions, live, k + 1)
        invariant forall n :: n in numbers <==> exists j :: 0 <= j < k && n in FileNumbers(live[j].Value())
        decreases |live| - k
      {
        var more := NumbersIn(v);
        numbers := numbers + more;
        assert Joined(Place(dummyVersions, live, k + 1), Place(dummyVersions, live, k + 1 + 1));
        v := v.next;
        k := k + 1;
      }
      ListedAreNeeded(k, numbers);
    }

    lemma ListedAreNeeded(k: nat, numbers: set<nat>)
      requires Valid() && k <= |live| && Place(dummyVersions, live, k + 1) == dummyVersions
      requires forall n :: n in numbers <==> exists j :: 0 <= j < k && n in FileNumbers(live[j].Value())
      ensures forall n :: n in numbers <==>
        n in FileNumbers(Current()) || exists h :: h in holders && n in FileNumbers(holders[h].Value())
    {
      hide FileNumbers;
      hide FileCounts;
      assert k == |live| by { assert forall i | 0 <= i < |live| :: live[i] in live; }
      forall v ensures (v == current || v in holders.Values) <==> v in Nodes(live) {
        WantedByHolders(holders, current, v);
      }
      forall n ensures n in numbers <==>
        n in FileNumbers(Current()) || exists h :: h in holders && n in FileNumbers(holders[h].Value())
      {
        if n in numbers {
          var j :| 0 <= j < k && n in FileNumbers(live[j].Value());
          assert live[j] in Nodes(live);
        }
        if v :| v in Nodes(live) && n in FileNumbers(v.Value()) {
          var j :| 0 <= j < |live| && live[j] == v;
        }
        assert forall h | h in holders :: holders[h] in holders.Values;
      }
    }

    /** The edit makes a new version of the current one, whose builder holds on to it meanwhile. */
    method LogAndApply(edit: VersionEdit)
      requires Valid() && LevelsInRange(edit) && EditBase !in holders
      requires forall l | 0 <= l < NUM_LEVELS :: NumbersNameFiles(Files(Current()[l]) + AddedAt(edit.newFiles, l))
      requires forall l | 0 <= l < NUM_LEVELS :: Files(Current()[l]) !! AddedAt(edit.newFiles, l)
      modifies this, dummyVersions, created, known
      ensures Valid() && Edited(old(Current()), edit, Current()) && holders == old(holders)
      ensures fresh(created - old(created)) && fresh(known - old(known))
    {
      hide LinksOk;
      hide RefsOk;
      hide FilesOk;
      hide Edited;
      CurrentIsListed();
      var base := Ref(EditBase);
      var v := BuildVersion(base, edit);
      DropHolder(EditBase, base, {v});
      AppendVersion(v);
    }

    /** ~VersionSet: with nobody left, the list is empty afterwards and every file object has been freed. */
    method Destroy()
      requires Valid() && holders == map[]
      modifies this, dummyVersions, created, known
      ensures live == [] && known == {} && forall v | v in created :: v.refs == 0
    {
      hide Circle;
      hide HoldersOf;
      DropCurrent({});
      forall v ensures Wanted(holders, null, v) == 0 {
        WantedByHolders(holders, null, v);
      }
      assert Nodes(live) == {};
      SomeNode(live);
      assert forall f :: |Namers({}, f)| == 0 by { assert forall f :: Namers({}, f) == {}; }
      assert forall f | f in known :: f.refs == |Namers(Nodes(live) + {}, f)|;
    }

    lemma CurrentIsListed()
      requires LinksOk() && RefsOk(null) && current != null
      ensures current in live && current.WellMade()
    {
      assert current in Nodes(live);
    }

    method BuildVersion(base: LiveVersion, edit: VersionEdit) returns (v: LiveVersion)
      requires FilesOk({}) && base in live && base.WellMade()
      requires LevelsInRange(edit)
      requires forall l | 0 <= l < NUM_LEVELS :: NumbersNameFiles(Files(base.Value()[l]) + AddedAt(edit.newFiles, l))
      requires forall l | 0 <= l < NUM_LEVELS :: Files(base.Value()[l]) !! AddedAt(edit.newFiles, l)
      modifies `known, known`refs
      ensures fresh(v) && v.refs == 0 && v.WellMade()
      ensures FilesOk({v}) && fresh(known - old(known))
      ensures Edited(base.Value(), edit, v.Value())
    {
      hide FileCounts;
      hide CanSave;
      hide SavedLevel;
      hide NoRepeats;
      ghost var namers := Nodes(live);
      assert namers + {} == namers;
      CountedFiles(known, namers, base);
      var builder := ApplyTo(base.Value(), edit);
      var added := NewFiles(builder.addedFiles, known, namers);
      known := known + FilesOf(added);
      CanSaveEdit(base, added, builder.deletedFiles, edit);
      var files := SaveTo(base.files, added, builder.deletedFiles, known, namers);
      v := new LiveVersion(files);
      SavedIsEdited(base, added, builder.deletedFiles, edit, v);
      PushedAreNamed(known, namers, FilesOf(added), v);
      known := DropFiles(added, known, namers + {v});
    }

    method ApplyTo(base: Version, edit: VersionEdit) returns (builder: Builder)
      requires LevelsSorted(base) && LevelsInRange(edit)
      requires forall l | 0 <= l < NUM_LEVELS :: NumbersNameFiles(Files(base[l]) + AddedAt(edit.newFiles, l))
      ensures fresh(builder) && builder.Valid()
      ensures forall l | 0 <= l < NUM_LEVELS ::
        && Files(builder.addedFiles[l]) == AddedAt(edit.newFiles, l)
        && builder.deletedFiles[l] == DeletedAt(edit, l) - Numbers(AddedAt(edit.newFiles, l))
    {
      builder := new Builder(base);
      forall l | 0 <= l < NUM_LEVELS
        ensures NumbersNameFiles(Files(builder.addedFiles[l]) + AddedAt(edit.newFiles, l))
      {
        SubsetNames(Files(builder.addedFiles[l]) + AddedAt(edit.newFiles, l),
          Files(base[l]) + AddedAt(edit.newFiles, l));
      }
      builder.Apply(edit);
    }
  }

  method NumbersIn(v: LiveVersion) returns (numbers: set<nat>)
    ensures numbers == FileNumbers(v.Value())
  {
    numbers := {};
    for l := 0 to NUM_LEVELS
      invariant numbers == set m, f | 0 <= m < l && f in Plain(v.files[m]) :: f.number
    {
      var before := numbers;
      for i := 0 to |v.files[l]|
        invariant numbers == before + set f | f in Plain(v.files[l])[..i] :: f.number
      {
        assert Plain(v.files[l])[..i + 1] == Plain(v.files[l])[..i] + [v.files[l][i].file];
        numbers := numbers + {v.files[l][i].file.number};
      }
      assert Plain(v.files[l])[..|v.files[l]|] == Plain(v.files[l]);
    }
  }

  /** The builder's sets for one edit. */
  ghost predicate BuiltFrom(edit: VersionEdit, added: seq<seq<FileMetaData>>, deleted: seq<set<nat>>) {
    |added| == |deleted| == NUM_LEVELS && forall l | 0 <= l < NUM_LEVELS ::
      && SortedFiles(Plain(added[l])) && Files(Plain(added[l])) == AddedAt(edit.newFiles, l)
      && deleted[l] == DeletedAt(edit, l) - Numbers(AddedAt(edit.newFiles, l))
  }

  lemma CanSaveEdit(base: LiveVersion, added: seq<seq<FileMetaData>>, deleted: seq<set<nat>>, edit: VersionEdit)
    requires base.WellMade() && BuiltFrom(edit, added, deleted) && NoRepeats(added)
    requires FilesOf(base.files) !! FilesOf(added)
    requires forall l | 0 <= l < NUM_LEVELS :: NumbersNameFiles(Files(base.Value()[l]) + AddedAt(edit.newFiles, l))
    requires forall l | 0 <= l < NUM_LEVELS :: Files(base.Value()[l]) !! AddedAt(edit.newFiles, l)
    ensures CanSave(base.files, added, deleted)
  {
    hide SortedFiles;
    hide NumbersNameFiles;
    hide NoRepeats;
    forall l | 0 <= l < NUM_LEVELS ensures Files(Plain(base.files[l])) !! Files(Plain(added[l])) {
      assert base.Value()[l] == Plain(base.files[l]);
    }
    forall l, f | 0 <= l < NUM_LEVELS && f in Plain(base.files[l]) ensures f !in Plain(added[l]) {
      assert f in Files(Plain(base.files[l])) && f !in Files(Plain(added[l]));
    }
  }

  /** Survivors of base and additions are what the edit installs. */
  lemma SavedIsEdited(base: LiveVersion, added: seq<seq<FileMetaData>>, deleted: seq<set<nat>>, edit: VersionEdit,
      v: LiveVersion)
    requires BuiltFrom(edit, added, deleted)
    requires forall l | 0 <= l < NUM_LEVELS :: SavedLevel(v.files[l], base.files[l], added[l], deleted[l])
    ensures Edited(base.Value(), edit, v.Value())
    ensures forall l | 0 <= l < NUM_LEVELS :: SortedFiles(Plain(v.files[l]))
  {
    hide SortedFiles;
    forall l | 0 <= l < NUM_LEVELS ensures Files(v.Value()[l]) == Install(Files(base.Value()[l]), ChangeAt(edit, l)) {
      assert SavedLevel(v.files[l], base.files[l], added[l], deleted[l]);
    }
  }

  lemma SomeNode(items: seq<LiveVersion>)
    ensures items != [] ==> Nodes(items) != {}
  {
    if items != [] { assert items[0] in Nodes(items); }
  }

  lemma EmptyCircle(dummy: LiveVersion)
    requires dummy.next == dummy && dummy.prev == dummy
    ensures Circle(dummy, [])
  {
  }

  lemma EmptyValue(v: LiveVersion)
    requires v.files == [[], [], [], [], [], [], []]
    ensures v.Value() == [[], [], [], [], [], [], []]
  {
    assert forall l | 0 <= l < NUM_LEVELS :: v.Value()[l] == [];
  }

  lemma NothingCounted(v: LiveVersion)
    requires v.files == [[], [], [], [], [], [], []]
    ensures v.WellMade() && FileCounts({}, Nodes([]) + {v}, {}, {})
  {
    assert FilesOf(v.files) == {};
  }

  lemma CountedFiles(known: set<FileMetaData>, namers: set<LiveVersion>, v: LiveVersion)
    requires FileCounts(known, namers, {}, {}) && v in namers
    ensures FilesOf(v.files) <= known
  {
  }

  lemma DistinctNodes(dummy: LiveVersion, items: seq<LiveVersion>)
    requires Circle(dummy, items)
    ensures forall i, j | 0 <= i < j < |items| :: items[i] != items[j]
  {
  }

  lemma Swapped(known: set<FileMetaData>, namers: set<LiveVersion>, files: set<FileMetaData>)
    ensures FileCounts(known, namers, {}, files) <==> FileCounts(known, namers, files, {})
  {
  }
}
