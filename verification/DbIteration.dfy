/**
 DBImpl::NewIterator (db_impl.cc, version_set.cc): an iterator over the whole database moves over exactly the map of
 what was written up to its sequence number.
 */
module DbIteration {
  import opened InternalKeys
  import opened Versions
  import opened CompactionReads
  import opened Database
  import opened DatabaseInvariant
  import opened DbImpl
  import opened LiveVersions
  import opened Runs
  import opened Cursors
  import opened MergingIterators
  import opened DbIterators

  // ----- the runs of a version -----

  ghost predicate StoredBefore(v: Version, level: nat, e: Entry) {
    exists l, f {:trigger f in v[l]} :: 0 <= l < level && l < NUM_LEVELS && f in v[l] && e in f.entries
  }

  method AddIterators(v: Version, given: seq<seq<Entry>>) returns (runs: seq<seq<Entry>>)
    requires LsmInvariant(v) && SortedRuns(given) && DisjointRuns(given)
    requires forall e | InRuns(given, e) :: !Stored(v, e)
    ensures SortedRuns(runs) && DisjointRuns(runs)
    ensures forall e :: InRuns(runs, e) <==> InRuns(given, e) || Stored(v, e)
  {
    LevelIsNew(v, 0, given, given);
    LevelSharesNothing(v, v[0]);
    runs := AddEachFile(v[0], given);
    for level := 1 to NUM_LEVELS
      invariant SortedRuns(runs) && DisjointRuns(runs)
      invariant forall e :: InRuns(runs, e) <==> InRuns(given, e) || StoredBefore(v, level, e)
    {
      LevelIsNew(v, level, given, runs);
      if v[level] != [] {
        ApartIsOrdered(v[level]);
        runs := AddConcatenated(v[level], runs);
      }
      LevelAdded(v, level);
    }
    assert forall e :: Stored(v, e) <==> StoredBefore(v, NUM_LEVELS, e);
  }

  lemma LevelAdded(v: Version, level: nat)
    requires level < NUM_LEVELS
    ensures forall e :: StoredBefore(v, level + 1, e) <==> StoredBefore(v, level, e) || InFiles(v[level], e)
  {
  }

  lemma LevelIsNew(v: Version, level: nat, given: seq<seq<Entry>>, runs: seq<seq<Entry>>)
    requires LsmInvariant(v) && level < NUM_LEVELS && forall e | InRuns(given, e) :: !Stored(v, e)
    requires forall e :: InRuns(runs, e) <==> InRuns(given, e) || StoredBefore(v, level, e)
    ensures forall e | InFiles(v[level], e) :: !InRuns(runs, e)
  {
    forall e | InFiles(v[level], e) ensures !InRuns(runs, e) {
      var g :| g in v[level] && e in g.entries;
      assert Stored(v, e);
      if StoredBefore(v, level, e) {
        var l, f :| 0 <= l < level && f in v[l] && e in f.entries;
        FilesShareNothing(v, l, level, f, g, e);
      }
    }
  }

  // ----- the iterator of a database -----

  /** The map of what had been written by `s`. */
  ghost predicate IsWrittenMap(m: map<UserKey, Bytes>, history: seq<Entry>, s: nat)
    requires s <= |history|
  {
    forall u :: SpecGet(history, u, s) == if u in m then Some(m[u]) else None
  }

  lemma UnionShowsHistory(st: State, union: seq<Entry>, s: SequenceNumber)
    requires Inv(st) && st.horizon <= s <= |st.history| && Sorted(union)
    requires forall e :: e in union <==> e in All(st)
    ensures IsWrittenMap(Visible(union, s), st.history, s)
  {
    HeldInHistory(st);
    forall u ensures SpecGet(st.history, u, s) == if u in Visible(union, s) then Some(Visible(union, s)[u]) else None {
      assert View(st.history, All(st), u, s) == SpecGet(st.history, u, s);
      VisibleIsLookup(union, s, u);
      var r := RunGet(union, u, s);
      if r.NotFound? {
        NothingIsShown(st.history, All(st), u, s);
      } else {
        var e :| e in union && Matches(e, u, s) && r == Saved(e) && forall x | x in union && Matches(x, u, s) ::
          x.key.sequence <= e.key.sequence;
        NewestIsShown(st.history, All(st), u, s, e);
      }
    }
  }

  /** The iterator holds on to the current version until it is deleted. */
  method NewIterator(db: DB, id: nat, snapshot: Option<nat>) returns (it: DbIter, v: LiveVersion)
    requires db.Valid() && ReadsAgree(db.Abs()) && Iteration(id) !in db.versions.holders
    requires snapshot.Some? ==> snapshot.value in db.snapshots
    modifies db.versions`holders, db.versions.created`refs
    ensures db.Valid() && PinStep(old(db.Abs()), db.Abs())
    ensures db.versions.holders == old(db.versions.holders)[Iteration(id) := v]
    ensures it.Valid() && it.Current() == None
    ensures var s := if snapshot.Some? then snapshot.value else db.lastSequence;
      s <= |db.history| && IsWrittenMap(it.Map(), db.history, s)
  {
    hide VersionList.Valid;
    hide Shape;
    hide ReadsAgree;
    var s := if snapshot.Some? then snapshot.value else db.lastSequence;
    ghost var st := db.Abs();
    SnapshotIsLive(st, s);
    var runs := NewInternalIterator(db);
    v := db.RefVersion(Iteration(id));
    it := IterateOver(st, runs, s);
  }

  method IterateOver(ghost st: State, runs: seq<seq<Entry>>, s: SequenceNumber) returns (it: DbIter)
    requires Inv(st) && st.horizon <= s <= |st.history|
    requires SortedRuns(runs) && DisjointRuns(runs) && forall e :: InRuns(runs, e) <==> e in All(st)
    ensures it.Valid() && it.Current() == None && IsWrittenMap(it.Map(), st.history, s)
  {
    ghost var pool := All(st);
    AllIsDistinct(st);
    RunsAreMergeable(runs, pool);
    var internal := new MergingIterator(runs);
    UnionHoldsRuns(runs, internal.union);
    UnionShowsHistory(st, internal.union, s);
    it := new DbIter(internal, s);
  }

  /** The runs that the merging iterator is given: memtables first, then the files of the version. */
  method NewInternalIterator(db: DB) returns (runs: seq<seq<Entry>>)
    requires db.Valid()
    ensures SortedRuns(runs) && DisjointRuns(runs) && forall e :: InRuns(runs, e) <==> e in All(db.Abs())
  {
    hide VersionList.Valid;
    ghost var st := db.Abs();
    db.CurrentIsThere();
    runs := [];
    AddRun(runs, db.mem);
    runs := runs + [db.mem];
    if db.imm.Some? {
      AddRun(runs, db.imm.value);
      runs := runs + [db.imm.value];
    }
    assert forall e :: InRuns(runs, e) <==> e in Upper(st);
    runs := AddIterators(db.versions.Current(), runs);
  }
}
