/**
 Which cursors a merged read goes over (version_set.cc: Version::AddIterators, MakeInputIterator): every file that may
 overlap others is a run of its own, the files of a deeper level are one run, read one after the other.
 */
module Runs {
  import opened InternalKeys
  import opened Versions
  import opened CompactionInputs
  import opened LsmSteps
  import opened Cursors
  import opened MergingIterators
  import opened TwoLevelIterators

  // ----- sets of runs -----

  ghost predicate InRuns(runs: seq<seq<Entry>>, e: Entry) {
    exists i {:trigger runs[i]} :: 0 <= i < |runs| && e in runs[i]
  }

  ghost predicate DisjointRuns(runs: seq<seq<Entry>>) {
    forall i, j {:trigger runs[i], runs[j]} | 0 <= i < j < |runs| :: forall e | e in runs[i] :: e !in runs[j]
  }

  ghost predicate DistinctPool(pool: iset<Entry>) {
    forall x, y | x in pool && y in pool && x.key.sequence == y.key.sequence :: x == y
  }

  lemma AddRun(runs: seq<seq<Entry>>, run: seq<Entry>)
    requires SortedRuns(runs) && DisjointRuns(runs) && Sorted(run)
    requires forall e | e in run :: !InRuns(runs, e)
    ensures SortedRuns(runs + [run]) && DisjointRuns(runs + [run])
    ensures forall e :: InRuns(runs + [run], e) <==> InRuns(runs, e) || e in run
  {
    var all := runs + [run];
    forall e ensures InRuns(all, e) <==> InRuns(runs, e) || e in run {
      if InRuns(runs, e) {
        var i :| 0 <= i < |runs| && e in runs[i];
        assert all[i] == runs[i];
      }
      if e in run { assert all[|runs|] == run; }
    }
  }

  /** Disjoint sorted runs are what a merging iterator takes. */
  lemma RunsAreMergeable(runs: seq<seq<Entry>>, pool: iset<Entry>)
    requires DistinctPool(pool) && DisjointRuns(runs)
    requires forall e | InRuns(runs, e) :: e in pool
    ensures NoSharedKeys(Unplaced(runs))
  {
    var children := Unplaced(runs);
    forall i: nat, j: nat, x, y | HeldBy(children, i, x) && HeldBy(children, j, y) && i != j ensures x.key != y.key {
      assert x in runs[i] && y in runs[j] && InRuns(runs, x) && InRuns(runs, y);
      assert x in pool && y in pool;
    }
  }

  /** Their union holds what they hold. */
  lemma UnionHoldsRuns(runs: seq<seq<Entry>>, union: seq<Entry>)
    requires Merged(Unplaced(runs), union)
    ensures forall e :: e in union <==> InRuns(runs, e)
  {
    var children := Unplaced(runs);
    forall e ensures e in union <==> InRuns(runs, e) {
      InUnion(children, union, e);
      if InRuns(runs, e) {
        var i :| 0 <= i < |runs| && e in runs[i];
        assert HeldBy(children, i, e);
      }
      if HasHolder(children, e) {
        var i: nat :| HeldBy(children, i, e);
        assert e in runs[i];
      }
    }
  }

  // ----- the runs of files -----

  ghost predicate InFiles(files: seq<File>, e: Entry) {
    exists f :: f in files && e in f.entries
  }

  /** What a concatenating iterator walks through: the files of a level one after the other. */
  function Concatenated(files: seq<File>): (r: seq<Entry>) {
    if files == [] then [] else Concatenated(files[..|files| - 1]) + files[|files| - 1].entries
  }

  lemma {:induction false} ConcatenatedHas(files: seq<File>, e: Entry)
    ensures e in Concatenated(files) <==> InFiles(files, e)
  {
    if files != [] {
      var front, last := files[..|files| - 1], files[|files| - 1];
      ConcatenatedHas(front, e);
      assert files == front + [last];
    }
  }

  lemma {:induction false} ConcatenatedSorted(files: seq<File>)
    requires Ordered(files)
    ensures Sorted(Concatenated(files))
  {
    if files != [] {
      var n := |files| - 1;
      var front, last := files[..n], files[n];
      assert forall i | 0 <= i < n :: front[i] == files[i];
      ConcatenatedSorted(front);
      forall x, y | x in Concatenated(front) && y in last.entries ensures Less(x.key, y.key) {
        ConcatenatedHas(front, x);
        var f :| f in front && x in f.entries;
        assert Less(f.largest, last.smallest);
        EntryInRange(f, x);
        EntryInRange(last, y);
      }
      AppendSorted(Concatenated(front), last.entries);
    }
  }

  lemma AppendSorted(a: seq<Entry>, b: seq<Entry>)
    requires Sorted(a) && Sorted(b) && forall x, y | x in a && y in b :: Less(x.key, y.key)
    ensures Sorted(a + b)
  {
  }

  /** What the runs hold once the files have been added. */
  ghost predicate Added(runs: seq<seq<Entry>>, given: seq<seq<Entry>>, files: seq<File>) {
    SortedRuns(runs) && DisjointRuns(runs) && forall e :: InRuns(runs, e) <==> InRuns(given, e) || InFiles(files, e)
  }

  ghost predicate ShareNothing(files: seq<File>) {
    forall i, j, e | 0 <= i < j < |files| && e in files[j].entries :: e !in files[i].entries
  }

  /** Files that may overlap: each is a run of its own. */
  method AddEachFile(files: seq<File>, given: seq<seq<Entry>>) returns (runs: seq<seq<Entry>>)
    requires SortedRuns(given) && DisjointRuns(given) && ShareNothing(files)
    requires forall f | f in files :: WellFormed(f)
    requires forall e | InFiles(files, e) :: !InRuns(given, e)
    ensures Added(runs, given, files)
  {
    runs := given;
    for i := 0 to |files|
      invariant Added(runs, given, files[..i])
    {
      var f := files[i];
      assert f in files && files[..i + 1] == files[..i] + [f];
      forall e | e in f.entries ensures !InRuns(runs, e) {
        assert InFiles(files, e);
        assert !InFiles(files[..i], e);
      }
      AddRun(runs, f.entries);
      runs := runs + [f.entries];
    }
    assert files[..|files|] == files;
  }

  /** Files in order and apart: one run for all of them. */
  method AddConcatenated(files: seq<File>, given: seq<seq<Entry>>) returns (runs: seq<seq<Entry>>)
    requires SortedRuns(given) && DisjointRuns(given) && Ordered(files)
    requires forall e | InFiles(files, e) :: !InRuns(given, e)
    ensures Added(runs, given, files)
  {
    ConcatenatedSorted(files);
    forall e ensures e in Concatenated(files) <==> InFiles(files, e) { ConcatenatedHas(files, e); }
    AddRun(given, Concatenated(files));
    runs := given + [Concatenated(files)];
  }

  // ----- the concatenating iterator -----

  /** What a LevelFileNumIterator goes over: for every file its largest key and its number and size, encoded. */
  function LevelIndex(files: seq<File>, fileValue: File -> Bytes): (r: seq<Entry>) {
    seq(|files|, i requires 0 <= i < |files| => Entry(files[i].largest, fileValue(files[i])))
  }

  /** LevelFileNumIterator::Seek. */
  method SeekFile(files: seq<File>, fileValue: File -> Bytes, target: InternalKey) returns (at: Position)
    requires Ordered(files)
    ensures at == ToSeek(LevelIndex(files, fileValue), target)
  {
    var i := FindFile(files, target);
    LevelIndexSorted(files, fileValue);
    SeekIndexIs(LevelIndex(files, fileValue), target, i);
    at := if i < |files| then Some(i) else None;
  }

  lemma LevelIndexSorted(files: seq<File>, fileValue: File -> Bytes)
    requires Ordered(files)
    ensures Sorted(LevelIndex(files, fileValue))
  {
    forall i, j | 0 <= i < j < |files| ensures Less(files[i].largest, files[j].largest) {
      RangeIsNonempty(files[j]);
    }
  }

  lemma LevelIndexSeparates(files: seq<File>, fileValue: File -> Bytes, open: Bytes -> seq<Entry>)
    requires Ordered(files) && forall f | f in files :: open(fileValue(f)) == f.entries
    ensures Separates(LevelIndex(files, fileValue), open)
  {
    var index := LevelIndex(files, fileValue);
    LevelIndexSorted(files, fileValue);
    forall i | 0 <= i < |files| ensures BlockAt(index, open, i) == files[i].entries {
      assert files[i] in files;
    }
    forall i, e | 0 <= i < |files| && e in files[i].entries
      ensures AtMost(e.key, files[i].largest) && forall j | 0 <= j < i :: Less(files[j].largest, e.key)
    {
      EntryInRange(files[i], e);
    }
  }

  lemma {:induction false} JoinedIsConcatenated(files: seq<File>, fileValue: File -> Bytes, open: Bytes -> seq<Entry>,
      n: nat)
    requires n <= |files| && forall f | f in files :: open(fileValue(f)) == f.entries
    ensures Joined(LevelIndex(files, fileValue), open, n) == Concatenated(files[..n])
  {
    if n > 0 {
      JoinedIsConcatenated(files, fileValue, open, n - 1);
      assert files[..n][..n - 1] == files[..n - 1] && files[n - 1] in files;
    }
  }

  /**
   `open` is TableCache::NewIterator: the table with that number and size. The cursor goes over the level as one run.
   */
  method NewConcatenatingIterator(files: seq<File>, fileValue: File -> Bytes, open: Bytes -> seq<Entry>)
      returns (it: TwoLevelIterator)
    requires Ordered(files) && forall f | f in files :: open(fileValue(f)) == f.entries
    ensures fresh(it) && it.Valid() && it.At() == None
    ensures it.All() == Concatenated(files)
  {
    LevelIndexSeparates(files, fileValue, open);
    it := new TwoLevelIterator(LevelIndex(files, fileValue), open);
    JoinedIsConcatenated(files, fileValue, open, |files|);
    assert files[..|files|] == files;
  }

  // ----- MakeInputIterator -----

  /** The inputs of a compaction of stored files: no entry is in two of them, and none is written twice. */
  ghost predicate Mergeable(c: Inputs, pool: iset<Entry>) {
    && DistinctPool(pool) && (forall e | FromInputs(c, e) :: e in pool)
    && (forall f | f in c.in0 :: WellFormed(f)) && InputsInOrder(c)
    && (c.level == 0 ==> ShareNothing(c.in0)) && forall e | InFiles(c.in1, e) :: !InFiles(c.in0, e)
  }

  /** The merged inputs of a compaction: a cursor on the input entries in order. */
  method MakeInputIterator(c: Inputs, ghost pool: iset<Entry>) returns (it: MergingIterator)
    requires Mergeable(c, pool)
    ensures fresh(it) && it.Valid() && it.At() == None
    ensures forall e :: e in it.union <==> FromInputs(c, e)
  {
    hide MergingIterator.Valid;
    var runs := [];
    if c.in0 != [] {
      if c.level == 0 {
        runs := AddEachFile(c.in0, runs);
      } else {
        runs := AddConcatenated(c.in0, runs);
      }
    }
    if c.in1 != [] {
      runs := AddConcatenated(c.in1, runs);
    }
    forall e ensures InRuns(runs, e) <==> FromInputs(c, e) { InputsAreInFiles(c, e); }
    RunsAreMergeable(runs, pool);
    it := new MergingIterator(runs);
    UnionHoldsRuns(runs, it.union);
  }

  lemma InputsAreInFiles(c: Inputs, e: Entry)
    ensures FromInputs(c, e) <==> InFiles(c.in0, e) || InFiles(c.in1, e)
  {
    if FromInputs(c, e) {
      var f :| f in AllInputs(c) && e in f.entries;
      assert f in c.in0 || f in c.in1;
    }
    if InFiles(c.in0, e) || InFiles(c.in1, e) {
      var f :| (f in c.in0 || f in c.in1) && e in f.entries;
      assert f in AllInputs(c);
    }
  }
}
