/**
 Table files, versions and reads from them (version_set.cc).  A Version is immutable once it has been saved,
 so it is a value: the list of files of each level.
 */
module Versions {
  import opened InternalKeys

  const NUM_LEVELS := 7
  const MAX_MEM_COMPACT_LEVEL := 2

  datatype File = File(number: nat, size: nat, smallest: InternalKey, largest: InternalKey, entries: seq<Entry>)

  predicate WellFormed(f: File) {
    && |f.entries| > 0 && Sorted(f.entries)
    && f.smallest == f.entries[0].key && f.largest == f.entries[|f.entries| - 1].key
  }

  type Version = v: seq<seq<File>> | |v| == NUM_LEVELS witness [[], [], [], [], [], [], []]

  function FileNumbers(v: Version): (r: set<nat>) {
    set l, f | 0 <= l < NUM_LEVELS && f in v[l] :: f.number
  }

  /** Who may hold a reference to a version: a lookup, an iterator, the running compaction, the builder of an edit. */
  datatype Holder = Lookup(id: nat) | Iteration(id: nat) | RunningCompaction | EditBase

  lemma RangeIsNonempty(f: File)
    requires WellFormed(f)
    ensures AtMost(f.smallest, f.largest) && f.smallest.user <= f.largest.user
  {
  }

  lemma EntryInRange(f: File, e: Entry)
    requires WellFormed(f) && e in f.entries
    ensures AtMost(f.smallest, e.key) && AtMost(e.key, f.largest)
    ensures f.smallest.user <= e.key.user <= f.largest.user
  {
  }

  // ----- the invariant of the tree -----

  /** Order of the files of one level: smallest key, ties broken by file number. */
  predicate BySmallest(f: File, g: File) {
    Less(f.smallest, g.smallest) || (f.smallest == g.smallest && f.number < g.number)
  }

  ghost predicate SortedFiles(files: seq<File>) {
    forall i, j {:trigger BySmallest(files[i], files[j])} | 0 <= i < j < |files| :: BySmallest(files[i], files[j])
  }

  ghost predicate Apart(f: File, g: File) {
    Less(f.largest, g.smallest) || Less(g.largest, f.smallest)
  }

  ghost predicate PairwiseApart(files: seq<File>) {
    forall f, g {:trigger Apart(f, g)} | f in files && g in files && f != g :: Apart(f, g)
  }

  /** Files of one level in ascending, non-overlapping order of internal keys. */
  ghost predicate Ordered(files: seq<File>) {
    && (forall i | 0 <= i < |files| :: WellFormed(files[i]))
    && (forall i, j | 0 <= i < j < |files| :: Less(files[i].largest, files[j].smallest))
  }

  lemma ApartIsOrdered(files: seq<File>)
    requires forall f | f in files :: WellFormed(f)
    requires SortedFiles(files) && PairwiseApart(files)
    ensures Ordered(files)
  {
    forall i, j | 0 <= i < j < |files|
      ensures Less(files[i].largest, files[j].smallest)
    {
      var f, g := files[i], files[j];
      assert BySmallest(f, g) && (f == g || Apart(f, g));
      RangeIsNonempty(f);
      RangeIsNonempty(g);
    }
  }

  /** A read meets file f of level l before file g of level m. */
  ghost predicate Above(l: nat, f: File, m: nat, g: File) {
    l < m || (l == m == 0 && f.number > g.number)
  }

  ghost predicate AllWellFormed(v: Version) {
    forall l, f {:trigger f in v[l]} | 0 <= l < NUM_LEVELS && f in v[l] :: WellFormed(f)
  }

  ghost predicate LevelsOrdered(v: Version) {
    && (forall l | 0 <= l < NUM_LEVELS :: SortedFiles(v[l]))
    && (forall l | 1 <= l < NUM_LEVELS :: PairwiseApart(v[l]))
  }

  ghost predicate SameNumber(l: nat, f: File, m: nat, g: File) {
    f.number == g.number
  }

  ghost predicate DistinctNumbers(v: Version) {
    forall l, m, f, g {:trigger SameNumber(l, f, m, g)}
      | 0 <= l < NUM_LEVELS && 0 <= m < NUM_LEVELS && f in v[l] && g in v[m] && SameNumber(l, f, m, g) ::
        l == m && f == g
  }

  ghost predicate AgeOrdered(v: Version) {
    forall l, m, f, g {:trigger Above(l, f, m, g)}
      | 0 <= l < NUM_LEVELS && 0 <= m < NUM_LEVELS && f in v[l] && g in v[m] && Above(l, f, m, g) ::
        NewerThan(f.entries, g.entries)
  }

  /** No two writes share a sequence number. */
  ghost predicate DistinctSequences(v: Version) {
    forall x, y {:trigger Stored(v, x), Stored(v, y)} | Stored(v, x) && Stored(v, y)
      && x.key.sequence == y.key.sequence :: x == y
  }

  /**
   Levels from 1 on are sorted and disjoint, and for each user key shallower (or, in level 0, higher-numbered) is newer.
   */
  ghost predicate LsmInvariant(v: Version) {
    AllWellFormed(v) && LevelsOrdered(v) && DistinctNumbers(v) && AgeOrdered(v)
  }

  ghost predicate Stored(v: Version, e: Entry) {
    exists l, f {:trigger f in v[l]} :: 0 <= l < NUM_LEVELS && f in v[l] && e in f.entries
  }

  // ----- searching a level -----

  method FindFile(files: seq<File>, key: InternalKey) returns (r: nat)
    requires Ordered(files)
    ensures r <= |files|
    ensures forall i | 0 <= i < r :: Less(files[i].largest, key)
    ensures forall i | r <= i < |files| :: AtMost(key, files[i].largest)
  {
    var left, right := 0, |files|;
    while left < right
      invariant 0 <= left <= right <= |files|
      invariant forall i | 0 <= i < left :: Less(files[i].largest, key)
      invariant forall i | right <= i < |files| :: AtMost(key, files[i].largest)
    {
      var mid := (left + right) / 2;
      RangeIsNonempty(files[mid]);
      if Less(files[mid].largest, key) {
        forall i | 0 <= i < mid ensures Less(files[i].largest, key) {
          assert Less(files[i].largest, files[mid].smallest);
        }
        left := mid + 1;
      } else {
        forall i | mid < i < |files| ensures AtMost(key, files[i].largest) {
          assert Less(files[mid].largest, files[i].smallest);
          RangeIsNonempty(files[i]);
        }
        right := mid;
      }
    }
    return right;
  }

  predicate AfterFile(user: Option<UserKey>, f: File) {
    user.Some? && user.value > f.largest.user
  }

  predicate BeforeFile(user: Option<UserKey>, f: File) {
    user.Some? && user.value < f.smallest.user
  }

  /** f's user-key range meets [lo, hi]; None is an end that is unbounded. */
  predicate Overlaps(f: File, lo: Option<UserKey>, hi: Option<UserKey>) {
    !AfterFile(lo, f) && !BeforeFile(hi, f)
  }

  method SomeFileOverlapsRange(disjointSorted: bool, files: seq<File>, lo: Option<UserKey>, hi: Option<UserKey>)
    returns (r: bool)
    requires disjointSorted ==> Ordered(files)
    requires lo.Some? && hi.Some? ==> lo.value <= hi.value
    ensures r <==> exists f :: f in files && Overlaps(f, lo, hi)
  {
    if !disjointSorted {
      for i := 0 to |files|
        invariant forall j | 0 <= j < i :: !Overlaps(files[j], lo, hi)
      {
        if !(AfterFile(lo, files[i]) || BeforeFile(hi, files[i])) {
          assert files[i] in files;
          return true;
        }
      }
      return false;
    }
    var index := 0;
    if lo.Some? {
      var smallKey := SeekKey(lo.value, MAX_SEQUENCE);
      index := FindFile(files, smallKey);
      assert forall i | 0 <= i < index :: AfterFile(lo, files[i]) by {
        forall i | 0 <= i < index ensures AfterFile(lo, files[i]) {
          if files[i].largest.user == lo.value { SeekKeyBound(lo.value, MAX_SEQUENCE, files[i].largest); }
        }
      }
    }
    if index >= |files| {
      return false;
    }
    r := !BeforeFile(hi, files[index]);
    if r {
      assert Overlaps(files[index], lo, hi);
    } else {
      forall i | index < i < |files| ensures BeforeFile(hi, files[i]) {
        assert Less(files[index].largest, files[i].smallest);
        RangeIsNonempty(files[index]);
      }
    }
  }

  // ----- Version::Get -----

  /** What SaveValue leaves behind for one lookup. */
  datatype Saver = NotFound | Found(value: Bytes) | Deleted

  function Saved(e: Entry): (r: Saver) {
    if e.key.kind.Value? then Found(e.value) else Deleted
  }

  ghost predicate Matches(e: Entry, user: UserKey, s: SequenceNumber) {
    e.key.user == user && e.key.sequence <= s
  }

  /** Seek in one sorted run and keep the entry found if it has the wanted user key. */
  function RunGet(run: seq<Entry>, user: UserKey, s: SequenceNumber): (r: Saver)
    requires Sorted(run)
    ensures r.NotFound? ==> forall x | x in run :: !Matches(x, user, s)
    ensures !r.NotFound? ==> exists e | e in run ::
      Matches(e, user, s) && r == Saved(e) && forall x | x in run && Matches(x, user, s) ::
        x.key.sequence <= e.key.sequence
  {
    var i := SeekIndex(run, SeekKey(user, s));
    if i < |run| && run[i].key.user == user then
      assert run[i] in run;
      Saved(run[i])
    else
      assert forall x | x in run :: !Matches(x, user, s) by {
        forall x | x in run ensures !Matches(x, user, s) {
          if Matches(x, user, s) { SeekKeyBound(user, s, x.key); }
        }
      }
      NotFound
  }

  function InsertNewestFirst(f: File, files: seq<File>): (r: seq<File>)
    requires forall i, j | 0 <= i < j < |files| :: files[i].number >= files[j].number
    ensures forall g :: g in r <==> g == f || g in files
    ensures forall i, j | 0 <= i < j < |r| :: r[i].number >= r[j].number
  {
    if files == [] || f.number >= files[0].number then [f] + files
    else
      var rest := InsertNewestFirst(f, files[1..]);
      assert forall j | 0 <= j < |rest| :: rest[j] in rest;
      [files[0]] + rest
  }

  /** std::sort with NewestFirst: descending file numbers, same files. */
  function SortNewestFirst(files: seq<File>): (r: seq<File>)
    ensures forall g :: g in r <==> g in files
    ensures forall i, j | 0 <= i < j < |r| :: r[i].number >= r[j].number
  {
    if files == [] then [] else InsertNewestFirst(files[0], SortNewestFirst(files[1..]))
  }

  ghost predicate NewestIn(v: Version, user: UserKey, s: SequenceNumber, e: Entry) {
    Stored(v, e) && Matches(e, user, s) && forall x | Stored(v, x) && Matches(x, user, s) ::
      x.key.sequence <= e.key.sequence
  }

  /** No file of the levels above `level` holds a matching entry. */
  ghost predicate NothingAbove(v: Version, level: nat, user: UserKey, s: SequenceNumber)
    requires level <= NUM_LEVELS
  {
    forall l, f, e | 0 <= l < level && f in v[l] && e in f.entries :: !Matches(e, user, s)
  }

  lemma FoundIsNewer(v: Version, level: nat, f: File, e: Entry, m: nat, g: File, x: Entry)
    requires LsmInvariant(v) && level <= m < NUM_LEVELS && f in v[level]
    requires g in v[m]
    requires g != f || m != level
    requires e in f.entries && x in g.entries && e.key.user == x.key.user
    requires level == m == 0 ==> g.number <= f.number
    requires level == m > 0 ==> !Less(g.largest, f.smallest)
    ensures x.key.sequence <= e.key.sequence
  {
    EntryInRange(f, e);
    EntryInRange(g, x);
    if level == m && level > 0 {
      assert Apart(f, g);
    } else if level == m {
      assert SameNumber(0, f, 0, g) || Above(0, f, 0, g);
    } else {
      assert Above(level, f, m, g);
    }
  }

  lemma FoundIsNewest(v: Version, level: nat, f: File, user: UserKey, s: SequenceNumber)
    requires LsmInvariant(v) && level < NUM_LEVELS && f in v[level]
    requires NothingAbove(v, level, user, s)
    requires level == 0 ==> forall g, x | g in v[0] && g.number > f.number && x in g.entries :: !Matches(x, user, s)
    requires level > 0 ==> forall g, x | g in v[level] && Less(g.largest, f.smallest) && x in g.entries ::
      !Matches(x, user, s)
    requires !RunGet(f.entries, user, s).NotFound?
    ensures exists e :: NewestIn(v, user, s, e) && RunGet(f.entries, user, s) == Saved(e)
  {
    var e :| e in f.entries && Matches(e, user, s) && RunGet(f.entries, user, s) == Saved(e)
      && forall x | x in f.entries && Matches(x, user, s) :: x.key.sequence <= e.key.sequence;
    assert Stored(v, e);
    forall x | Stored(v, x) && Matches(x, user, s)
      ensures x.key.sequence <= e.key.sequence
    {
      var m, g :| 0 <= m < NUM_LEVELS && g in v[m] && x in g.entries;
      if g != f || m != level {
        FoundIsNewer(v, level, f, e, m, g, x);
      }
    }
    assert NewestIn(v, user, s, e);
  }

  ghost predicate LastMatches(f: File, user: UserKey, s: SequenceNumber) {
    |f.entries| > 0 && Matches(f.entries[|f.entries| - 1], user, s)
  }

  /** Binary search opens one file; an entry it skips lies past that file, whose own last entry then matches too. */
  lemma SkippedFileIsPast(files: seq<File>, index: nat, f: File, e: Entry, user: UserKey, s: SequenceNumber)
    requires Ordered(files) && f in files && e in f.entries
    requires Matches(e, user, s)
    requires index <= |files|
    requires forall i | 0 <= i < index :: Less(files[i].largest, SeekKey(user, s))
    requires forall i | index <= i < |files| :: AtMost(SeekKey(user, s), files[i].largest)
    ensures index < |files| && files[index].smallest.user <= user
    ensures f != files[index] ==> Less(files[index].largest, f.smallest) && LastMatches(files[index], user, s)
  {
    EntryInRange(f, e);
    SeekKeyBound(user, s, e.key);
    var i :| 0 <= i < |files| && files[i] == f;
    if index < i {
      assert Less(files[index].largest, files[i].smallest);
      RangeIsNonempty(files[index]);
    }
  }

  /** The files of one level that a lookup has to open, newest first. */
  method FilesToSearch(v: Version, level: nat, user: UserKey, s: SequenceNumber) returns (files: seq<File>)
    requires LsmInvariant(v) && level < NUM_LEVELS
    ensures forall f | f in files :: f in v[level] && f.smallest.user <= user <= f.largest.user
    ensures forall f, e | f in v[level] && f !in files && e in f.entries && Matches(e, user, s)
      :: level > 0 && |files| == 1 && Less(files[0].largest, f.smallest) && LastMatches(files[0], user, s)
    ensures level == 0 ==> forall i, j | 0 <= i < j < |files| :: files[i].number >= files[j].number
    ensures level > 0 ==> |files| <= 1
  {
    if level == 0 {
      var tmp := [];
      for i := 0 to |v[0]|
        invariant forall f :: f in tmp <==> exists j | 0 <= j < i ::
          v[0][j] == f && f.smallest.user <= user <= f.largest.user
      {
        if user >= v[0][i].smallest.user && user <= v[0][i].largest.user {
          tmp := tmp + [v[0][i]];
        }
      }
      files := SortNewestFirst(tmp);
      forall f, e | f in v[0] && e in f.entries && Matches(e, user, s) ensures f in files {
        EntryInRange(f, e);
      }
    } else {
      ApartIsOrdered(v[level]);
      var ikey := SeekKey(user, s);
      var index := FindFile(v[level], ikey);
      if index >= |v[level]| || user < v[level][index].smallest.user {
        files := [];
      } else {
        files := [v[level][index]];
      }
      forall f, e | f in v[level] && f !in files && e in f.entries && Matches(e, user, s)
        ensures |files| == 1 && Less(files[0].largest, f.smallest) && LastMatches(files[0], user, s)
      {
        SkippedFileIsPast(v[level], index, f, e, user, s);
      }
    }
  }

  /**
   Level-by-level search with early stop returns exactly the newest entry at or below `s`, even when one user
   key spans several files of a level.
   */
  method Get(v: Version, user: UserKey, s: SequenceNumber) returns (r: Saver)
    requires LsmInvariant(v)
    ensures r.NotFound? ==> forall e | Stored(v, e) :: !Matches(e, user, s)
    ensures !r.NotFound? ==> exists e :: NewestIn(v, user, s, e) && r == Saved(e)
  {
    for level := 0 to NUM_LEVELS
      invariant NothingAbove(v, level, user, s)
    {
      var files := FilesToSearch(v, level, user, s);
      for i := 0 to |files|
        invariant forall j, x | 0 <= j < i && x in files[j].entries :: !Matches(x, user, s)
      {
        var f := files[i];
        assert f in files;
        r := RunGet(f.entries, user, s);
        if !r.NotFound? {
          SearchedNewer(v, level, files, i, user, s);
          FoundIsNewest(v, level, f, user, s);
          return;
        }
      }
      assert NothingAbove(v, level + 1, user, s) by {
        forall l, f, e | 0 <= l < level + 1 && f in v[l] && e in f.entries ensures !Matches(e, user, s) {
          if l == level && f in files {
            var j :| 0 <= j < |files| && files[j] == f;
          } else if l == level && Matches(e, user, s) {
            assert false;
          }
        }
      }
    }
    r := NotFound;
  }

  lemma SearchedNewer(v: Version, level: nat, files: seq<File>, i: nat, user: UserKey, s: SequenceNumber)
    requires LsmInvariant(v) && level < NUM_LEVELS && i < |files|
    requires forall f | f in files :: f in v[level]
    requires forall f, e | f in v[level] && f !in files && e in f.entries && Matches(e, user, s)
      :: level > 0 && |files| == 1 && Less(files[0].largest, f.smallest) && LastMatches(files[0], user, s)
    requires level == 0 ==> forall i, j | 0 <= i < j < |files| :: files[i].number >= files[j].number
    requires level > 0 ==> |files| == 1
    requires forall j, x | 0 <= j < i && x in files[j].entries :: !Matches(x, user, s)
    ensures level == 0 ==> forall g, x | g in v[0] && g.number > files[i].number && x in g.entries ::
      !Matches(x, user, s)
    ensures level > 0 ==> forall g, x | g in v[level] && Less(g.largest, files[i].smallest) && x in g.entries ::
      !Matches(x, user, s)
  {
    if level > 0 {
      forall g, x | g in v[level] && Less(g.largest, files[i].smallest) && x in g.entries
        ensures !Matches(x, user, s)
      {
        assert files[i] in files;
        EntryInRange(g, x);
        RangeIsNonempty(files[i]);
      }
    }
  }
}
