/**
 How a compaction chooses its input files (version_set.cc): GetOverlappingInputs, AddBoundaryInputs,
 SetupOtherInputs and PickCompaction.
 */
module CompactionInputs {
  import opened InternalKeys
  import opened Versions

  function Files(s: seq<File>): (r: set<File>) {
    set f | f in s
  }

  // ----- user-key ranges -----

  predicate Covers(f: File, u: UserKey) {
    f.smallest.user <= u <= f.largest.user
  }

  ghost predicate SomeCovers(files: set<File>, u: UserKey) {
    exists f :: f in files && Covers(f, u)
  }

  /** The user-key ranges of the files join up into one interval without gaps. */
  ghost predicate Connected(files: set<File>) {
    forall f, g, u {:trigger f in files, g in files, SomeCovers(files, u)}
      | f in files && g in files && f.smallest.user <= u <= g.largest.user :: SomeCovers(files, u)
  }

  predicate Meets(f: File, lo: UserKey, hi: UserKey) {
    Overlaps(f, Some(lo), Some(hi))
  }

  /** Files that all meet one covered interval join up. */
  lemma StarIsConnected(files: set<File>, lo: UserKey, hi: UserKey)
    requires forall f | f in files :: Meets(f, lo, hi)
    requires forall u | lo <= u <= hi :: SomeCovers(files, u)
    ensures Connected(files)
  {
    forall f, g, u | f in files && g in files && f.smallest.user <= u <= g.largest.user
      ensures SomeCovers(files, u)
    {
      if u < lo { assert Covers(f, u); } else if u > hi { assert Covers(g, u); }
    }
  }

  /** From where m ends up to the end of every file added to `files`, the files of `r` leave no gap. */
  ghost predicate Extends(m: File, files: seq<File>, r: seq<File>) {
    forall b | b in r && b !in files ::
      m.largest.user <= b.smallest.user && forall u | m.largest.user <= u <= b.largest.user :: SomeCovers(Files(r), u)
  }

  predicate RangeOk(f: File) {
    f.smallest.user <= f.largest.user
  }

  /** Files that start where a member ends join the interval. */
  lemma ExtensionConnected(x: set<File>, m: File, files: seq<File>, r: seq<File>)
    requires Connected(x) && m in x && Files(files) <= x
    requires forall f | f in x :: RangeOk(f)
    requires Extends(m, files, r)
    ensures Connected(x + Files(r))
  {
    var all := x + Files(r);
    forall f, g, u | f in all && g in all && f.smallest.user <= u <= g.largest.user
      ensures SomeCovers(all, u)
    {
      if m.largest.user <= u && g !in x {
        assert SomeCovers(Files(r), u);
        var c :| c in Files(r) && Covers(c, u);
        assert c in all;
      } else {
        var f' := if f in x then f else m;
        var g' := if g in x then g else m;
        assert f'.smallest.user <= u <= g'.largest.user;
        assert SomeCovers(x, u);
        var c :| c in x && Covers(c, u);
        assert c in all;
      }
    }
  }

  // ----- GetOverlappingInputs -----

  /** The files that meet [lo, hi], in order. */
  function Overlapping(files: seq<File>, lo: Option<UserKey>, hi: Option<UserKey>): (r: seq<File>)
    ensures forall f :: f in r <==> f in files && Overlaps(f, lo, hi)
    ensures |r| <= |files|
  {
    if files == [] then []
    else
      var last := |files| - 1;
      var front := Overlapping(files[..last], lo, hi);
      assert files == files[..last] + [files[last]];
      if Overlaps(files[last], lo, hi) then front + [files[last]] else front
  }

  predicate Within(inner: Option<UserKey>, outer: Option<UserKey>, low: bool) {
    inner.Some? == outer.Some? && (inner.Some? ==>
      if low then outer.value <= inner.value else inner.value <= outer.value)
  }

  /** [lo2, hi2] contains [lo1, hi1], with the same ends unbounded. */
  predicate Widens(lo1: Option<UserKey>, hi1: Option<UserKey>, lo2: Option<UserKey>, hi2: Option<UserKey>) {
    Within(lo1, lo2, true) && Within(hi1, hi2, false)
  }

  lemma {:induction false} OverlappingKeepsOrder(files: seq<File>, lo: Option<UserKey>, hi: Option<UserKey>)
    requires SortedFiles(files)
    ensures SortedFiles(Overlapping(files, lo, hi))
  {
    if files != [] {
      var n := |files| - 1;
      var front := Overlapping(files[..n], lo, hi);
      forall i, j | 0 <= i < j < n ensures BySmallest(files[..n][i], files[..n][j]) {
        assert BySmallest(files[i], files[j]);
      }
      OverlappingKeepsOrder(files[..n], lo, hi);
      forall i | 0 <= i < |front| ensures BySmallest(front[i], files[n]) {
        assert front[i] in front && front[i] in files[..n];
        var j :| 0 <= j < n && files[..n][j] == front[i];
        assert BySmallest(files[j], files[n]);
      }
    }
  }

  /** A wider range selects more files, and equally many only if it selects the same ones. */
  lemma {:induction false} WiderSelectsMore(files: seq<File>, lo1: Option<UserKey>, hi1: Option<UserKey>,
      lo2: Option<UserKey>, hi2: Option<UserKey>)
    requires Widens(lo1, hi1, lo2, hi2)
    ensures |Overlapping(files, lo1, hi1)| <= |Overlapping(files, lo2, hi2)|
    ensures |Overlapping(files, lo1, hi1)| == |Overlapping(files, lo2, hi2)| ==>
      Overlapping(files, lo1, hi1) == Overlapping(files, lo2, hi2)
  {
    if files != [] {
      WiderSelectsMore(files[..|files| - 1], lo1, hi1, lo2, hi2);
    }
  }

  /** How many file ends stick out of [lo, hi]: what the level-0 restarts use up. */
  function Outside(files: seq<File>, lo: Option<UserKey>, hi: Option<UserKey>): (r: nat) {
    if files == [] then 0
    else
      (if BeforeLow(files[0], lo) then 1 else 0) + (if AfterHigh(files[0], hi) then 1 else 0)
        + Outside(files[1..], lo, hi)
  }

  predicate BeforeLow(f: File, lo: Option<UserKey>) {
    lo.Some? && f.smallest.user < lo.value
  }

  predicate AfterHigh(f: File, hi: Option<UserKey>) {
    hi.Some? && f.largest.user > hi.value
  }

  lemma {:induction false} WideningUsesUp(files: seq<File>, lo1: Option<UserKey>, hi1: Option<UserKey>,
      lo2: Option<UserKey>, hi2: Option<UserKey>)
    requires Widens(lo1, hi1, lo2, hi2)
    ensures Outside(files, lo2, hi2) <= Outside(files, lo1, hi1)
    ensures (exists f ::
      f in files && ((BeforeLow(f, lo1) && !BeforeLow(f, lo2)) || (AfterHigh(f, hi1) && !AfterHigh(f, hi2))))
      ==> Outside(files, lo2, hi2) < Outside(files, lo1, hi1)
  {
    if files != [] {
      WideningUsesUp(files[1..], lo1, hi1, lo2, hi2);
      assert forall f | f in files :: f == files[0] || f in files[1..];
    }
  }

  predicate InOptionalRange(u: UserKey, lo: Option<UserKey>, hi: Option<UserKey>) {
    (lo.Some? ==> lo.value <= u) && (hi.Some? ==> u <= hi.value)
  }

  /** No file that meets [lo, hi] sticks out of it. */
  ghost predicate ClosedRange(files: seq<File>, lo: Option<UserKey>, hi: Option<UserKey>) {
    forall f | f in files && Overlaps(f, lo, hi) :: !BeforeLow(f, lo) && !AfterHigh(f, hi)
  }

  /** Every key of [lo, hi] was asked for or is covered by a file. */
  ghost predicate KeysCovered(files: seq<File>, begin: Option<UserKey>, end: Option<UserKey>, lo: Option<UserKey>,
      hi: Option<UserKey>)
  {
    forall u | InOptionalRange(u, lo, hi) :: InOptionalRange(u, begin, end) || SomeCovers(Files(files), u)
  }

  /** [lo, hi] lies in every closed range around [begin, end]. */
  ghost predicate InEveryClosed(files: seq<File>, begin: Option<UserKey>, end: Option<UserKey>, lo: Option<UserKey>,
      hi: Option<UserKey>)
  {
    forall x, y | Widens(begin, end, x, y) && ClosedRange(files, x, y) :: Widens(lo, hi, x, y)
  }

  ghost predicate Reached(files: seq<File>, begin: Option<UserKey>, end: Option<UserKey>, lo: Option<UserKey>,
      hi: Option<UserKey>)
  {
    Widens(begin, end, lo, hi) && KeysCovered(files, begin, end, lo, hi) && InEveryClosed(files, begin, end, lo, hi)
  }

  lemma RestartReaches(files: seq<File>, f: File, begin: Option<UserKey>, end: Option<UserKey>,
    lo1: Option<UserKey>, hi1: Option<UserKey>, lo2: Option<UserKey>, hi2: Option<UserKey>)
    requires Reached(files, begin, end, lo1, hi1)
    requires f in files && Overlaps(f, lo1, hi1) && Widens(lo1, hi1, lo2, hi2)
    requires lo2 == lo1 || (lo2 == Some(f.smallest.user) && BeforeLow(f, lo1))
    requires hi2 == hi1 || (hi2 == Some(f.largest.user) && AfterHigh(f, hi1))
    requires lo2 != lo1 || hi2 != hi1
    ensures Reached(files, begin, end, lo2, hi2)
    ensures Outside(files, lo2, hi2) < Outside(files, lo1, hi1)
  {
    WideningUsesUp(files, lo1, hi1, lo2, hi2);
    forall u | InOptionalRange(u, lo2, hi2)
      ensures InOptionalRange(u, begin, end) || SomeCovers(Files(files), u)
    {
      if !InOptionalRange(u, lo1, hi1) { assert f in Files(files) && Covers(f, u); }
    }
    forall x, y | Widens(begin, end, x, y) && ClosedRange(files, x, y)
      ensures Widens(lo2, hi2, x, y)
    {
      assert Overlaps(f, x, y);
    }
  }

  lemma CoveredByInputs(files: seq<File>, begin: Option<UserKey>, end: Option<UserKey>, lo: Option<UserKey>,
      hi: Option<UserKey>)
    requires KeysCovered(files, begin, end, lo, hi)
    ensures KeysCovered(Overlapping(files, lo, hi), begin, end, lo, hi)
  {
    var inputs := Overlapping(files, lo, hi);
    forall u | InOptionalRange(u, lo, hi) && !InOptionalRange(u, begin, end)
      ensures SomeCovers(Files(inputs), u)
    {
      var f :| f in Files(files) && Covers(f, u);
      assert f in inputs;
    }
  }

  /**
   `inputs` are the files that meet [lo, hi]: in level 0 the least range around [begin, end] that no selected file
   sticks out of, every key added to it being covered by an input; elsewhere [begin, end] itself.
   */
  ghost predicate Selected(files: seq<File>, level: nat, begin: Option<UserKey>, end: Option<UserKey>,
    inputs: seq<File>, lo: Option<UserKey>, hi: Option<UserKey>)
  {
    && inputs == Overlapping(files, lo, hi) && Widens(begin, end, lo, hi)
    && (if level > 0 then lo == begin && hi == end else ClosedRange(files, lo, hi))
    && InEveryClosed(files, begin, end, lo, hi) && KeysCovered(inputs, begin, end, lo, hi)
  }

  /**
   All files of the level that meet [begin, end]; in level 0 the range is widened until no selected file sticks out.
   */
  method GetOverlappingInputs(files: seq<File>, level: nat, begin: Option<UserKey>, end: Option<UserKey>)
      returns (inputs: seq<File>)
    requires begin.Some? && end.Some? ==> begin.value <= end.value
    ensures exists lo, hi :: Selected(files, level, begin, end, inputs, lo, hi)
    ensures level > 0 ==> inputs == Overlapping(files, begin, end)
  {
    inputs := [];
    var userBegin, userEnd := begin, end;
    var i := 0;
    while i < |files|
      invariant 0 <= i <= |files|
      invariant Reached(files, begin, end, userBegin, userEnd)
      invariant level > 0 ==> userBegin == begin && userEnd == end
      invariant inputs == Overlapping(files[..i], userBegin, userEnd)
      invariant level == 0 ==> ClosedRange(files[..i], userBegin, userEnd)
      decreases Outside(files, userBegin, userEnd), |files| - i
    {
      var f := files[i];
      assert f in files && files[..i + 1] == files[..i] + [f];
      i := i + 1;
      if AfterFile(userBegin, f) {
      } else if BeforeFile(userEnd, f) {
      } else {
        inputs := inputs + [f];
        if level == 0 {
          if BeforeLow(f, userBegin) {
            RestartReaches(files, f, begin, end, userBegin, userEnd, Some(f.smallest.user), userEnd);
            userBegin := Some(f.smallest.user);
            inputs := [];
            i := 0;
          } else if AfterHigh(f, userEnd) {
            RestartReaches(files, f, begin, end, userBegin, userEnd, userBegin, Some(f.largest.user));
            userEnd := Some(f.largest.user);
            inputs := [];
            i := 0;
          }
        }
      }
    }
    assert files[..i] == files;
    CoveredByInputs(files, begin, end, userBegin, userEnd);
    assert Selected(files, level, begin, end, inputs, userBegin, userEnd);
  }

  // ----- what a choice of inputs must satisfy -----

  predicate Between(f: File, g: File, h: File) {
    Less(f.largest, g.smallest) && Less(g.largest, h.smallest)
  }

  predicate InHull(f: File, g: File, h: File) {
    f.smallest.user <= g.largest.user && g.smallest.user <= h.largest.user
  }

  ghost predicate NoHoles(level: seq<File>, inputs: seq<File>) {
    forall f, g, h {:trigger Between(f, g, h)} | f in inputs && g in level && h in inputs && Between(f, g, h) ::
      g in inputs
  }

  ghost predicate HullClosed(level: seq<File>, inputs: seq<File>) {
    forall f, g, h {:trigger InHull(f, g, h)} | f in inputs && g in level && h in inputs && InHull(f, g, h) ::
      g in inputs
  }

  /**
   In order. Level 0: nothing else meets the range of the inputs. Deeper levels: the inputs are consecutive files.
   */
  ghost predicate Contiguous(l: nat, level: seq<File>, inputs: seq<File>) {
    && (forall f | f in inputs :: f in level) && SortedFiles(inputs)
    && (if l == 0 then HullClosed(level, inputs) else NoHoles(level, inputs))
  }

  ghost predicate IsLargest(files: seq<File>, m: File) {
    m in files && forall f | f in files :: AtMost(f.largest, m.largest)
  }

  predicate IsBoundary(f: File, largest: InternalKey) {
    Less(largest, f.smallest) && f.smallest.user == largest.user
  }

  /** No file of the level continues the last user key of the inputs. */
  ghost predicate BoundaryClosed(level: seq<File>, inputs: seq<File>) {
    forall f, m {:trigger IsBoundary(f, m.largest)} | f in level && IsLargest(inputs, m) :: !IsBoundary(f, m.largest)
  }

  /** Files of the level that stay behind are newer than the inputs, user key by user key. */
  ghost predicate NoOlderLeft(level: seq<File>, inputs: seq<File>) {
    forall g, f {:trigger NewerThan(g.entries, f.entries)} | g in level && g !in inputs && f in inputs ::
      NewerThan(g.entries, f.entries)
  }

  lemma LargestExists(files: seq<File>) returns (m: File)
    requires files != []
    ensures IsLargest(files, m)
  {
    if |files| == 1 {
      m := files[0];
    } else {
      m := LargestExists(files[1..]);
      assert forall f | f in files :: f == files[0] || f in files[1..];
      if Less(m.largest, files[0].largest) { m := files[0]; }
    }
  }

  ghost predicate LevelFiles(l: nat, level: seq<File>) {
    (forall f | f in level :: WellFormed(f)) && SortedFiles(level) && (l > 0 ==> PairwiseApart(level))
  }

  /** Every level is well-formed, in order and, from level 1 on, free of overlap: all that choosing inputs relies on. */
  ghost predicate Tidy(v: Version) {
    forall l | 0 <= l < NUM_LEVELS :: LevelFiles(l, v[l])
  }

  lemma InvariantIsTidy(v: Version)
    requires LsmInvariant(v)
    ensures Tidy(v)
  {
  }

  /** A file left behind that shares a user key with an input precedes that input. */
  lemma LeftBehindPrecedes(l: nat, level: seq<File>, inputs: seq<File>, m: File, f: File, g: File, x: Entry, y: Entry)
    requires LevelFiles(l, level)
    requires Contiguous(l, level, inputs) && BoundaryClosed(level, inputs) && IsLargest(inputs, m)
    requires g in level && g !in inputs && f in inputs
    requires x in g.entries && y in f.entries && x.key.user == y.key.user
    ensures Less(x.key, y.key)
  {
    EntryInRange(g, x);
    EntryInRange(f, y);
    assert InHull(f, g, f);
    assert l > 0;
    assert Apart(f, g) && Apart(m, g) && (m == f || Apart(m, f));
    RangeIsNonempty(m);
    assert (Between(f, g, m) || !Between(f, g, m)) && (IsBoundary(g, m.largest) || !IsBoundary(g, m.largest));
    if Less(f.largest, g.smallest) {
      assert false;
    }
  }

  lemma EarlierIsNewer(v: Version, x: Entry, y: Entry)
    requires DistinctSequences(v) && Stored(v, x) && Stored(v, y)
    requires x.key.user == y.key.user && Less(x.key, y.key)
    ensures x.key.sequence > y.key.sequence
  {
    assert x.key.sequence == y.key.sequence ==> x == y;
  }

  lemma StoredIn(v: Version, l: nat, f: File, e: Entry)
    requires l < NUM_LEVELS && f in v[l] && e in f.entries
    ensures Stored(v, e)
  {
  }

  lemma ContiguousLeavesNoOlder(v: Version, l: nat, inputs: seq<File>)
    requires LsmInvariant(v) && DistinctSequences(v) && l < NUM_LEVELS
    requires inputs != []
    requires Contiguous(l, v[l], inputs) && BoundaryClosed(v[l], inputs)
    ensures NoOlderLeft(v[l], inputs)
  {
    LevelLeavesNoOlder(v, l, v[l], inputs);
  }

  lemma LevelLeavesNoOlder(v: Version, l: nat, level: seq<File>, inputs: seq<File>)
    requires DistinctSequences(v) && l < NUM_LEVELS && inputs != []
    requires level == v[l]
    requires LevelFiles(l, level) && Contiguous(l, level, inputs) && BoundaryClosed(level, inputs)
    ensures NoOlderLeft(level, inputs)
  {
    var m := LargestExists(inputs);
    forall g, f, x, y | g in level && g !in inputs && f in inputs && x in g.entries && y in f.entries
      && x.key.user == y.key.user
      ensures x.key.sequence > y.key.sequence
    {
      LeftBehindPrecedes(l, level, inputs, m, f, g, x, y);
      StoredIn(v, l, g, x);
      StoredIn(v, l, f, y);
      EarlierIsNewer(v, x, y);
    }
  }

  // ----- AddBoundaryInputs -----

  method FindLargestKey(files: seq<File>) returns (r: Option<InternalKey>)
    ensures files == [] <==> r.None?
    ensures r.Some? ==> exists m :: IsLargest(files, m) && m.largest == r.value
  {
    if files == [] {
      return None;
    }
    ghost var m := files[0];
    var largest := files[0].largest;
    for i := 1 to |files|
      invariant m in files && m.largest == largest
      invariant forall j | 0 <= j < i :: AtMost(files[j].largest, largest)
    {
      if Less(largest, files[i].largest) {
        largest := files[i].largest;
        m := files[i];
      }
    }
    assert IsLargest(files, m);
    return Some(largest);
  }

  method FindSmallestBoundaryFile(levelFiles: seq<File>, largest: InternalKey) returns (r: Option<File>)
    ensures r.None? ==> forall f | f in levelFiles :: !IsBoundary(f, largest)
    ensures r.Some? ==> r.value in levelFiles && IsBoundary(r.value, largest)
    ensures r.Some? ==> forall f | f in levelFiles && IsBoundary(f, largest) :: AtMost(r.value.smallest, f.smallest)
  {
    r := None;
    for i := 0 to |levelFiles|
      invariant r.None? ==> forall j | 0 <= j < i :: !IsBoundary(levelFiles[j], largest)
      invariant r.Some? ==> r.value in levelFiles && IsBoundary(r.value, largest)
      invariant r.Some? ==> forall j | 0 <= j < i && IsBoundary(levelFiles[j], largest) ::
        AtMost(r.value.smallest, levelFiles[j].smallest)
    {
      var f := levelFiles[i];
      if Less(largest, f.smallest) && f.smallest.user == largest.user {
        if r.None? || Less(f.smallest, r.value.smallest) {
          r := Some(f);
        }
      }
    }
  }

  /** How many files of the level start after `key`: what the boundary search uses up. */
  function StartAfter(files: seq<File>, key: InternalKey): (r: nat) {
    if files == [] then 0 else (if Less(key, files[0].smallest) then 1 else 0) + StartAfter(files[1..], key)
  }

  lemma {:induction false} LaterKeyUsesUp(files: seq<File>, k1: InternalKey, k2: InternalKey)
    requires Less(k1, k2)
    ensures StartAfter(files, k2) <= StartAfter(files, k1)
    ensures (exists f :: f in files && Less(k1, f.smallest) && !Less(k2, f.smallest)) ==>
      StartAfter(files, k2) < StartAfter(files, k1)
  {
    if files != [] {
      LaterKeyUsesUp(files[1..], k1, k2);
      assert forall f | f in files :: f == files[0] || f in files[1..];
    }
  }

  lemma BoundaryKeepsContiguous(l: nat, level: seq<File>, inputs: seq<File>, m: File, b: File)
    requires LevelFiles(l, level)
    requires Contiguous(l, level, inputs) && IsLargest(inputs, m)
    requires b in level && IsBoundary(b, m.largest)
    requires forall f | f in level && IsBoundary(f, m.largest) :: AtMost(b.smallest, f.smallest)
    ensures l > 0 && Contiguous(l, level, inputs + [b]) && IsLargest(inputs + [b], b)
    ensures b !in inputs
  {
    RangeIsNonempty(b);
    RangeIsNonempty(m);
    var r := inputs + [b];
    assert InHull(m, b, m);
    if l == 0 {
      assert false;
    }
    forall i, j | 0 <= i < j < |r| ensures BySmallest(r[i], r[j]) {
      if j == |inputs| { RangeIsNonempty(r[i]); } else { assert BySmallest(inputs[i], inputs[j]); }
    }
    forall f, g, h | f in r && g in level && h in r && Between(f, g, h)
      ensures g in r
    {
      RangeIsNonempty(g);
      RangeIsNonempty(f);
      RangeIsNonempty(h);
      assert Between(f, g, m) || !Between(f, g, m);
      if f == b {
      } else if h == b && g != m {
        assert Apart(g, m);
        assert IsBoundary(g, m.largest) || Less(g.largest, m.smallest);
      }
    }
  }

  /** Every file behind the first n goes on with the user key at which the files before it end. */
  ghost predicate Chained(files: seq<File>, n: nat) {
    forall i | n <= i < |files| :: GoesOn(files, i)
  }

  ghost predicate GoesOn(files: seq<File>, i: nat)
    requires i < |files|
  {
    exists m :: IsLargest(files[..i], m) && IsBoundary(files[i], m.largest)
  }

  /** The files with their boundary files, and no others. */
  ghost predicate Closure(levelFiles: seq<File>, files: seq<File>, r: seq<File>) {
    |r| >= |files| && r[..|files|] == files && Chained(r, |files|) && BoundaryClosed(levelFiles, r)
  }

  lemma ChainedMore(files: seq<File>, n: nat, m: File, b: File)
    requires Chained(files, n) && n <= |files| && IsLargest(files, m) && IsBoundary(b, m.largest)
    ensures Chained(files + [b], n)
  {
    var r := files + [b];
    forall i | n <= i < |r| ensures GoesOn(r, i) {
      if i < |files| {
        assert GoesOn(files, i) && r[i] == files[i] && r[..i] == files[..i];
      } else {
        assert r[..i] == files && IsLargest(r[..i], m);
      }
    }
  }

  /**
   Appends files that continue the last user key until none is left.  The inputs stay contiguous, nothing is
   added in level 0, and the added files extend the range of the inputs without a gap.
   */
  method AddBoundaryInputs(ghost l: nat, levelFiles: seq<File>, files: seq<File>) returns (r: seq<File>)
    requires LevelFiles(l, levelFiles)
    requires Contiguous(l, levelFiles, files)
    ensures |r| >= |files| && r[..|files|] == files
    ensures l == 0 ==> r == files
    ensures Contiguous(l, levelFiles, r) && BoundaryClosed(levelFiles, r) && Closure(levelFiles, files, r)
    ensures forall m | IsLargest(files, m) :: Extends(m, files, r)
  {
    r := files;
    var largest := FindLargestKey(files);
    if largest.None? {
      return;
    }
    var key := largest.value;
    ghost var last :| IsLargest(files, last) && last.largest == key;
    var searching := true;
    while searching
      invariant |r| >= |files| && r[..|files|] == files && (l == 0 ==> r == files)
      invariant Contiguous(l, levelFiles, r) && IsLargest(r, last) && last.largest == key && Chained(r, |files|)
      invariant !searching ==> forall f | f in levelFiles :: !IsBoundary(f, key)
      invariant forall m | IsLargest(files, m) :: Extends(m, files, r)
      decreases searching, StartAfter(levelFiles, key)
    {
      var b := FindSmallestBoundaryFile(levelFiles, key);
      if b.Some? {
        BoundaryKeepsContiguous(l, levelFiles, r, last, b.value);
        RangeIsNonempty(b.value);
        RangeIsNonempty(last);
        LaterKeyUsesUp(levelFiles, key, b.value.largest);
        forall m | IsLargest(files, m) ensures Extends(m, files, r + [b.value]) {
          BoundaryExtends(files, r, m, last, b.value);
        }
        ChainedMore(r, |files|, last, b.value);
        r := r + [b.value];
        last := b.value;
        key := b.value.largest;
      } else {
        searching := false;
      }
    }
    forall f, k | f in levelFiles && IsLargest(r, k)
      ensures !IsBoundary(f, k.largest)
    {
      LessIsTotal(k.largest, last.largest, last.largest);
    }
  }

  lemma BoundaryExtends(files: seq<File>, r: seq<File>, m: File, last: File, b: File)
    requires IsLargest(files, m) && IsLargest(r, last) && IsBoundary(b, last.largest)
    requires |r| >= |files| && r[..|files|] == files
    requires RangeOk(b) && RangeOk(last) && Extends(m, files, r)
    ensures Extends(m, files, r + [b])
  {
    assert m in r by { assert m in r[..|files|]; }
    LessIsTotal(m.largest, last.largest, last.largest);
    var r' := r + [b];
    forall c, u | c in r' && c !in files && m.largest.user <= u <= c.largest.user
      ensures SomeCovers(Files(r'), u)
    {
      if Covers(b, u) {
        assert b in Files(r');
      } else {
        assert last in files ==> AtMost(last.largest, m.largest);
        assert SomeCovers(Files(r), u);
        var d :| d in Files(r) && Covers(d, u);
        assert d in Files(r');
      }
    }
  }

  // ----- SetupOtherInputs -----

  ghost predicate IsRange(files: seq<File>, smallest: InternalKey, largest: InternalKey) {
    && (exists f :: f in files && f.smallest == smallest)
    && (exists f :: f in files && f.largest == largest)
    && (forall f {:trigger f in files} | f in files :: AtMost(smallest, f.smallest) && AtMost(f.largest, largest))
  }

  method GetRange(inputs: seq<File>) returns (smallest: InternalKey, largest: InternalKey)
    requires inputs != []
    ensures IsRange(inputs, smallest, largest)
  {
    smallest, largest := inputs[0].smallest, inputs[0].largest;
    for i := 1 to |inputs|
      invariant exists f :: f in inputs && f.smallest == smallest
      invariant exists f :: f in inputs && f.largest == largest
      invariant forall j | 0 <= j < i :: AtMost(smallest, inputs[j].smallest) && AtMost(inputs[j].largest, largest)
    {
      if Less(inputs[i].smallest, smallest) {
        smallest := inputs[i].smallest;
      }
      if Less(largest, inputs[i].largest) {
        largest := inputs[i].largest;
      }
    }
  }

  function TotalFileSize(files: seq<File>): (r: nat) {
    if files == [] then 0 else files[0].size + TotalFileSize(files[1..])
  }

  /** The level+1 inputs are exactly the files that meet the user-key range of the level inputs. */
  ghost predicate NextLevelMatches(v: Version, level: nat, in0: seq<File>, in1: seq<File>)
    requires level + 1 < NUM_LEVELS
  {
    exists s, l :: IsRange(in0, s, l) && in1 == Overlapping(v[level + 1], Some(s.user), Some(l.user))
  }

  /** The grandparents are the level+2 files that meet the user-key range of all the inputs. */
  ghost predicate GrandparentsMatch(v: Version, level: nat, in0: seq<File>, in1: seq<File>, grandparents: seq<File>)
    requires level + 2 < NUM_LEVELS
  {
    exists s, l :: IsRange(in0 + in1, s, l) && grandparents == Overlapping(v[level + 2], Some(s.user), Some(l.user))
  }

  /** What every compaction's inputs satisfy. */
  ghost predicate InputsChosen(v: Version, level: nat, in0: seq<File>, in1: seq<File>) {
    && level + 1 < NUM_LEVELS && in0 != []
    && Contiguous(level, v[level], in0) && BoundaryClosed(v[level], in0)
    && NextLevelMatches(v, level, in0, in1)
  }

  lemma RangeMeets(files: seq<File>, s: InternalKey, l: InternalKey)
    requires IsRange(files, s, l) && forall f | f in files :: WellFormed(f)
    ensures s.user <= l.user
    ensures forall f | f in files :: Meets(f, s.user, l.user) && s.user <= f.smallest.user && f.largest.user <= l.user
  {
    forall f | f in files ensures f.smallest.user <= f.largest.user { RangeIsNonempty(f); }
  }

  lemma SelectedAreContiguous(v: Version, level: nat, r: seq<File>, lo: Option<UserKey>, hi: Option<UserKey>)
    requires Tidy(v) && level < NUM_LEVELS
    requires r == Overlapping(v[level], lo, hi)
    requires level == 0 ==> ClosedRange(v[level], lo, hi)
    ensures Contiguous(level, v[level], r)
  {
    OverlappingKeepsOrder(v[level], lo, hi);
    forall f, g, h | f in r && g in v[level] && h in r
      ensures Between(f, g, h) ==> g in r
      ensures level == 0 && InHull(f, g, h) ==> g in r
    {
      RangeIsNonempty(g);
    }
  }

  /** Everything the level inputs meet in the next level joins up with them. */
  lemma NextLevelConnected(v: Version, level: nat, in0: seq<File>, in1: seq<File>)
    requires Tidy(v) && level + 1 < NUM_LEVELS && NextLevelMatches(v, level, in0, in1)
    requires forall f | f in in0 :: WellFormed(f)
    requires Connected(Files(in0))
    ensures Connected(Files(in0 + in1))
  {
    var s, l :| IsRange(in0, s, l) && in1 == Overlapping(v[level + 1], Some(s.user), Some(l.user));
    RangeMeets(in0, s, l);
    var f, g :| f in in0 && f.smallest == s && g in in0 && g.largest == l;
    forall u | s.user <= u <= l.user
      ensures SomeCovers(Files(in0 + in1), u)
    {
      assert f in Files(in0) && g in Files(in0) && SomeCovers(Files(in0), u);
      var c :| c in Files(in0) && Covers(c, u);
      assert c in Files(in0 + in1);
    }
    StarIsConnected(Files(in0 + in1), s.user, l.user);
  }

  lemma ConnectedCovers(files: seq<File>, s: InternalKey, l: InternalKey, u: UserKey)
    requires Connected(Files(files)) && IsRange(files, s, l) && s.user <= u <= l.user
    ensures SomeCovers(Files(files), u)
  {
    var f, g :| f in files && f.smallest == s && g in files && g.largest == l;
    assert f in Files(files) && g in Files(files);
  }

  lemma MoreCover(files: set<File>, more: set<File>, u: UserKey)
    requires files <= more && SomeCovers(files, u)
    ensures SomeCovers(more, u)
  {
  }

  /** Growing the level inputs over [lo, hi], which the first choice spans, keeps the range connected. */
  lemma ExpansionConnected(level: seq<File>, in0: seq<File>, in1: seq<File>, s: InternalKey, l: InternalKey,
    selected: seq<File>, lo: UserKey, hi: UserKey)
    requires forall f | f in in0 + in1 :: RangeOk(f) && s.user <= f.smallest.user && f.largest.user <= l.user
    requires forall f | f in in0 :: f in level
    requires Connected(Files(in0 + in1)) && IsRange(in0 + in1, s, l)
    requires selected == Overlapping(level, Some(lo), Some(hi)) && lo <= s.user && l.user <= hi
    requires KeysCovered(selected, Some(s.user), Some(l.user), Some(lo), Some(hi))
    ensures Connected(Files(selected + in1))
  {
    var all := Files(selected + in1);
    assert Files(in0 + in1) <= all by {
      forall f | f in in0 ensures f in selected { assert f in in0 + in1; }
    }
    forall u | lo <= u <= hi
      ensures SomeCovers(all, u)
    {
      if s.user <= u <= l.user {
        ConnectedCovers(in0 + in1, s, l, u);
        MoreCover(Files(in0 + in1), all, u);
      } else {
        assert InOptionalRange(u, Some(lo), Some(hi));
        MoreCover(Files(selected), all, u);
      }
    }
    forall f | f in all ensures Meets(f, lo, hi) {
      if f in in1 { assert f in in0 + in1; }
    }
    StarIsConnected(all, lo, hi);
  }

  /** The grown level inputs and the unchanged level+1 inputs still join up once boundary files are added. */
  lemma GrownConnected(selected: seq<File>, in1: seq<File>, expanded0: seq<File>, m: File)
    requires Connected(Files(selected + in1)) && IsLargest(selected, m) && Extends(m, selected, expanded0)
    requires forall f | f in selected + in1 :: RangeOk(f)
    requires forall f | f in selected :: f in expanded0
    ensures Connected(Files(expanded0 + in1))
  {
    ExtensionConnected(Files(selected + in1), m, selected, expanded0);
    assert Files(expanded0 + in1) == Files(selected + in1) + Files(expanded0);
  }

  /** The first choice: the level inputs with their boundary files, and whatever they meet in the next level. */
  method FirstChoice(v: Version, level: nat, inputs: seq<File>)
    returns (in0: seq<File>, in1: seq<File>, smallest: InternalKey, largest: InternalKey)
    requires Tidy(v) && level + 1 < NUM_LEVELS && inputs != []
    requires Contiguous(level, v[level], inputs)
    ensures InputsChosen(v, level, in0, in1) && Closure(v[level], inputs, in0)
    ensures forall f | f in inputs :: f in in0
    ensures Connected(Files(inputs)) ==> Connected(Files(in0 + in1))
    ensures IsRange(in0, smallest, largest) && in1 == Overlapping(v[level + 1], Some(smallest.user), Some(largest.user))
  {
    in0 := AddBoundaryInputs(level, v[level], inputs);
    PrefixIncluded(inputs, in0);
    smallest, largest := GetRange(in0);
    LevelRange(v, level, in0, smallest, largest);
    in1 := GetOverlappingInputs(v[level + 1], level + 1, Some(smallest.user), Some(largest.user));
    assert NextLevelMatches(v, level, in0, in1);
    if Connected(Files(inputs)) {
      var m := LargestExists(inputs);
      ExtensionConnected(Files(inputs), m, inputs, in0);
      assert Files(inputs) + Files(in0) == Files(in0);
      NextLevelConnected(v, level, in0, in1);
    }
  }

  /** The level inputs that would come in if the range of all inputs were taken, with their boundary files. */
  ghost predicate Expansion(v: Version, level: nat, in0: seq<File>, in1: seq<File>, expanded0: seq<File>)
    requires level < NUM_LEVELS
  {
    exists s, t, selected :: IsRange(in0 + in1, s, t) && ExpandsOver(v, level, s.user, t.user, selected, expanded0)
  }

  ghost predicate ExpandsOver(v: Version, level: nat, s: UserKey, t: UserKey, selected: seq<File>, expanded0: seq<File>)
    requires level < NUM_LEVELS
  {
    && Closure(v[level], selected, expanded0)
    && exists lo, hi :: Selected(v[level], level, Some(s), Some(t), selected, lo, hi)
  }

  /** They are taken if that is more files, not too many bytes, and no more files of the next level. */
  ghost predicate Expands(v: Version, level: nat, in0: seq<File>, in1: seq<File>, expanded0: seq<File>,
      maxFileSize: nat)
    requires level + 1 < NUM_LEVELS
  {
    && |expanded0| > |in0| && TotalFileSize(in1) + TotalFileSize(expanded0) < 25 * maxFileSize
    && CostsNoFile(v, level, in1, expanded0)
  }

  ghost predicate CostsNoFile(v: Version, level: nat, in1: seq<File>, expanded0: seq<File>)
    requires level + 1 < NUM_LEVELS
  {
    exists s, t :: IsRange(expanded0, s, t) && |Overlapping(v[level + 1], Some(s.user), Some(t.user))| == |in1|
  }

  ghost predicate Declined(v: Version, level: nat, in0: seq<File>, in1: seq<File>, expanded0: seq<File>,
      maxFileSize: nat)
    requires level + 1 < NUM_LEVELS
  {
    Expansion(v, level, in0, in1, expanded0) && !Expands(v, level, in0, in1, expanded0, maxFileSize)
  }

  /** What one range of the files says, every range says: there is one. */
  lemma OneRange(files: seq<File>, s: InternalKey, t: InternalKey, s': InternalKey, t': InternalKey)
    requires IsRange(files, s, t) && IsRange(files, s', t')
    ensures s == s' && t == t'
  {
    LessIsTotal(s, s', s);
    LessIsTotal(t, t', t);
  }

  /** Tries to grow the level inputs over [allStart, allLimit] without changing the number of level+1 files. */
  method GrowInputs(v: Version, level: nat, in0: seq<File>, in1: seq<File>, ghost smallest: InternalKey,
      ghost largest: InternalKey,
    allStart: InternalKey, allLimit: InternalKey, maxFileSize: nat) returns (r: Option<(seq<File>, seq<File>)>)
    requires Tidy(v) && InputsChosen(v, level, in0, in1)
    requires IsRange(in0, smallest, largest)
    requires in1 == Overlapping(v[level + 1], Some(smallest.user), Some(largest.user))
    requires IsRange(in0 + in1, allStart, allLimit)
    ensures r.Some? ==> InputsChosen(v, level, r.value.0, r.value.1)
    ensures r.Some? ==> r.value.1 == in1 && forall f | f in in0 :: f in r.value.0
    ensures r.Some? && Connected(Files(in0 + in1)) ==> Connected(Files(r.value.0 + r.value.1))
    ensures if r.Some? then Expansion(v, level, in0, in1, r.value.0)
        && Expands(v, level, in0, in1, r.value.0, maxFileSize)
      else exists expanded0 :: Declined(v, level, in0, in1, expanded0, maxFileSize)
  {
    hide Connected;
    hide Overlapping;
    hide Closure;
    hide Contiguous;
    hide BoundaryClosed;
    hide NextLevelMatches;
    hide CostsNoFile;
    hide IsRange;
    hide Tidy;
    hide TotalFileSize;
    var selected, expanded0 := Expand(v, level, in0, in1, allStart, allLimit);
    r := None;
    if |expanded0| > |in0| && TotalFileSize(in1) + TotalFileSize(expanded0) < 25 * maxFileSize {
      var newStart, newLimit := GetRange(expanded0);
      ChosenRange(v, level, in0, expanded0, newStart, newLimit);
      var expanded1 := GetOverlappingInputs(v[level + 1], level + 1, Some(newStart.user), Some(newLimit.user));
      OnlyRange(v, level, in1, expanded0, newStart, newLimit);
      if |expanded1| == |in1| {
        GrownIsChosen(v, level, in0, in1, smallest, largest, allStart, allLimit, selected, expanded0, newStart,
          newLimit);
        r := Some((expanded0, expanded1));
      }
    }
    assert r.None? ==> Declined(v, level, in0, in1, expanded0, maxFileSize);
  }

  /** What the range of all inputs takes in at the level. */
  method Expand(v: Version, level: nat, ghost in0: seq<File>, ghost in1: seq<File>, allStart: InternalKey,
      allLimit: InternalKey)
    returns (ghost selected: seq<File>, expanded0: seq<File>)
    requires Tidy(v) && InputsChosen(v, level, in0, in1) && IsRange(in0 + in1, allStart, allLimit)
    ensures Expansion(v, level, in0, in1, expanded0) && Closure(v[level], selected, expanded0)
    ensures exists lo, hi ::
      Selected(v[level], level, Some(allStart.user), Some(allLimit.user), selected, lo, hi)
    ensures Contiguous(level, v[level], selected) && Contiguous(level, v[level], expanded0)
    ensures forall m | IsLargest(selected, m) :: Extends(m, selected, expanded0)
  {
    hide Overlapping;
    assert forall f | f in in0 + in1 :: WellFormed(f);
    RangeMeets(in0 + in1, allStart, allLimit);
    var files := GetOverlappingInputs(v[level], level, Some(allStart.user), Some(allLimit.user));
    ghost var lo, hi :| Selected(v[level], level, Some(allStart.user), Some(allLimit.user), files, lo, hi);
    SelectedAreContiguous(v, level, files, lo, hi);
    expanded0 := AddBoundaryInputs(level, v[level], files);
    selected := files;
    assert ExpandsOver(v, level, allStart.user, allLimit.user, selected, expanded0);
  }

  lemma ChosenRange(v: Version, level: nat, in0: seq<File>, expanded0: seq<File>, newStart: InternalKey,
      newLimit: InternalKey)
    requires Tidy(v) && level < NUM_LEVELS && Contiguous(level, v[level], expanded0)
    requires IsRange(expanded0, newStart, newLimit)
    ensures newStart.user <= newLimit.user
  {
    LevelRange(v, level, expanded0, newStart, newLimit);
  }

  lemma OnlyRange(v: Version, level: nat, in1: seq<File>, expanded0: seq<File>, newStart: InternalKey,
      newLimit: InternalKey)
    requires level + 1 < NUM_LEVELS && IsRange(expanded0, newStart, newLimit)
    ensures CostsNoFile(v, level, in1, expanded0) <==>
      |Overlapping(v[level + 1], Some(newStart.user), Some(newLimit.user))| == |in1|
  {
    hide Overlapping;
    hide IsRange;
    forall s, t | IsRange(expanded0, s, t) ensures s == newStart && t == newLimit {
      OneRange(expanded0, s, t, newStart, newLimit);
    }
  }

  /** Grown inputs are as good as the first ones. */
  lemma GrownIsChosen(v: Version, level: nat, in0: seq<File>, in1: seq<File>, smallest: InternalKey,
      largest: InternalKey, allStart: InternalKey, allLimit: InternalKey, selected: seq<File>, expanded0: seq<File>,
      newStart: InternalKey, newLimit: InternalKey)
    requires Tidy(v) && InputsChosen(v, level, in0, in1) && IsRange(in0, smallest, largest)
    requires in1 == Overlapping(v[level + 1], Some(smallest.user), Some(largest.user))
    requires IsRange(in0 + in1, allStart, allLimit) && IsRange(expanded0, newStart, newLimit)
    requires exists lo, hi :: Selected(v[level], level, Some(allStart.user), Some(allLimit.user), selected, lo, hi)
    requires Closure(v[level], selected, expanded0) && Contiguous(level, v[level], expanded0)
    requires forall m | IsLargest(selected, m) :: Extends(m, selected, expanded0)
    requires |Overlapping(v[level + 1], Some(newStart.user), Some(newLimit.user))| == |in1|
    ensures InputsChosen(v, level, expanded0, in1) && forall f | f in in0 :: f in expanded0
    ensures Overlapping(v[level + 1], Some(newStart.user), Some(newLimit.user)) == in1
    ensures Connected(Files(in0 + in1)) ==> Connected(Files(expanded0 + in1))
  {
    hide Connected;
    hide Overlapping;
    hide Extends;
    var lo, hi :| Selected(v[level], level, Some(allStart.user), Some(allLimit.user), selected, lo, hi);
    ExpansionKeepsNextLevel(v, level, in0, in1, smallest, largest, allStart, allLimit, selected, lo.value, hi.value,
      expanded0, newStart, newLimit);
    if Connected(Files(in0 + in1)) {
      assert forall f | f in in0 + in1 :: WellFormed(f);
      RangeMeets(in0 + in1, allStart, allLimit);
      forall f | f in in0 + in1 + selected ensures RangeOk(f) { RangeIsNonempty(f); }
      ExpansionConnected(v[level], in0, in1, allStart, allLimit, selected, lo.value, hi.value);
      var m := LargestExists(selected);
      GrownConnected(selected, in1, expanded0, m);
    }
  }

  /** The first choice: boundary files at the level, and what they all meet in the next. */
  ghost predicate FirstChosen(v: Version, level: nat, inputs: seq<File>, in0: seq<File>, in1: seq<File>)
    requires level + 1 < NUM_LEVELS
  {
    Closure(v[level], inputs, in0) && NextLevelMatches(v, level, in0, in1)
  }

  /** The first choice, grown if there is something in the next level and it costs no further file there. */
  ghost predicate SetUp(v: Version, level: nat, inputs: seq<File>, maxFileSize: nat, in0: seq<File>, in1: seq<File>)
    requires level + 1 < NUM_LEVELS
  {
    exists base0 :: FirstChosen(v, level, inputs, base0, in1) && GrownFrom(v, level, base0, in1, maxFileSize, in0)
  }

  ghost predicate GrownFrom(v: Version, level: nat, base0: seq<File>, in1: seq<File>, maxFileSize: nat, in0: seq<File>)
    requires level + 1 < NUM_LEVELS
  {
    if in1 == [] then in0 == base0
    else
      || (Expansion(v, level, base0, in1, in0) && Expands(v, level, base0, in1, in0, maxFileSize))
      || (in0 == base0 && exists expanded0 :: Declined(v, level, base0, in1, expanded0, maxFileSize))
  }

  /**
   Completes the inputs of a compaction.  The level inputs grow, at first by boundary files and then, if that
   costs no further level+1 file, over the whole range; the level+1 inputs stay what the first choice required.
   */
  method SetupOtherInputs(v: Version, level: nat, inputs: seq<File>, maxFileSize: nat)
    returns (in0: seq<File>, in1: seq<File>, grandparents: seq<File>, compactPointer: InternalKey,
      ghost base0: seq<File>)
    requires Tidy(v) && level + 1 < NUM_LEVELS && inputs != []
    requires Contiguous(level, v[level], inputs)
    ensures InputsChosen(v, level, in0, in1)
    ensures Connected(Files(inputs)) ==> Connected(Files(in0 + in1))
    ensures Files(inputs) <= Files(base0) <= Files(in0) && NextLevelMatches(v, level, base0, in1)
    ensures SetUp(v, level, inputs, maxFileSize, in0, in1)
    ensures exists f :: IsLargest(in0, f) && f.largest == compactPointer
    ensures if level + 2 < NUM_LEVELS then GrandparentsMatch(v, level, in0, in1, grandparents) else grandparents == []
  {
    var smallest, largest;
    in0, in1, smallest, largest := FirstChoice(v, level, inputs);
    base0 := in0;
    var allStart, allLimit := GetRange(in0 + in1);
    if in1 != [] {
      var grown := GrowInputs(v, level, in0, in1, smallest, largest, allStart, allLimit, maxFileSize);
      if grown.Some? {
        in0, in1 := grown.value.0, grown.value.1;
        smallest, largest := GetRange(in0);
        allStart, allLimit := GetRange(in0 + in1);
      }
    }
    grandparents := [];
    if level + 2 < NUM_LEVELS {
      assert forall f | f in in0 + in1 :: WellFormed(f);
      RangeMeets(in0 + in1, allStart, allLimit);
      grandparents := GetOverlappingInputs(v[level + 2], level + 2, Some(allStart.user), Some(allLimit.user));
    }
    compactPointer := largest;
    assert FirstChosen(v, level, inputs, base0, in1);
    assert GrownFrom(v, level, base0, in1, maxFileSize, in0);
    var f :| f in in0 && f.largest == largest;
    assert IsLargest(in0, f);
  }

  lemma PrefixIncluded(files: seq<File>, r: seq<File>)
    requires |r| >= |files| && r[..|files|] == files
    ensures forall f | f in files :: f in r
  {
    assert forall f | f in files :: f in r[..|files|];
  }

  lemma LevelRange(v: Version, level: nat, files: seq<File>, s: InternalKey, l: InternalKey)
    requires Tidy(v) && level < NUM_LEVELS && IsRange(files, s, l)
    requires forall f | f in files :: f in v[level]
    ensures s.user <= l.user && forall f | f in files :: RangeOk(f)
  {
    RangeMeets(files, s, l);
    forall f | f in files ensures RangeOk(f) { RangeIsNonempty(f); }
  }

  /** An expansion with equally many level+1 files has the same ones, and takes in all the first inputs. */
  lemma ExpansionKeepsNextLevel(v: Version, level: nat, in0: seq<File>, in1: seq<File>, smallest: InternalKey,
      largest: InternalKey,
    allStart: InternalKey, allLimit: InternalKey, selected: seq<File>, lo: UserKey, hi: UserKey,
    expanded0: seq<File>, newStart: InternalKey, newLimit: InternalKey)
    requires Tidy(v) && level + 1 < NUM_LEVELS
    requires forall f | f in in0 + expanded0 :: f in v[level]
    requires IsRange(in0, smallest, largest)
    requires in1 == Overlapping(v[level + 1], Some(smallest.user), Some(largest.user))
    requires IsRange(in0 + in1, allStart, allLimit) && lo <= allStart.user && allLimit.user <= hi
    requires selected == Overlapping(v[level], Some(lo), Some(hi))
    requires |expanded0| >= |selected| && expanded0[..|selected|] == selected && IsRange(expanded0, newStart, newLimit)
    requires |Overlapping(v[level + 1], Some(newStart.user), Some(newLimit.user))| == |in1|
    ensures Overlapping(v[level + 1], Some(newStart.user), Some(newLimit.user)) == in1
    ensures forall f | f in in0 :: f in selected
    ensures forall f | f in selected :: f in expanded0
    ensures NextLevelMatches(v, level, in0, in1) && NextLevelMatches(v, level, expanded0, in1)
  {
    PrefixIncluded(selected, expanded0);
    forall f | f in in0 ensures f in selected {
      RangeIsNonempty(f);
      assert f in in0 + in1;
    }
    WiderSelectsMore(v[level + 1], Some(smallest.user), Some(largest.user), Some(newStart.user), Some(newLimit.user));
  }

  // ----- PickCompaction -----

  const L0_COMPACTION_TRIGGER := 4

  /** How many bytes a level may have: ten times as many from level to level. */
  function BytesAllowed(level: nat): (r: real)
    ensures r >= 10485760.0
  {
    if level <= 1 then 10485760.0 else BytesAllowed(level - 1) * 10.0
  }

  method MaxBytesForLevel(level: nat) returns (result: real)
    ensures result == BytesAllowed(level)
  {
    result := 10485760.0;
    var l := level;
    while l > 1
      invariant l <= level && (level <= 1 ==> l == level) && (level > 1 ==> l >= 1)
      invariant result * BytesAllowed(l) == 10485760.0 * BytesAllowed(level)
    {
      result := result * 10.0;
      l := l - 1;
    }
  }

  /** How full a level is: level 0 by its files, a deeper one by its bytes. */
  ghost function Score(v: Version, level: nat): (r: real)
    requires level < NUM_LEVELS
  {
    if level == 0 then |v[0]| as real / L0_COMPACTION_TRIGGER as real
    else TotalFileSize(v[level]) as real / BytesAllowed(level)
  }

  /** The first of the fullest levels, the last one aside. */
  ghost predicate IsFullest(v: Version, level: nat) {
    && level + 1 < NUM_LEVELS && (forall l | 0 <= l < NUM_LEVELS - 1 :: Score(v, l) <= Score(v, level))
    && (forall l | 0 <= l < level :: Score(v, l) < Score(v, level))
  }

  method Finalize(v: Version) returns (bestLevel: nat, bestScore: real)
    ensures IsFullest(v, bestLevel) && bestScore == Score(v, bestLevel)
    ensures bestScore >= 1.0 ==> v[bestLevel] != []
  {
    bestLevel, bestScore := 0, -1.0;
    for level := 0 to NUM_LEVELS - 1
      invariant level == 0 ==> bestScore == -1.0
      invariant level > 0 ==> bestLevel < level && bestScore == Score(v, bestLevel)
      invariant forall l | 0 <= l < level :: Score(v, l) <= bestScore && (l < bestLevel ==> Score(v, l) < bestScore)
    {
      var score: real;
      if level == 0 {
        score := |v[0]| as real / L0_COMPACTION_TRIGGER as real;
      } else {
        var most := MaxBytesForLevel(level);
        score := TotalFileSize(v[level]) as real / most;
      }
      assert score == Score(v, level) >= 0.0;
      if score > bestScore {
        bestLevel, bestScore := level, score;
      }
    }
  }

  /** What a compaction is needed for; the file that was sought too often is part of the statistics of a version. */
  datatype Trigger = Idle | TooBig(level: nat) | TooManySeeks(level: nat, file: File)

  ghost predicate IsNeed(v: Version, fileToCompact: Option<(nat, File)>, need: Trigger) {
    match need
    case TooBig(level) => IsFullest(v, level) && Score(v, level) >= 1.0 && v[level] != []
    case TooManySeeks(level, file) =>
      fileToCompact == Some((level, file)) && forall l | 0 <= l < NUM_LEVELS - 1 :: Score(v, l) < 1.0
    case Idle => fileToCompact.None? && forall l | 0 <= l < NUM_LEVELS - 1 :: Score(v, l) < 1.0
  }

  /** Too much data in a level comes before too many seeks. */
  method CompactionNeeded(v: Version, fileToCompact: Option<(nat, File)>) returns (need: Trigger)
    ensures IsNeed(v, fileToCompact, need)
  {
    var level, score := Finalize(v);
    if score >= 1.0 {
      need := TooBig(level);
    } else if fileToCompact.Some? {
      need := TooManySeeks(fileToCompact.value.0, fileToCompact.value.1);
    } else {
      need := Idle;
    }
  }

  datatype Inputs = Inputs(level: nat, in0: seq<File>, in1: seq<File>, grandparents: seq<File>)

  /** The inputs of an automatic compaction: closed, and their ranges join up. */
  ghost predicate Picked(v: Version, c: Inputs) {
    InputsChosen(v, c.level, c.in0, c.in1) && Connected(Files(c.in0 + c.in1))
  }

  /** A compaction is chosen if and only if one is needed, and then it is for that need. */
  ghost predicate Serves(need: Trigger, c: Option<Inputs>) {
    match need
    case Idle => c.None?
    case TooBig(level) => c.Some? && c.value.level == level
    case TooManySeeks(level, file) => c.Some? && c.value.level == level && file in c.value.in0
  }

  /** After the compaction pointer, or the pointer is missing. */
  predicate PastPointer(pointer: Option<InternalKey>, f: File) {
    pointer.None? || Less(pointer.value, f.largest)
  }

  /** The first file that ends after the pointer; behind the last one it wraps around to the first of the level. */
  ghost predicate IsNextFile(files: seq<File>, pointer: Option<InternalKey>, f: File) {
    files != [] && if forall g | g in files :: !PastPointer(pointer, g) then f == files[0]
      else exists i :: 0 <= i < |files| && f == files[i] && FirstPast(files, pointer, i)
  }

  ghost predicate FirstPast(files: seq<File>, pointer: Option<InternalKey>, i: nat)
    requires i < |files|
  {
    PastPointer(pointer, files[i]) && forall j | 0 <= j < i :: !PastPointer(pointer, files[j])
  }

  /** What a compaction starts from: one file, in level 0 with all that it must be compacted with. */
  ghost predicate Seeds(v: Version, level: nat, f: File, inputs: seq<File>)
    requires level < NUM_LEVELS
  {
    if level > 0 then inputs == [f]
    else exists lo, hi :: Selected(v[0], 0, Some(f.smallest.user), Some(f.largest.user), inputs, lo, hi)
  }

  /** The file that the need is about. */
  ghost predicate IsStart(v: Version, need: Trigger, compactPointer: seq<Option<InternalKey>>, f: File) {
    match need
    case Idle => false
    case TooBig(level) =>
      level < |compactPointer| && level < NUM_LEVELS && IsNextFile(v[level], compactPointer[level], f)
    case TooManySeeks(_, file) => f == file
  }

  /** The inputs are what comes of that file. */
  ghost predicate ComesOf(v: Version, need: Trigger, compactPointer: seq<Option<InternalKey>>, maxFileSize: nat,
      c: Inputs)
  {
    && c.level + 1 < NUM_LEVELS
    && exists f, inputs :: IsStart(v, need, compactPointer, f) && SetUpFrom(v, f, inputs, maxFileSize, c)
  }

  ghost predicate SetUpFrom(v: Version, f: File, inputs: seq<File>, maxFileSize: nat, c: Inputs)
    requires c.level + 1 < NUM_LEVELS
  {
    Seeds(v, c.level, f, inputs) && AllSetUp(v, inputs, maxFileSize, c)
  }

  ghost predicate AllSetUp(v: Version, inputs: seq<File>, maxFileSize: nat, c: Inputs)
    requires c.level + 1 < NUM_LEVELS
  {
    && SetUp(v, c.level, inputs, maxFileSize, c.in0, c.in1)
    && if c.level + 2 < NUM_LEVELS then GrandparentsMatch(v, c.level, c.in0, c.in1, c.grandparents)
      else c.grandparents == []
  }

  /** The need of the version, and what is chosen for it. */
  ghost predicate Chooses(v: Version, fileToCompact: Option<(nat, File)>, need: Trigger,
      compactPointer: seq<Option<InternalKey>>, maxFileSize: nat, c: Option<Inputs>)
  {
    && IsNeed(v, fileToCompact, need) && Serves(need, c)
    && (c.Some? ==> ComesOf(v, need, compactPointer, maxFileSize, c.value))
  }

  method PickCompaction(v: Version, fileToCompact: Option<(nat, File)>, compactPointer: seq<Option<InternalKey>>,
      maxFileSize: nat)
    returns (c: Option<Inputs>, pointers: seq<Option<InternalKey>>)
    requires Tidy(v) && |compactPointer| == NUM_LEVELS
    requires fileToCompact.Some? ==>
      fileToCompact.value.0 + 1 < NUM_LEVELS && fileToCompact.value.1 in v[fileToCompact.value.0]
    ensures exists need :: Chooses(v, fileToCompact, need, compactPointer, maxFileSize, c)
    ensures c.Some? ==> Picked(v, c.value)
    ensures c.None? ==> pointers == compactPointer
    ensures c.Some? ==> exists f ::
      IsLargest(c.value.in0, f) && pointers == compactPointer[c.value.level := Some(f.largest)]
    ensures |pointers| == NUM_LEVELS
  {
    hide Picked;
    hide Tidy;
    var need := CompactionNeeded(v, fileToCompact);
    c, pointers := PickInputs(v, need, compactPointer, maxFileSize);
    assert Chooses(v, fileToCompact, need, compactPointer, maxFileSize, c);
  }

  /** The first file behind the compaction pointer, or the first file. */
  method NextFile(files: seq<File>, pointer: Option<InternalKey>) returns (f: File)
    requires files != []
    ensures f in files && IsNextFile(files, pointer, f)
  {
    var picked: Option<File> := None;
    var i := 0;
    while i < |files| && picked.None?
      invariant 0 <= i <= |files|
      invariant picked.None? ==> forall j | 0 <= j < i :: !PastPointer(pointer, files[j])
      invariant picked.Some? ==> picked.value in files && IsNextFile(files, pointer, picked.value)
    {
      if pointer.None? || Less(pointer.value, files[i].largest) {
        assert files[i] in files && FirstPast(files, pointer, i);
        picked := Some(files[i]);
      }
      i := i + 1;
    }
    if picked.None? {
      // Wrap-around to the beginning of the key space.
      assert files[0] in files;
      picked := Some(files[0]);
    }
    f := picked.value;
  }

  /** In level 0 a file is compacted together with all that it overlaps. */
  method SeedInputs(v: Version, level: nat, first: File) returns (picked: seq<File>)
    requires Tidy(v) && level < NUM_LEVELS && first in v[level]
    ensures Seeds(v, level, first, picked) && first in picked
    ensures Contiguous(level, v[level], picked) && Connected(Files(picked))
  {
    picked := [first];
    SingletonConnected(first);
    assert Files(picked) == {first};
    if level == 0 {
      RangeIsNonempty(first);
      picked := GetOverlappingInputs(v[0], 0, Some(first.smallest.user), Some(first.largest.user));
      ghost var lo, hi :| Selected(v[0], 0, Some(first.smallest.user), Some(first.largest.user), picked, lo, hi);
      SelectedAreContiguous(v, 0, picked, lo, hi);
      WidenedConnected(v, first, picked, lo, hi);
    }
    if level > 0 { SingletonContiguous(v, level, first); }
  }

  /** The file after the compaction pointer, or the one sought too often; in level 0 with all that overlap it. */
  method PickInputs(v: Version, need: Trigger, compactPointer: seq<Option<InternalKey>>, maxFileSize: nat)
    returns (c: Option<Inputs>, pointers: seq<Option<InternalKey>>)
    requires Tidy(v) && |compactPointer| == NUM_LEVELS
    requires need.TooBig? ==> need.level + 1 < NUM_LEVELS && v[need.level] != []
    requires need.TooManySeeks? ==> need.level + 1 < NUM_LEVELS && need.file in v[need.level]
    ensures c.None? <==> need.Idle?
    ensures c.Some? ==> c.value.level == need.level && Picked(v, c.value)
    ensures c.Some? && need.TooManySeeks? ==> need.file in c.value.in0
    ensures c.Some? ==> ComesOf(v, need, compactPointer, maxFileSize, c.value)
    ensures c.None? ==> pointers == compactPointer
    ensures c.Some? ==> exists f ::
      IsLargest(c.value.in0, f) && pointers == compactPointer[c.value.level := Some(f.largest)]
  {
    hide Tidy;
    hide InputsChosen;
    hide Connected;
    hide SetUp;
    hide GrandparentsMatch;
    hide Seeds;
    hide Contiguous;
    hide IsNextFile;
    var first: File;
    match need {
      case Idle =>
        return None, compactPointer;
      case TooBig(l) =>
        first := NextFile(v[l], compactPointer[l]);
      case TooManySeeks(_, f) =>
        first := f;
    }
    var picked := SeedInputs(v, need.level, first);
    var in0, in1, grandparents, pointer, base0 := SetupOtherInputs(v, need.level, picked, maxFileSize);
    assert first in Files(picked);
    c := Some(Inputs(need.level, in0, in1, grandparents));
    pointers := compactPointer[need.level := Some(pointer)];
    assert IsStart(v, need, compactPointer, first) && SetUpFrom(v, first, picked, maxFileSize, c.value);
  }

  lemma SingletonConnected(f: File)
    ensures Connected({f})
  {
    forall u | f.smallest.user <= u <= f.largest.user ensures SomeCovers({f}, u) {
      assert f in {f} && Covers(f, u);
    }
  }

  lemma SingletonContiguous(v: Version, l: nat, f: File)
    requires Tidy(v) && 0 < l < NUM_LEVELS && f in v[l]
    ensures Contiguous(l, v[l], [f])
  {
    RangeIsNonempty(f);
    forall g | g in v[l]
      ensures !Between(f, g, f)
    {
      RangeIsNonempty(g);
    }
  }

  lemma WidenedConnected(v: Version, first: File, picked: seq<File>, lo: Option<UserKey>, hi: Option<UserKey>)
    requires Tidy(v) && first in v[0] && lo.Some?
    requires hi.Some?
    requires picked == Overlapping(v[0], lo, hi)
    requires lo.value <= first.smallest.user && first.largest.user <= hi.value
    requires KeysCovered(picked, Some(first.smallest.user), Some(first.largest.user), lo, hi)
    ensures first in picked && Connected(Files(picked))
  {
    RangeIsNonempty(first);
    assert first in Files(picked);
    forall u | lo.value <= u <= hi.value
      ensures SomeCovers(Files(picked), u)
    {
      assert InOptionalRange(u, lo, hi);
      if InOptionalRange(u, Some(first.smallest.user), Some(first.largest.user)) { assert Covers(first, u); }
    }
    StarIsConnected(Files(picked), lo.value, hi.value);
  }

  // ----- CompactRange -----

  lemma {:induction false} TotalFileSizeAppend(files: seq<File>, f: File)
    ensures TotalFileSize(files + [f]) == TotalFileSize(files) + f.size
  {
    if files != [] {
      assert (files + [f])[1..] == files[1..] + [f];
      TotalFileSizeAppend(files[1..], f);
    }
  }

  /** The first files of consecutive files are consecutive. */
  lemma PrefixIsContiguous(l: nat, level: seq<File>, files: seq<File>, n: nat)
    requires l > 0 && LevelFiles(l, level) && Contiguous(l, level, files)
    requires n <= |files|
    ensures Contiguous(l, level, files[..n])
  {
    var front := files[..n];
    forall i, j | 0 <= i < j < n ensures BySmallest(front[i], front[j]) {
      assert BySmallest(files[i], files[j]);
    }
    assert forall f | f in front :: f in files;
    forall f, g, h | f in front && g in level && h in front && Between(f, g, h) ensures g in front {
      var j :| 0 <= j < n && front[j] == h;
      assert g in files;
      var i :| 0 <= i < |files| && files[i] == g;
      RangeIsNonempty(g);
      assert i <= j || BySmallest(files[j], files[i]);
      assert i < n ==> front[i] == g;
    }
  }

  /** As many of the files, from the first on, as it takes to reach the limit; all of them if they do not. */
  ghost predicate UpTo(files: seq<File>, limit: nat, n: nat) {
    && 0 < n <= |files|
    && (n > 1 ==> TotalFileSize(files[..n - 1]) < limit) && (n < |files| ==> TotalFileSize(files[..n]) >= limit)
  }

  ghost predicate Limited(level: nat, inputs: seq<File>, limit: nat, r: seq<File>) {
    if level == 0 then r == inputs else exists n: nat :: UpTo(inputs, limit, n) && r == inputs[..n]
  }

  /** Deeper than level 0 a large range is compacted in pieces. */
  method LimitInputs(level: nat, inputs: seq<File>, limit: nat) returns (r: seq<File>)
    requires inputs != []
    ensures Limited(level, inputs, limit, r)
  {
    r := inputs;
    if level > 0 {
      var total := 0;
      for i := 0 to |inputs|
        invariant total == TotalFileSize(inputs[..i]) && (i > 0 ==> total < limit)
      {
        TotalFileSizeAppend(inputs[..i], inputs[i]);
        assert inputs[..i] + [inputs[i]] == inputs[..i + 1];
        total := total + inputs[i].size;
        if total >= limit {
          assert UpTo(inputs, limit, i + 1);
          return inputs[..i + 1];
        }
      }
      var n := |inputs|;
      assert inputs[..n] == inputs && inputs[..n - 1] + [inputs[n - 1]] == inputs;
      TotalFileSizeAppend(inputs[..n - 1], inputs[n - 1]);
      assert UpTo(inputs, limit, n);
    }
  }

  /** The files of the level that meet [begin, end], up to the limit. */
  ghost predicate LimitedTo(v: Version, level: nat, begin: Option<UserKey>, end: Option<UserKey>, limit: nat,
      limited: seq<File>)
    requires level < NUM_LEVELS
  {
    exists selected, lo, hi ::
      Selected(v[level], level, begin, end, selected, lo, hi) && Limited(level, selected, limit, limited)
  }

  /**
   A manual compaction of [begin, end].  Its inputs are closed like all inputs, but nothing says that their ranges join
   up.
   */
  method CompactRange(v: Version, level: nat, begin: Option<UserKey>, end: Option<UserKey>, limit: nat,
      maxFileSize: nat) returns (c: Option<Inputs>, pointer: Option<InternalKey>)
    requires Tidy(v) && level + 1 < NUM_LEVELS
    requires begin.Some? && end.Some? ==> begin.value <= end.value
    ensures c.None? <==> Overlapping(v[level], begin, end) == []
    ensures c.Some? ==> c.value.level == level && InputsChosen(v, level, c.value.in0, c.value.in1)
    ensures c.Some? && level == 0 ==> Files(Overlapping(v[0], begin, end)) <= Files(c.value.in0)
    ensures c.Some? && level > 0 ==> exists n: nat ::
      UpTo(Overlapping(v[level], begin, end), limit, n)
        && Files(Overlapping(v[level], begin, end)[..n]) <= Files(c.value.in0)
    ensures c.Some? ==> exists limited ::
      LimitedTo(v, level, begin, end, limit, limited) && AllSetUp(v, limited, maxFileSize, c.value)
    ensures c.Some? ==> pointer.Some? && exists f :: IsLargest(c.value.in0, f) && f.largest == pointer.value
  {
    var inputs := GetOverlappingInputs(v[level], level, begin, end);
    ghost var lo, hi :| Selected(v[level], level, begin, end, inputs, lo, hi);
    SelectsSomething(v[level], level, begin, end, inputs, lo, hi);
    if inputs == [] {
      return None, None;
    }
    SelectedAreContiguous(v, level, inputs, lo, hi);
    var limited := LimitInputs(level, inputs, limit);
    if level > 0 {
      ghost var n: nat :| UpTo(inputs, limit, n) && limited == inputs[..n];
      PrefixIsContiguous(level, v[level], inputs, n);
    }
    var in0, in1, grandparents, compactPointer, base0 := SetupOtherInputs(v, level, limited, maxFileSize);
    assert LimitedTo(v, level, begin, end, limit, limited);
    c, pointer := Some(Inputs(level, in0, in1, grandparents)), Some(compactPointer);
  }

  lemma SelectsSomething(files: seq<File>, level: nat, begin: Option<UserKey>, end: Option<UserKey>,
      inputs: seq<File>, lo: Option<UserKey>, hi: Option<UserKey>)
    requires Selected(files, level, begin, end, inputs, lo, hi)
    ensures Files(Overlapping(files, begin, end)) <= Files(inputs)
    ensures inputs == [] <==> Overlapping(files, begin, end) == []
  {
    if Overlapping(files, begin, end) == [] {
      assert forall f | f in files :: !Overlaps(f, begin, end);
      assert ClosedRange(files, begin, end);
      assert Widens(lo, hi, begin, end) && lo == begin && hi == end;
    } else {
      var f := Overlapping(files, begin, end)[0];
      assert f in Overlapping(files, begin, end) && f in inputs;
    }
  }
}
