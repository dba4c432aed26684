/**
 The work of a compaction (db_impl.cc: DoCompactionWork; version_set.cc: Compaction): one pass over the merged
 inputs that drops what no live snapshot can see and cuts the rest into output files.
 */
module CompactionWork {
  import opened InternalKeys
  import opened Versions
  import opened CompactionInputs
  import opened Cursors
  import MergingIterators

  /** No deeper level has a file whose range covers the user key. */
  ghost predicate IsBaseLevel(v: Version, level: nat, user: UserKey) {
    forall l, f {:trigger f in v[l]} | level + 2 <= l < NUM_LEVELS && f in v[l] :: !Covers(f, user)
  }

  /** An earlier entry of the same user key is visible to every live snapshot. */
  ghost predicate Hidden(e: Entry, input: seq<Entry>, smallestSnapshot: SequenceNumber) {
    exists x :: x in input && x.key.user == e.key.user && Less(x.key, e.key) && x.key.sequence <= smallestSnapshot
  }

  ghost predicate DeadTombstone(e: Entry, smallestSnapshot: SequenceNumber, v: Version, level: nat) {
    e.key.kind.Deletion? && e.key.sequence <= smallestSnapshot && IsBaseLevel(v, level, e.key.user)
  }

  ghost predicate Dropped(e: Entry, input: seq<Entry>, smallestSnapshot: SequenceNumber, v: Version, level: nat) {
    Hidden(e, input, smallestSnapshot) || DeadTombstone(e, smallestSnapshot, v, level)
  }

  /** The first n files end before the user key. */
  ghost predicate AllBefore(files: seq<File>, n: nat, user: Option<UserKey>) {
    n <= |files| && forall i | 0 <= i < n :: user.Some? && files[i].largest.user < user.value
  }

  /** A cursor that stands before a file past the key, or at the end, has passed everything that could cover it. */
  lemma CursorDecides(files: seq<File>, n: nat, user: UserKey)
    requires Ordered(files) && AllBefore(files, n, Some(user))
    requires n < |files| ==> user < files[n].smallest.user
    ensures forall f | f in files :: !Covers(f, user)
  {
    forall f | f in files ensures !Covers(f, user) {
      var i :| 0 <= i < |files| && files[i] == f;
      if i > n {
        assert Less(files[n].largest, files[i].smallest);
        RangeIsNonempty(files[n]);
      }
    }
  }

  class Compaction {
    const level: nat
    const inputVersion: Version
    const grandparents: seq<File>
    const maxFileSize: nat

    var levelPtrs: seq<nat>
    var grandparentIndex: nat
    var seenKey: bool
    var overlappedBytes: nat

    /** The last user key IsBaseLevelForKey was asked about. */
    ghost var floor: Option<UserKey>

    constructor (level: nat, inputVersion: Version, grandparents: seq<File>, maxFileSize: nat)
      requires level + 1 < NUM_LEVELS && forall l | 1 <= l < NUM_LEVELS :: Ordered(inputVersion[l])
      ensures Valid() && floor.None? && grandparentIndex == 0
      ensures overlappedBytes == 0 && !seenKey && this.maxFileSize == maxFileSize
      ensures this.level == level && this.inputVersion == inputVersion && this.grandparents == grandparents
    {
      this.level, this.inputVersion, this.grandparents, this.maxFileSize :=
        level, inputVersion, grandparents, maxFileSize;
      levelPtrs := seq(NUM_LEVELS, _ => 0);
      grandparentIndex, seenKey, overlappedBytes := 0, false, 0;
      floor := None;
    }

    /** Every file a cursor has passed ends before the last key asked about. */
    ghost predicate Passed(user: Option<UserKey>)
      reads this
    {
      |levelPtrs| == NUM_LEVELS && forall l | 0 <= l < NUM_LEVELS :: AllBefore(inputVersion[l], levelPtrs[l], user)
    }

    ghost predicate Valid()
      reads this
    {
      && (forall l | 1 <= l < NUM_LEVELS :: Ordered(inputVersion[l]))
      && Passed(floor)
      && grandparentIndex <= |grandparents| && level + 1 < NUM_LEVELS
    }

    /** For keys asked about in ascending order, the moving cursors give the answer of a full scan. */
    method IsBaseLevelForKey(user: UserKey) returns (r: bool)
      requires Valid() && (floor.Some? ==> floor.value <= user)
      modifies `levelPtrs, `floor
      ensures Valid() && floor == Some(user)
      ensures r <==> IsBaseLevel(inputVersion, level, user)
    {
      floor := Some(user);
      for l := level + 2 to NUM_LEVELS
        invariant Passed(Some(user)) && floor == Some(user)
        invariant forall m, f | level + 2 <= m < l && m < NUM_LEVELS && f in inputVersion[m] :: !Covers(f, user)
      {
        while levelPtrs[l] < |inputVersion[l]|
          invariant Passed(Some(user)) && floor == Some(user)
          decreases |inputVersion[l]| - levelPtrs[l]
        {
          var f := inputVersion[l][levelPtrs[l]];
          if user <= f.largest.user {
            if user >= f.smallest.user {
              assert f in inputVersion[l] && Covers(f, user);
              assert !IsBaseLevel(inputVersion, level, user);
              return false;
            }
            break;
          }
          levelPtrs := levelPtrs[l := levelPtrs[l] + 1];
        }
        CursorDecides(inputVersion[l], levelPtrs[l], user);
      }
      return true;
    }

    /** Moves past the grandparents that end before `key`; says whether the current output overlaps too much. */
    method ShouldStopBefore(key: InternalKey) returns (r: bool)
      requires Valid()
      modifies `grandparentIndex, `seenKey, `overlappedBytes
      ensures Valid() && grandparentIndex >= old(grandparentIndex) && seenKey
      ensures grandparentIndex < |grandparents| ==> AtMost(key, grandparents[grandparentIndex].largest)
      ensures forall i | old(grandparentIndex) <= i < grandparentIndex :: Less(grandparents[i].largest, key)
      ensures var passed := if old(seenKey) then TotalFileSize(grandparents[old(grandparentIndex)..grandparentIndex])
        else 0;
              r <==> old(overlappedBytes) + passed > 10 * maxFileSize
      ensures var passed := if old(seenKey) then TotalFileSize(grandparents[old(grandparentIndex)..grandparentIndex])
        else 0;
        overlappedBytes == if r then 0 else old(overlappedBytes) + passed
    {
      while grandparentIndex < |grandparents| && Less(grandparents[grandparentIndex].largest, key)
        invariant Valid() && old(grandparentIndex) <= grandparentIndex && seenKey == old(seenKey)
        invariant forall i | old(grandparentIndex) <= i < grandparentIndex :: Less(grandparents[i].largest, key)
        invariant overlappedBytes == old(overlappedBytes) +
          if seenKey then TotalFileSize(grandparents[old(grandparentIndex)..grandparentIndex]) else 0
        decreases |grandparents| - grandparentIndex
      {
        TotalFileSizeAppend(grandparents[old(grandparentIndex)..grandparentIndex], grandparents[grandparentIndex]);
        assert grandparents[old(grandparentIndex)..grandparentIndex + 1]
            == grandparents[old(grandparentIndex)..grandparentIndex] + [grandparents[grandparentIndex]];
        if seenKey {
          overlappedBytes := overlappedBytes + grandparents[grandparentIndex].size;
        }
        grandparentIndex := grandparentIndex + 1;
      }
      seenKey := true;
      if overlappedBytes > 10 * maxFileSize {
        overlappedBytes := 0;
        return true;
      }
      return false;
    }
  }

  // ----- where outputs end -----

  datatype Output = Output(smallest: InternalKey, largest: InternalKey, entries: seq<Entry>)

  /** What a compaction works on. */
  datatype Job = Job(grandparents: seq<File>, maxFileSize: nat, fileSize: seq<Entry> -> nat, input: seq<Entry>,
      smallestSnapshot: SequenceNumber, base: Version, level: nat)

  /** The first grandparent from `n` on that does not end before the key. */
  function FirstNotBefore(files: seq<File>, n: nat, key: InternalKey): (r: nat)
    requires n <= |files|
    ensures n <= r <= |files|
    decreases |files| - n
  {
    if n < |files| && Less(files[n].largest, key) then FirstNotBefore(files, n + 1, key) else n
  }

  /** How many grandparents lie behind the first n entries of the input. */
  ghost function Behind(job: Job, n: nat): (r: nat)
    requires n <= |job.input|
    ensures r <= |job.grandparents|
  {
    if n == 0 then 0 else FirstNotBefore(job.grandparents, Behind(job, n - 1), job.input[n - 1].key)
  }

  /** The bytes of the grandparents that are passed between the entries a and b of the input. */
  ghost function PassedBytes(job: Job, a: nat, b: nat): (r: nat)
    requires a <= |job.input| && b <= |job.input|
  {
    if Behind(job, a) <= Behind(job, b) then TotalFileSize(job.grandparents[Behind(job, a)..Behind(job, b)]) else 0
  }

  /** Where the overlap is counted from at entry i: the last stop before it, or the first entry. */
  ghost function CountedFrom(job: Job, i: nat): (r: nat)
    requires i < |job.input|
    ensures 0 < r <= i + 1
    decreases i, 0
  {
    if i == 0 then 1 else if StopsAt(job, i - 1) then i else CountedFrom(job, i - 1)
  }

  /** Between the last stop and this entry lie more grandparent bytes than one output should overlap. */
  ghost predicate StopsAt(job: Job, i: nat)
    requires i < |job.input|
    decreases i, 1
  {
    PassedBytes(job, CountedFrom(job, i), i + 1) > 10 * job.maxFileSize
  }

  /** The cursor over the grandparents before entry i. */
  ghost predicate CursorAt(job: Job, i: nat, grandparentIndex: nat, seenKey: bool, overlappedBytes: nat)
    requires i <= |job.input|
  {
    && grandparentIndex == Behind(job, i) && (seenKey <==> i > 0)
    && overlappedBytes == if i == 0 || StopsAt(job, i - 1) then 0 else PassedBytes(job, CountedFrom(job, i - 1), i)
  }

  lemma {:induction false} IsFirstNotBefore(files: seq<File>, n: nat, key: InternalKey, r: nat)
    requires n <= r <= |files| && (r < |files| ==> AtMost(key, files[r].largest))
    requires forall i | n <= i < r :: Less(files[i].largest, key)
    ensures r == FirstNotBefore(files, n, key)
    decreases r - n
  {
    if n < r {
      IsFirstNotBefore(files, n + 1, key, r);
    } else if n < |files| {
      LessIsTotal(files[n].largest, key, files[n].largest);
    }
  }

  lemma {:induction false} TotalSplits(files: seq<File>, a: nat, b: nat, c: nat)
    requires a <= b <= c <= |files|
    ensures TotalFileSize(files[a..c]) == TotalFileSize(files[a..b]) + TotalFileSize(files[b..c])
    decreases c - b
  {
    hide TotalFileSize;
    if b < c {
      TotalSplits(files, a, b, c - 1);
      TotalFileSizeAppend(files[a..c - 1], files[c - 1]);
      TotalFileSizeAppend(files[b..c - 1], files[c - 1]);
      assert files[a..c - 1] + [files[c - 1]] == files[a..c] && files[b..c - 1] + [files[c - 1]] == files[b..c];
    } else {
      assert files[b..c] == [];
      NoFilesNoBytes();
    }
  }

  lemma NoFilesNoBytes()
    ensures TotalFileSize([]) == 0
  {
  }

  lemma {:induction false} BehindGrows(job: Job, a: nat, b: nat)
    requires a <= b <= |job.input|
    ensures Behind(job, a) <= Behind(job, b)
  {
    if a < b { BehindGrows(job, a, b - 1); }
  }

  /** Moving the cursor as ShouldStopBefore does gives the next place, and its answer is the stop. */
  lemma CursorMoves(job: Job, i: nat, index: nat, seen: bool, overlapped: nat, index': nat, stop: bool)
    requires i < |job.input| && CursorAt(job, i, index, seen, overlapped) && index <= index' <= |job.grandparents|
    requires index' < |job.grandparents| ==> AtMost(job.input[i].key, job.grandparents[index'].largest)
    requires forall j | index <= j < index' :: Less(job.grandparents[j].largest, job.input[i].key)
    requires var passed := if seen then TotalFileSize(job.grandparents[index..index']) else 0;
      stop <==> overlapped + passed > 10 * job.maxFileSize
    ensures stop <==> StopsAt(job, i)
    ensures var passed := if seen then TotalFileSize(job.grandparents[index..index']) else 0;
      CursorAt(job, i + 1, index', true, if stop then 0 else overlapped + passed)
  {
    hide StopsAt;
    hide CountedFrom;
    hide PassedBytes;
    hide Behind;
    hide TotalFileSize;
    IsFirstNotBefore(job.grandparents, index, job.input[i].key, index');
    BehindNext(job, i);
    var passed := if seen then TotalFileSize(job.grandparents[index..index']) else 0;
    if i > 0 {
      BytesAdd(job, i, overlapped);
    } else {
      CountedFromFirst(job);
    }
    StopsBy(job, i, overlapped + passed);
  }

  lemma BehindNext(job: Job, i: nat)
    requires i < |job.input|
    ensures Behind(job, 0) == 0 && Behind(job, i) <= Behind(job, i + 1)
    ensures Behind(job, i + 1) == FirstNotBefore(job.grandparents, Behind(job, i), job.input[i].key)
  {
  }

  lemma CountedFromFirst(job: Job)
    requires job.input != []
    ensures PassedBytes(job, CountedFrom(job, 0), 1) == 0
  {
    NothingPassed(job, 1);
  }

  lemma StopsBy(job: Job, i: nat, bytes: nat)
    requires i < |job.input| && bytes == PassedBytes(job, CountedFrom(job, i), i + 1)
    ensures StopsAt(job, i) <==> bytes > 10 * job.maxFileSize
  {
  }

  lemma NothingPassed(job: Job, i: nat)
    requires i <= |job.input|
    ensures PassedBytes(job, i, i) == 0
  {
    assert job.grandparents[Behind(job, i)..Behind(job, i)] == [];
  }

  /** What has been counted before entry i and what entry i passes add up. */
  lemma BytesAdd(job: Job, i: nat, overlapped: nat)
    requires 0 < i < |job.input|
    requires overlapped == if StopsAt(job, i - 1) then 0 else PassedBytes(job, CountedFrom(job, i - 1), i)
    ensures Behind(job, i) <= Behind(job, i + 1)
    ensures PassedBytes(job, CountedFrom(job, i), i + 1)
      == overlapped + TotalFileSize(job.grandparents[Behind(job, i)..Behind(job, i + 1)])
  {
    hide StopsAt;
    hide TotalFileSize;
    var from := CountedFrom(job, i);
    assert from <= i;
    BehindGrows(job, from, i);
    BehindGrows(job, i, i + 1);
    TotalSplits(job.grandparents, Behind(job, from), Behind(job, i), Behind(job, i + 1));
    if StopsAt(job, i - 1) { NothingPassed(job, i); }
  }

  /** The entries are those that the drop rules keep of the input from a to b. */
  ghost predicate KeptOf(job: Job, a: nat, b: nat, entries: seq<Entry>)
    requires a <= b <= |job.input|
  {
    forall e :: e in entries <==>
      e in job.input[a..b] && !Dropped(e, job.input, job.smallestSnapshot, job.base, job.level)
  }

  /** No table that is a part of the entries is big enough yet. */
  ghost predicate Small(job: Job, entries: seq<Entry>, n: nat) {
    forall j | 0 < j < n && j <= |entries| :: job.fileSize(entries[..j]) < job.maxFileSize
  }

  /** No stop lies between two entries of one output: before a stop in the middle there is nothing yet. */
  ghost predicate NoStopInside(job: Job, a: nat, b: nat)
    requires a <= b <= |job.input|
  {
    forall q | a < q < b && StopsAt(job, q) :: KeptOf(job, a, q, [])
  }

  /** An output, closed or still open, from the input entries a to b. */
  ghost predicate OnePiece(job: Job, a: nat, b: nat, entries: seq<Entry>) {
    a <= b <= |job.input| && KeptOf(job, a, b, entries) && Small(job, entries, |entries|) && NoStopInside(job, a, b)
  }

  /** Why an output has been closed at b: it is big enough, or the next entry is a stop. */
  ghost predicate ClosedFor(job: Job, b: nat, entries: seq<Entry>) {
    job.fileSize(entries) >= job.maxFileSize || (b < |job.input| && StopsAt(job, b))
  }

  ghost function StartOf(ends: seq<nat>, k: nat): (r: nat)
    requires k <= |ends|
  {
    if k == 0 then 0 else ends[k - 1]
  }

  /** Output k is one piece; all but perhaps the last were closed for a reason. */
  ghost predicate CutAt(job: Job, outputs: seq<Output>, ends: seq<nat>, n: nat) {
    && |ends| == |outputs| && n <= |outputs|
    && (forall k | 0 <= k < |outputs| :: OnePiece(job, StartOf(ends, k), ends[k], outputs[k].entries))
    && (forall k | 0 <= k < n :: ClosedFor(job, ends[k], outputs[k].entries))
  }

  /** The closed outputs and the open one after i entries of the input. */
  ghost predicate CutSoFar(job: Job, outputs: seq<Output>, open: seq<Entry>, ends: seq<nat>, i: nat) {
    && CutAt(job, outputs, ends, |outputs|) && OnePiece(job, StartOf(ends, |ends|), i, open)
    && Small(job, open, |open| + 1)
  }

  lemma EmptyPiece(job: Job, i: nat)
    requires i <= |job.input|
    ensures OnePiece(job, i, i, []) && Small(job, [], 1)
  {
  }

  /** An output is closed at i. */
  lemma ClosedAt(job: Job, outputs: seq<Output>, ends: seq<nat>, o: Output, i: nat, n: nat)
    requires CutAt(job, outputs, ends, |outputs|) && OnePiece(job, StartOf(ends, |ends|), i, o.entries)
    requires n == |outputs| || (n == |outputs| + 1 && ClosedFor(job, i, o.entries))
    ensures CutAt(job, outputs + [o], ends + [i], n)
  {
    hide OnePiece;
    hide ClosedFor;
    var outputs', ends' := outputs + [o], ends + [i];
    forall k | 0 <= k < |outputs'| ensures OnePiece(job, StartOf(ends', k), ends'[k], outputs'[k].entries) {
      assert k < |outputs| ==> OnePiece(job, StartOf(ends, k), ends[k], outputs[k].entries);
    }
    forall k | 0 <= k < n ensures ClosedFor(job, ends'[k], outputs'[k].entries) {
      assert k < |outputs| ==> ClosedFor(job, ends[k], outputs[k].entries);
    }
  }

  /** The open output after the next entry, which is dropped or put at its end. */
  lemma PieceGoesOn(job: Job, a: nat, i: nat, open: seq<Entry>)
    requires i < |job.input| && OnePiece(job, a, i, open) && Small(job, open, |open| + 1)
    requires StopsAt(job, i) ==> open == [] || a == i
    ensures var e := job.input[i];
      OnePiece(job, a, i + 1,
        if Dropped(e, job.input, job.smallestSnapshot, job.base, job.level) then open else open + [e])
  {
    hide KeptOf;
    hide Small;
    hide NoStopInside;
    hide Dropped;
    KeptGoesOn(job, a, i, open);
    SmallGoesOn(job, open, job.input[i]);
    StopsGoOn(job, a, i, open);
  }

  lemma KeptGoesOn(job: Job, a: nat, i: nat, open: seq<Entry>)
    requires a <= i < |job.input| && KeptOf(job, a, i, open)
    ensures var e := job.input[i];
      KeptOf(job, a, i + 1,
        if Dropped(e, job.input, job.smallestSnapshot, job.base, job.level) then open else open + [e])
  {
    hide Dropped;
    assert job.input[a..i + 1] == job.input[a..i] + [job.input[i]];
  }

  lemma SmallGoesOn(job: Job, open: seq<Entry>, e: Entry)
    requires Small(job, open, |open| + 1)
    ensures Small(job, open, |open|) && Small(job, open + [e], |open + [e]|)
  {
    forall j | 0 < j < |open + [e]| ensures job.fileSize((open + [e])[..j]) < job.maxFileSize {
      assert (open + [e])[..j] == open[..j];
    }
  }

  lemma StopsGoOn(job: Job, a: nat, i: nat, open: seq<Entry>)
    requires a <= i < |job.input| && KeptOf(job, a, i, open) && NoStopInside(job, a, i)
    requires StopsAt(job, i) ==> open == [] || a == i
    ensures NoStopInside(job, a, i + 1)
  {
    hide StopsAt;
    hide KeptOf;
  }

  // ----- DoCompactionWork -----

  function Flatten(outputs: seq<Output>): (r: seq<Entry>) {
    if outputs == [] then [] else Flatten(outputs[..|outputs| - 1]) + outputs[|outputs| - 1].entries
  }

  ghost predicate OutputsWellFormed(outputs: seq<Output>) {
    forall i {:trigger outputs[i]} | 0 <= i < |outputs| :: var o := outputs[i];
      |o.entries| > 0 && o.smallest == o.entries[0].key && o.largest == o.entries[|o.entries| - 1].key
  }

  /** Everything kept so far: the closed outputs and the entries of the open one. */
  function Kept(outputs: seq<Output>, open: seq<Entry>): (r: seq<Entry>) {
    Flatten(outputs) + open
  }

  /** FinishCompactionOutputFile: the open output becomes a closed one; an empty one is never closed. */
  method FinishOutput(outputs: seq<Output>, open: seq<Entry>) returns (closed: seq<Output>)
    requires open != [] && OutputsWellFormed(outputs)
    ensures Kept(closed, []) == Kept(outputs, open) && OutputsWellFormed(closed)
    ensures |closed| == |outputs| + 1 && closed[..|outputs|] == outputs && closed[|outputs|].entries == open
  {
    closed := outputs + [Output(open[0].key, open[|open| - 1].key, open)];
    assert closed[..|closed| - 1] == outputs;
  }

  /** The kept entries are the first `i` of the input without the dropped ones. */
  ghost predicate KeptExactly(kept: seq<Entry>, i: nat, input: seq<Entry>, smallestSnapshot: SequenceNumber,
      base: Version, level: nat)
    requires i <= |input|
  {
    forall e :: e in kept <==> e in input[..i] && !Dropped(e, input, smallestSnapshot, base, level)
  }

  /** The two drop rules, for the entry `input[i]`; `last` is the sequence of the entry before it for the same key. */
  method ShouldDrop(c: Compaction, e: Entry, ghost input: seq<Entry>, ghost i: nat, last: SequenceNumber,
      smallestSnapshot: SequenceNumber) returns (drop: bool)
    requires c.Valid() && Sorted(input) && i < |input|
    requires e == input[i]
    requires smallestSnapshot < MAX_SEQUENCE
    requires last == if i > 0 && input[i - 1].key.user == input[i].key.user then input[i - 1].key.sequence
      else MAX_SEQUENCE
    requires c.floor.Some? ==> c.floor.value <= input[i].key.user
    modifies c`levelPtrs, c`floor
    ensures c.Valid() && (c.floor.Some? ==> c.floor.value <= input[i].key.user)
    ensures drop <==> Dropped(input[i], input, smallestSnapshot, c.inputVersion, c.level)
  {
    PreviousHides(input, i, last, smallestSnapshot);
    drop := false;
    if last <= smallestSnapshot {
      drop := true;
    } else if e.key.kind.Deletion? && e.key.sequence <= smallestSnapshot {
      drop := c.IsBaseLevelForKey(e.key.user);
    }
  }

  /** The outputs so far hold what is kept of the first `i` entries, in order. */
  ghost predicate Progress(outputs: seq<Output>, open: seq<Entry>, i: nat, input: seq<Entry>,
      smallestSnapshot: SequenceNumber, base: Version, level: nat)
    requires i <= |input|
  {
    OutputsWellFormed(outputs) && Sorted(Kept(outputs, open))
      && KeptExactly(Kept(outputs, open), i, input, smallestSnapshot, base, level)
  }

  /** Puts an entry that is kept into the open output, and closes that if it is big enough. */
  method AddEntry(outputs: seq<Output>, open: seq<Entry>, e: Entry, maxFileSize: nat, fileSize: seq<Entry> -> nat)
    returns (outputs': seq<Output>, open': seq<Entry>)
    requires OutputsWellFormed(outputs)
    ensures OutputsWellFormed(outputs') && Kept(outputs', open') == Kept(outputs, open + [e])
    ensures fileSize(open + [e]) < maxFileSize ==> outputs' == outputs && open' == open + [e]
    ensures fileSize(open + [e]) >= maxFileSize ==> |outputs'| == |outputs| + 1 && outputs'[..|outputs|] == outputs
    ensures fileSize(open + [e]) >= maxFileSize ==> outputs'[|outputs|].entries == open + [e] && open' == []
  {
    outputs', open' := outputs, open + [e];
    if fileSize(open') >= maxFileSize {
      outputs' := FinishOutput(outputs, open');
      open' := [];
    }
  }

  /** What the loop remembers of the entry before: its user key and its sequence number. */
  ghost predicate Remembers(floor: Option<UserKey>, user: Option<UserKey>, last: SequenceNumber, i: nat,
      input: seq<Entry>)
    requires i <= |input|
  {
    && (i == 0 ==> user.None?)
    && (i > 0 ==> user == Some(input[i - 1].key.user) && last == input[i - 1].key.sequence)
    && (floor.Some? ==> i > 0 && floor.value <= input[i - 1].key.user)
  }

  /** What an object has been set up for. */
  ghost predicate WorksOn(c: Compaction, job: Job) {
    && c.grandparents == job.grandparents && c.maxFileSize == job.maxFileSize && c.inputVersion == job.base
    && c.level == job.level
  }

  /** The output so far is cut off in front of a stop. */
  method StopOutput(c: Compaction, e: Entry, outputs: seq<Output>, open: seq<Entry>, ghost i: nat, ghost job: Job,
      ghost ends: seq<nat>)
    returns (outputs': seq<Output>, open': seq<Entry>, ghost ends': seq<nat>)
    requires c.Valid() && WorksOn(c, job) && i < |job.input| && e == job.input[i]
    requires CursorAt(job, i, c.grandparentIndex, c.seenKey, c.overlappedBytes)
    requires Progress(outputs, open, i, job.input, job.smallestSnapshot, job.base, job.level)
    requires CutSoFar(job, outputs, open, ends, i)
    modifies c`grandparentIndex, c`seenKey, c`overlappedBytes
    ensures c.Valid() && CursorAt(job, i + 1, c.grandparentIndex, c.seenKey, c.overlappedBytes)
    ensures Progress(outputs', open', i, job.input, job.smallestSnapshot, job.base, job.level)
    ensures CutSoFar(job, outputs', open', ends', i)
    ensures StopsAt(job, i) ==> open' == []
  {
    hide Progress;
    hide OnePiece;
    hide StopsAt;
    hide CursorAt;
    hide Compaction.Valid;
    hide CutAt;
    hide Small;
    hide TotalFileSize;
    hide OutputsWellFormed;
    outputs', open', ends' := outputs, open, ends;
    ghost var index, seen, overlapped := c.grandparentIndex, c.seenKey, c.overlappedBytes;
    var stop := c.ShouldStopBefore(e.key);
    CursorMoves(job, i, index, seen, overlapped, c.grandparentIndex, stop);
    if stop && open != [] {
      ProgressIsWellFormed(outputs, open, i, job.input, job.smallestSnapshot, job.base, job.level);
      outputs' := FinishOutput(outputs, open);
      open' := [];
      KeptAlike(outputs, open, outputs', open', i, job.input, job.smallestSnapshot, job.base, job.level);
      assert outputs' == outputs + [outputs'[|outputs|]];
      ClosedAt(job, outputs, ends, outputs'[|outputs|], i, |outputs| + 1);
      ends' := ends + [i];
      EmptyPiece(job, i);
    }
  }

  lemma ProgressIsWellFormed(outputs: seq<Output>, open: seq<Entry>, i: nat, input: seq<Entry>,
      smallestSnapshot: SequenceNumber, base: Version, level: nat)
    requires i <= |input| && Progress(outputs, open, i, input, smallestSnapshot, base, level)
    ensures OutputsWellFormed(outputs)
  {
  }

  /** One turn of the compaction loop: cut the output if need be, then drop the entry or put it into the output. */
  method CompactEntry(c: Compaction, e: Entry, outputs: seq<Output>, open: seq<Entry>, user: Option<UserKey>,
      last: SequenceNumber, ghost i: nat, ghost job: Job, ghost ends: seq<nat>, smallestSnapshot: SequenceNumber,
      fileSize: seq<Entry> -> nat)
    returns (outputs': seq<Output>, open': seq<Entry>, ghost ends': seq<nat>)
    requires c.Valid() && WorksOn(c, job) && Sorted(job.input) && smallestSnapshot < MAX_SEQUENCE
    requires job.smallestSnapshot == smallestSnapshot && job.fileSize == fileSize
    requires i < |job.input| && e == job.input[i] && Remembers(c.floor, user, last, i, job.input)
    requires CursorAt(job, i, c.grandparentIndex, c.seenKey, c.overlappedBytes)
    requires Progress(outputs, open, i, job.input, smallestSnapshot, job.base, job.level)
    requires CutSoFar(job, outputs, open, ends, i)
    modifies c
    ensures c.Valid() && Remembers(c.floor, Some(e.key.user), e.key.sequence, i + 1, job.input)
    ensures CursorAt(job, i + 1, c.grandparentIndex, c.seenKey, c.overlappedBytes)
    ensures Progress(outputs', open', i + 1, job.input, smallestSnapshot, job.base, job.level)
    ensures CutSoFar(job, outputs', open', ends', i + 1)
  {
    hide Progress;
    hide OnePiece;
    hide StopsAt;
    hide CursorAt;
    hide Dropped;
    hide Compaction.Valid;
    outputs', open', ends' := StopOutput(c, e, outputs, open, i, job, ends);
    var lastSequenceForKey := if user == Some(e.key.user) then last else MAX_SEQUENCE;
    assert i > 0 ==> Less(job.input[i - 1].key, e.key);
    var drop := ShouldDrop(c, e, job.input, i, lastSequenceForKey, smallestSnapshot);
    AppendStays(outputs', open', i, job.input, smallestSnapshot, job.base, job.level);
    PieceGoesOn(job, StartOf(ends', |ends'|), i, open');
    if !drop {
      outputs', open', ends' := KeepEntry(outputs', open', e, i, job, ends', c.maxFileSize, fileSize);
    }
  }

  /** The entry is kept: it goes into the open output. */
  method KeepEntry(outputs: seq<Output>, open: seq<Entry>, e: Entry, ghost i: nat, ghost job: Job, ghost ends: seq<nat>,
      maxFileSize: nat, fileSize: seq<Entry> -> nat)
    returns (outputs': seq<Output>, open': seq<Entry>, ghost ends': seq<nat>)
    requires i < |job.input| && job.fileSize == fileSize && job.maxFileSize == maxFileSize
    requires Progress(outputs, open + [e], i + 1, job.input, job.smallestSnapshot, job.base, job.level)
    requires CutSoFar(job, outputs, open, ends, i) && OnePiece(job, StartOf(ends, |ends|), i + 1, open + [e])
    ensures Progress(outputs', open', i + 1, job.input, job.smallestSnapshot, job.base, job.level)
    ensures CutSoFar(job, outputs', open', ends', i + 1)
  {
    hide Progress;
    hide OnePiece;
    hide StopsAt;
    hide CutAt;
    hide Small;
    hide ClosedFor;
    hide OutputsWellFormed;
    ProgressIsWellFormed(outputs, open + [e], i + 1, job.input, job.smallestSnapshot, job.base, job.level);
    outputs', open' := AddEntry(outputs, open, e, maxFileSize, fileSize);
    KeptAlike(outputs, open + [e], outputs', open', i + 1, job.input, job.smallestSnapshot, job.base, job.level);
    ends' := ends;
    if fileSize(open + [e]) < maxFileSize {
      SmallWithLast(job, open, e);
    } else {
      assert outputs' == outputs + [outputs'[|outputs|]];
      BigEnough(job, i + 1, open + [e]);
      ClosedAt(job, outputs, ends, outputs'[|outputs|], i + 1, |outputs| + 1);
      ends' := ends + [i + 1];
      EmptyPiece(job, i + 1);
    }
  }

  lemma BigEnough(job: Job, b: nat, entries: seq<Entry>)
    requires job.fileSize(entries) >= job.maxFileSize
    ensures ClosedFor(job, b, entries)
  {
  }

  lemma SmallWithLast(job: Job, open: seq<Entry>, e: Entry)
    requires Small(job, open, |open| + 1) && job.fileSize(open + [e]) < job.maxFileSize
    ensures Small(job, open + [e], |open + [e]| + 1)
  {
    forall j | 0 < j < |open + [e]| + 1 ensures job.fileSize((open + [e])[..j]) < job.maxFileSize {
      if j <= |open| {
        assert (open + [e])[..j] == open[..j];
      } else {
        assert (open + [e])[..j] == open + [e];
      }
    }
  }

  /**
   The compaction loop.  `fileSize` gives the size the table builder reports for the entries added so far.  The
   outputs, read one after the other, are exactly the merged inputs without the dropped entries, still sorted; each but
   the last ends where it is big enough or in front of a stop, and none goes on behind such a place.
   */
  method DoCompactionWork(c: Compaction, input: MergingIterators.MergingIterator, smallestSnapshot: SequenceNumber,
      fileSize: seq<Entry> -> nat)
    returns (outputs: seq<Output>, ghost ends: seq<nat>)
    requires c.Valid() && c.floor.None? && c.grandparentIndex == 0 && !c.seenKey && c.overlappedBytes == 0
    requires input.Valid() && smallestSnapshot < MAX_SEQUENCE
    modifies c, input
    ensures OutputsWellFormed(outputs) && Sorted(Flatten(outputs))
    ensures KeptExactly(Flatten(outputs), |input.union|, input.union, smallestSnapshot, c.inputVersion, c.level)
    ensures CutAt(
      Job(c.grandparents, c.maxFileSize, fileSize, input.union, smallestSnapshot, c.inputVersion, c.level),
      outputs, ends, if outputs == [] then 0 else |outputs| - 1)
  {
    hide Compaction.Valid;
    hide Progress;
    hide CursorAt;
    hide CutSoFar;
    hide MergingIterators.MergingIterator.Shape;
    hide MergingIterators.MergingIterator.At;
    hide MergingIterators.AllFrom;
    hide MergingIterators.AllBefore;
    outputs := [];
    var open: seq<Entry> := [];
    var currentUserKey: Option<UserKey> := None;
    var lastSequenceForKey: SequenceNumber := MAX_SEQUENCE;
    ghost var all, i := input.union, 0;
    ghost var job := Job(c.grandparents, c.maxFileSize, fileSize, all, smallestSnapshot, c.inputVersion, c.level);
    UnionIsSorted(input);
    NothingKept(all, smallestSnapshot, c.inputVersion, c.level);
    NothingCut(job);
    ends := [];
    input.SeekToFirst();
    while input.IsValid()
      invariant input.Valid() && input.At() == (if i < |all| then Some(i) else None)
      invariant 0 <= i <= |all| && c.Valid()
      invariant Remembers(c.floor, currentUserKey, lastSequenceForKey, i, all)
      invariant Progress(outputs, open, i, all, smallestSnapshot, c.inputVersion, c.level)
      invariant CursorAt(job, i, c.grandparentIndex, c.seenKey, c.overlappedBytes)
      invariant CutSoFar(job, outputs, open, ends, i)
      decreases |all| - i
    {
      var e := input.Current();
      outputs, open, ends := CompactEntry(c, e, outputs, open, currentUserKey, lastSequenceForKey, i, job, ends,
        smallestSnapshot, fileSize);
      currentUserKey, lastSequenceForKey := Some(e.key.user), e.key.sequence;
      input.Next();
      i := i + 1;
    }
    outputs, ends := CloseLast(outputs, open, job, ends);
  }

  lemma NothingCut(job: Job)
    ensures CursorAt(job, 0, 0, false, 0) && CutSoFar(job, [], [], [], 0)
  {
  }

  lemma FewerReasons(job: Job, outputs: seq<Output>, ends: seq<nat>)
    requires CutAt(job, outputs, ends, |outputs|)
    ensures CutAt(job, outputs, ends, if outputs == [] then 0 else |outputs| - 1)
  {
    hide OnePiece;
    hide ClosedFor;
  }

  method CloseLast(outputs: seq<Output>, open: seq<Entry>, ghost job: Job, ghost ends: seq<nat>)
    returns (closed: seq<Output>, ghost ends': seq<nat>)
    requires Progress(outputs, open, |job.input|, job.input, job.smallestSnapshot, job.base, job.level)
    requires CutSoFar(job, outputs, open, ends, |job.input|)
    ensures OutputsWellFormed(closed) && Sorted(Flatten(closed))
    ensures KeptExactly(Flatten(closed), |job.input|, job.input, job.smallestSnapshot, job.base, job.level)
    ensures CutAt(job, closed, ends', if closed == [] then 0 else |closed| - 1)
  {
    hide OnePiece;
    hide ClosedFor;
    hide Dropped;
    hide CutAt;
    hide Small;
    closed, ends' := outputs, ends;
    FewerReasons(job, outputs, ends);
    if open != [] {
      closed := FinishOutput(outputs, open);
      assert closed == outputs + [closed[|outputs|]];
      ClosedAt(job, outputs, ends, closed[|outputs|], |job.input|, |outputs|);
      ends' := ends + [|job.input|];
    }
    assert Kept(closed, []) == Flatten(closed);
  }

  lemma NothingKept(input: seq<Entry>, smallestSnapshot: SequenceNumber, base: Version, level: nat)
    ensures Progress([], [], 0, input, smallestSnapshot, base, level)
  {
  }

  /** How the kept entries are cut into outputs does not matter. */
  lemma KeptAlike(outputs: seq<Output>, open: seq<Entry>, outputs': seq<Output>, open': seq<Entry>, i: nat,
      input: seq<Entry>, smallestSnapshot: SequenceNumber, base: Version, level: nat)
    requires i <= |input| && Progress(outputs, open, i, input, smallestSnapshot, base, level)
    requires Kept(outputs', open') == Kept(outputs, open) && OutputsWellFormed(outputs')
    ensures Progress(outputs', open', i, input, smallestSnapshot, base, level)
  {
  }

  lemma UnionIsSorted(input: MergingIterators.MergingIterator)
    requires input.Valid()
    ensures Sorted(input.union)
  {
  }

  /** Appending the next input entry, unless it is dropped, keeps the kept entries sorted and exact. */
  lemma AppendStays(outputs: seq<Output>, open: seq<Entry>, i: nat, input: seq<Entry>, smallestSnapshot: SequenceNumber,
      base: Version, level: nat)
    requires Sorted(input) && i < |input| && Progress(outputs, open, i, input, smallestSnapshot, base, level)
    ensures Progress(outputs, if Dropped(input[i], input, smallestSnapshot, base, level) then open
      else open + [input[i]],
      i + 1, input, smallestSnapshot, base, level)
  {
    hide Dropped;
    var kept := Kept(outputs, open);
    assert input[..i + 1] == input[..i] + [input[i]];
    forall j | 0 <= j < |kept| ensures Less(kept[j].key, input[i].key) {
      assert kept[j] in kept && kept[j] in input[..i];
    }
    assert Kept(outputs, open + [input[i]]) == kept + [input[i]];
  }

  /** The sequence of the previous entry for the user key decides whether an entry is hidden. */
  lemma PreviousHides(input: seq<Entry>, i: nat, last: SequenceNumber, smallestSnapshot: SequenceNumber)
    requires Sorted(input) && i < |input| && smallestSnapshot < MAX_SEQUENCE
    requires last == if i > 0 && input[i - 1].key.user == input[i].key.user then input[i - 1].key.sequence
      else MAX_SEQUENCE
    ensures last <= smallestSnapshot <==> Hidden(input[i], input, smallestSnapshot)
  {
    var e := input[i];
    if last <= smallestSnapshot {
      assert input[i - 1] in input && Less(input[i - 1].key, e.key);
    }
    if Hidden(e, input, smallestSnapshot) {
      var x :| x in input && x.key.user == e.key.user && Less(x.key, e.key) && x.key.sequence <= smallestSnapshot;
      var j :| 0 <= j < |input| && input[j] == x;
      assert j < i by {
        assert j > i ==> Less(input[i].key, input[j].key);
      }
      assert j == i - 1 || Less(input[j].key, input[i - 1].key);
      assert Less(input[i - 1].key, e.key);
    }
  }
}
