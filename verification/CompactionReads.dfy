/**
 What a compaction does to reads.  Dropping entries preserves every read at or above the smallest snapshot except
 in one case, which is stated exactly: a dropped deletion whose older value lives on in the next file of the
 output level, because the inputs of that level are not closed under files that continue their last user key.
 */
module CompactionReads {
  import opened InternalKeys
  import opened Versions
  import opened CompactionInputs
  import opened CompactionWork
  import opened LsmSteps

  /** What a database holds: entries in memory and entries of files. */
  ghost function Held(upper: iset<Entry>, v: Version): (r: iset<Entry>) {
    iset e | e in upper || Stored(v, e)
  }

  /** The sequence number of the newest held entry for `user` at or before `s`, or 0. */
  ghost function LastHeld(history: seq<Entry>, held: iset<Entry>, user: UserKey, s: nat): (n: nat)
    requires s <= |history|
    ensures n <= s
    ensures n > 0 ==> history[n - 1].key.user == user && history[n - 1] in held
    ensures forall i | n <= i < s && history[i].key.user == user :: history[i] !in held
  {
    if s == 0 then 0
    else if history[s - 1].key.user == user && history[s - 1] in held then s
    else LastHeld(history, held, user, s - 1)
  }

  ghost function Shown(history: seq<Entry>, n: nat): (r: Option<Bytes>)
    requires n <= |history|
  {
    if n == 0 || history[n - 1].key.kind.Deletion? then None else Some(history[n - 1].value)
  }

  /** What a read of the held entries at `s` returns. */
  ghost function View(history: seq<Entry>, held: iset<Entry>, user: UserKey, s: nat): (r: Option<Bytes>)
    requires s <= |history|
  {
    Shown(history, LastHeld(history, held, user, s))
  }

  ghost predicate InHistory(history: seq<Entry>, e: Entry) {
    1 <= e.key.sequence <= |history| && history[e.key.sequence - 1] == e
  }

  /** A held entry is the one a read finds, if no later one matches. */
  lemma {:induction false} LastHeldIs(history: seq<Entry>, held: iset<Entry>, user: UserKey, s: nat, n: nat)
    requires n <= s <= |history|
    requires n > 0 ==> history[n - 1].key.user == user && history[n - 1] in held
    requires forall i | n <= i < s && history[i].key.user == user :: history[i] !in held
    ensures LastHeld(history, held, user, s) == n
  {
    if s > n {
      LastHeldIs(history, held, user, s - 1, n);
    }
  }

  ghost predicate AllInHistory(history: seq<Entry>, held: iset<Entry>) {
    forall e | e in held :: InHistory(history, e)
  }

  /** A read never stops below a matching held entry. */
  lemma ReadReaches(history: seq<Entry>, held: iset<Entry>, user: UserKey, s: nat, x: Entry)
    requires s <= |history| && x in held && InHistory(history, x)
    requires x.key.user == user && x.key.sequence <= s
    ensures x.key.sequence <= LastHeld(history, held, user, s)
  {
    assert history[x.key.sequence - 1] == x;
  }

  /** The surroundings of a compaction about to be installed. */
  ghost predicate Context(history: seq<Entry>, upper: iset<Entry>, v: Version, c: Inputs, base: Version) {
    && IsHistory(history)
    && LsmInvariant(v) && InFlight(v, c, base)
    && AllInHistory(history, Held(upper, v))
    && (forall x, e {:trigger x in upper, Stored(v, e)} | x in upper && Stored(v, e) :: x.key.sequence > e.key.sequence)
  }

  /** The outputs hold exactly the input entries that the compaction loop keeps. */
  ghost predicate OutputsKeep(c: Inputs, input: seq<Entry>, smallestSnapshot: SequenceNumber, base: Version,
      outs: seq<File>)
  {
    && (forall e :: e in input <==> FromInputs(c, e))
    && (forall o, e | o in outs && e in o.entries :: e in input && !Dropped(e, input, smallestSnapshot, base, c.level))
    && (forall e | e in input && !Dropped(e, input, smallestSnapshot, base, c.level) :: exists o ::
      o in outs && e in o.entries)
  }

  /** g is the first of the files that are left out of the level+1 inputs and continue the last user key of h. */
  ghost predicate FirstContinuation(level: seq<File>, in1: seq<File>, h: File, g: File) {
    && g in level && g !in in1 && IsBoundary(g, h.largest)
    && forall f | f in level && f !in in1 && IsBoundary(f, h.largest) :: AtMost(g.smallest, f.smallest)
  }

  /**
   The guard that fails: t is a droppable deletion of h's last user key, visible at `horizon`, and g goes on with a
   value.
   */
  ghost predicate ResurrectsAt(history: seq<Entry>, upper: iset<Entry>, v: Version, c: Inputs,
      smallestSnapshot: SequenceNumber,
    base: Version, horizon: nat, h: File, g: File, t: Entry)
    requires c.level + 1 < NUM_LEVELS && horizon <= |history|
  {
    && h in c.in1 && t in h.entries && t.key.user == h.largest.user
    && DeadTombstone(t, smallestSnapshot, base, c.level)
    && LastHeld(history, Held(upper, v), t.key.user, horizon) == t.key.sequence
    && FirstContinuation(v[c.level + 1], c.in1, h, g) && |g.entries| > 0 && g.entries[0].key.kind.Value?
  }

  ghost predicate Resurrects(history: seq<Entry>, upper: iset<Entry>, v: Version, c: Inputs,
      smallestSnapshot: SequenceNumber, base: Version, horizon: nat)
    requires c.level + 1 < NUM_LEVELS && horizon <= |history|
  {
    exists h, g, t :: ResurrectsAt(history, upper, v, c, smallestSnapshot, base, horizon, h, g, t)
  }

  /** The level+1 inputs are closed: no file left out goes on with a user key at which an input ends. */
  ghost predicate NextLevelClosed(v: Version, c: Inputs)
    requires c.level + 1 < NUM_LEVELS
  {
    forall h, g | h in c.in1 && g in v[c.level + 1] && g !in c.in1 :: !IsBoundary(g, h.largest)
  }

  lemma ClosedNeverResurrects(history: seq<Entry>, upper: iset<Entry>, v: Version, c: Inputs,
      smallestSnapshot: SequenceNumber, base: Version, horizon: nat)
    requires c.level + 1 < NUM_LEVELS && horizon <= |history| && NextLevelClosed(v, c)
    ensures !Resurrects(history, upper, v, c, smallestSnapshot, base, horizon)
  {
  }

  /** An older entry in a file that remains can only sit in a level+1 file that continues the tombstone's file. */
  lemma OlderRemainsOnlyPast(v: Version, c: Inputs, base: Version, h: File, t: Entry, l: nat, g: File, x: Entry)
    requires LsmInvariant(v) && InFlight(v, c, base)
    requires h in AllInputs(c) && t in h.entries && IsBaseLevel(base, c.level, t.key.user)
    requires l < NUM_LEVELS && Remains(v, c, l, g) && x in g.entries
    requires x.key.user == t.key.user && x.key.sequence < t.key.sequence
    ensures l == c.level + 1 && h in c.in1 && g !in c.in1
    ensures IsBoundary(g, h.largest) && t.key.user == h.largest.user
  {
    assert h in v[c.level] || h in v[c.level + 1];
    EntryInRange(h, t);
    EntryInRange(g, x);
    if l <= c.level {
      RemainsNewer(v, c, base, l, g, h);
    } else if l >= c.level + 2 {
      assert !UserApart(h, g);
      assert Covers(g, t.key.user);
    } else {
      assert h in c.in0 ==> UserApart(h, g);
      assert Apart(h, g);
    }
  }

  ghost predicate InRemaining(v: Version, c: Inputs, e: Entry) {
    exists l, g :: 0 <= l < NUM_LEVELS && Remains(v, c, l, g) && e in g.entries
  }

  ghost predicate InOutputs(outs: seq<File>, e: Entry) {
    exists o :: o in outs && e in o.entries
  }

  /** The entries held once the outputs have replaced the inputs. */
  lemma HeldAfter(upper: iset<Entry>, v: Version, c: Inputs, outs: seq<File>, v': Version, e: Entry)
    requires c.level + 1 < NUM_LEVELS && Replaced(v, c, outs, v')
    ensures e in Held(upper, v') <==> (e in upper || InRemaining(v, c, e) || InOutputs(outs, e))
  {
    if InRemaining(v, c, e) {
      var l, g :| 0 <= l < NUM_LEVELS && Remains(v, c, l, g) && e in g.entries;
      assert g in v'[l];
      StoredIn(v', l, g, e);
    }
    if InOutputs(outs, e) {
      var o :| o in outs && e in o.entries;
      assert o in v'[c.level + 1];
      StoredIn(v', c.level + 1, o, e);
    }
    if Stored(v', e) {
      var l, g :| 0 <= l < NUM_LEVELS && g in v'[l] && e in g.entries;
      assert Remains(v, c, l, g) || g in outs;
    }
  }

  /** Nothing appears; what disappears was dropped from the inputs. */
  lemma HeldShrinks(upper: iset<Entry>, v: Version, c: Inputs, base: Version, input: seq<Entry>,
      smallestSnapshot: SequenceNumber,
    outs: seq<File>, v': Version, e: Entry)
    requires InFlight(v, c, base) && Replaced(v, c, outs, v') && OutputsKeep(c, input, smallestSnapshot, base, outs)
    ensures e in Held(upper, v') ==> e in Held(upper, v)
    ensures e in Held(upper, v) && e !in Held(upper, v') ==>
      e in input && Dropped(e, input, smallestSnapshot, base, c.level)
  {
    HeldAfter(upper, v, c, outs, v', e);
    if e in Held(upper, v') && e !in upper {
      if InRemaining(v, c, e) {
        var l, g :| 0 <= l < NUM_LEVELS && Remains(v, c, l, g) && e in g.entries;
        StoredIn(v, l, g, e);
      } else {
        var o :| o in outs && e in o.entries;
        InputStored(v, c, base, e);
      }
    }
    if e in Held(upper, v) && e !in Held(upper, v') {
      var l, g :| 0 <= l < NUM_LEVELS && g in v[l] && e in g.entries;
      assert !Remains(v, c, l, g);
      assert g in AllInputs(c);
      assert FromInputs(c, e);
    }
  }

  lemma InputStored(v: Version, c: Inputs, base: Version, e: Entry)
    requires InFlight(v, c, base) && FromInputs(c, e)
    ensures Stored(v, e)
  {
    var f :| f in AllInputs(c) && e in f.entries;
    if f in c.in0 { StoredIn(v, c.level, f, e); } else { StoredIn(v, c.level + 1, f, e); }
  }

  /** A newest entry that the compaction drops is a dead deletion. */
  lemma DroppedNewestIsDead(history: seq<Entry>, upper: iset<Entry>, v: Version, c: Inputs, base: Version,
      input: seq<Entry>,
    smallestSnapshot: SequenceNumber, outs: seq<File>, v': Version, user: UserKey, s: nat, n: nat)
    requires IsHistory(history) && InFlight(v, c, base) && AllInHistory(history, Held(upper, v))
    requires Replaced(v, c, outs, v') && OutputsKeep(c, input, smallestSnapshot, base, outs)
    requires smallestSnapshot <= s <= |history| && n == LastHeld(history, Held(upper, v), user, s) && n > 0
    requires history[n - 1] !in Held(upper, v')
    ensures FromInputs(c, history[n - 1]) && DeadTombstone(history[n - 1], smallestSnapshot, base, c.level)
  {
    var e := history[n - 1];
    HeldShrinks(upper, v, c, base, input, smallestSnapshot, outs, v', e);
    forall x | x in input ensures x in Held(upper, v) {
      InputStored(v, c, base, x);
    }
    HiddenIsPassed(history, Held(upper, v), input, smallestSnapshot, user, s, e);
  }

  lemma HiddenIsPassed(history: seq<Entry>, held: iset<Entry>, input: seq<Entry>, smallestSnapshot: SequenceNumber,
      user: UserKey, s: nat, e: Entry)
    requires AllInHistory(history, held) && smallestSnapshot <= s <= |history|
    requires e in input && (forall x | x in input :: x in held) && e.key.user == user
    ensures Hidden(e, input, smallestSnapshot) ==> LastHeld(history, held, user, s) > e.key.sequence
  {
    if Hidden(e, input, smallestSnapshot) {
      var x :| x in input && x.key.user == e.key.user && Less(x.key, e.key) && x.key.sequence <= smallestSnapshot;
      ReadReaches(history, held, user, s, x);
      assert InHistory(history, e) && InHistory(history, x);
    }
  }

  lemma OutputNotOlder(c: Inputs, input: seq<Entry>, smallestSnapshot: SequenceNumber, base: Version, outs: seq<File>,
      h: File, t: Entry, x: Entry)
    requires OutputsKeep(c, input, smallestSnapshot, base, outs) && InOutputs(outs, x)
    requires h in AllInputs(c) && t in h.entries && t.key.sequence <= smallestSnapshot
    requires x.key.user == t.key.user
    ensures x.key.sequence >= t.key.sequence
  {
    var o :| o in outs && x in o.entries;
    assert FromInputs(c, t);
    assert t in input && !Dropped(x, input, smallestSnapshot, base, c.level);
    assert x.key.sequence < t.key.sequence ==> Less(t.key, x.key);
  }

  /** An older entry still held beside a dead input deletion lies in a file that continues the deletion's file. */
  lemma OlderHeldIsContinuation(upper: iset<Entry>, v: Version, c: Inputs, base: Version, input: seq<Entry>,
    smallestSnapshot: SequenceNumber, outs: seq<File>, v': Version, h: File, t: Entry, x: Entry) returns (g: File)
    requires LsmInvariant(v) && InFlight(v, c, base)
    requires x in upper ==> x.key.sequence > t.key.sequence
    requires Replaced(v, c, outs, v') && OutputsKeep(c, input, smallestSnapshot, base, outs)
    requires h in AllInputs(c) && t in h.entries && DeadTombstone(t, smallestSnapshot, base, c.level)
    requires x in Held(upper, v') && x.key.user == t.key.user && x.key.sequence < t.key.sequence
    ensures g in v[c.level + 1] && g !in c.in1 && x in g.entries
    ensures IsBoundary(g, h.largest)
    ensures h in c.in1 && t.key.user == h.largest.user
  {
    HeldAfter(upper, v, c, outs, v', x);
    if InOutputs(outs, x) {
      OutputNotOlder(c, input, smallestSnapshot, base, outs, h, t, x);
    }
    var l, f :| 0 <= l < NUM_LEVELS && Remains(v, c, l, f) && x in f.entries;
    OlderRemainsOnlyPast(v, c, base, h, t, l, f, x);
    g := f;
  }

  /** The first entry of a file whose first user key is that of one of its later entries is at least as new. */
  lemma FirstIsNewest(g: File, h: File, x: Entry)
    requires WellFormed(g) && x in g.entries && x.key.user == h.largest.user
    requires IsBoundary(g, h.largest)
    ensures g.entries[0].key.user == x.key.user && x.key.sequence <= g.entries[0].key.sequence
  {
    EntryInRange(g, x);
  }

  /** A changed read had its newest entry dropped, and now finds an older value. */
  lemma NewestStays(history: seq<Entry>, upper: iset<Entry>, v: Version, c: Inputs, base: Version, input: seq<Entry>,
    smallestSnapshot: SequenceNumber, outs: seq<File>, v': Version, user: UserKey, s: nat)
    requires IsHistory(history) && InFlight(v, c, base) && AllInHistory(history, Held(upper, v))
    requires Replaced(v, c, outs, v') && OutputsKeep(c, input, smallestSnapshot, base, outs)
    requires smallestSnapshot <= s <= |history|
    requires View(history, Held(upper, v'), user, s) != View(history, Held(upper, v), user, s)
    ensures var n, n' := LastHeld(history, Held(upper, v), user, s), LastHeld(history, Held(upper, v'), user, s);
      && 0 < n' < n && history[n - 1] !in Held(upper, v') && history[n' - 1].key.kind.Value?
      && history[n - 1].key.sequence == n && history[n' - 1].key.sequence == n'
      && history[n - 1].key.user == user && history[n' - 1].key.user == user
      && history[n - 1] in Held(upper, v) && history[n' - 1] in Held(upper, v')
  {
    hide OutputsKeep;
    hide Replaced;
    hide InFlight;
    hide AllInHistory;
    var n, n' := LastHeld(history, Held(upper, v), user, s), LastHeld(history, Held(upper, v'), user, s);
    if n' > 0 {
      HeldShrinks(upper, v, c, base, input, smallestSnapshot, outs, v', history[n' - 1]);
      assert n' <= n;
    }
    assert n > 0;
    assert n' < n ==> history[n - 1] !in Held(upper, v');
    DroppedNewestIsDead(history, upper, v, c, base, input, smallestSnapshot, outs, v', user, s, n);
  }

  /** A level+1 file that is left out stays; its first entry, if it continues h, is visible wherever h ends. */
  lemma ContinuationHeld(history: seq<Entry>, upper: iset<Entry>, v: Version, c: Inputs, outs: seq<File>, v': Version,
      user: UserKey, s: nat, h: File, f: File)
    requires c.level + 1 < NUM_LEVELS && WellFormed(f) && Replaced(v, c, outs, v')
    requires AllInHistory(history, Held(upper, v))
    requires s <= |history| && h.largest.sequence <= s && user == h.largest.user
    requires f in v[c.level + 1] && f !in c.in1 && IsBoundary(f, h.largest)
    ensures f.entries[0] in Held(upper, v) && f.entries[0] in Held(upper, v')
    ensures f.smallest.sequence <= LastHeld(history, Held(upper, v'), user, s)
  {
    var first := f.entries[0];
    assert Remains(v, c, c.level + 1, f) && f in v'[c.level + 1];
    StoredIn(v', c.level + 1, f, first);
    StoredIn(v, c.level + 1, f, first);
    assert first in Held(upper, v) && InHistory(history, first);
    ReadReaches(history, Held(upper, v'), user, s, first);
  }

  /** The continuation that now supplies the newest entry starts with it, and no other continuation starts earlier. */
  lemma ContinuationIsFirst(history: seq<Entry>, upper: iset<Entry>, v: Version, c: Inputs, outs: seq<File>,
      v': Version,
    user: UserKey, s: nat, h: File, g: File, x: Entry, n: nat)
    requires c.level + 1 < NUM_LEVELS && AllWellFormed(v) && Replaced(v, c, outs, v')
    requires AllInHistory(history, Held(upper, v))
    requires s <= |history| && h.largest.sequence <= s && user == h.largest.user
    requires 0 < n == LastHeld(history, Held(upper, v'), user, s) && x == history[n - 1] && x.key.sequence == n
    requires g in v[c.level + 1] && g !in c.in1 && IsBoundary(g, h.largest)
    requires x in g.entries
    ensures FirstContinuation(v[c.level + 1], c.in1, h, g) && |g.entries| > 0 && g.entries[0] == x
  {
    FirstIsNewest(g, h, x);
    ContinuationHeld(history, upper, v, c, outs, v', user, s, h, g);
    assert InHistory(history, g.entries[0]);
    forall f | f in v[c.level + 1] && f !in c.in1 && IsBoundary(f, h.largest)
      ensures AtMost(g.smallest, f.smallest)
    {
      ContinuationHeld(history, upper, v, c, outs, v', user, s, h, f);
      assert f.smallest.sequence == n ==> f.entries[0] == x by {
        assert InHistory(history, f.entries[0]);
      }
    }
  }

  /** A read that changes shows the guard. */
  lemma ChangedReadResurrects(history: seq<Entry>, upper: iset<Entry>, v: Version, c: Inputs, base: Version,
      input: seq<Entry>,
    smallestSnapshot: SequenceNumber, outs: seq<File>, v': Version, horizon: nat, user: UserKey, s: nat)
    requires Context(history, upper, v, c, base)
    requires Replaced(v, c, outs, v') && OutputsKeep(c, input, smallestSnapshot, base, outs)
    requires smallestSnapshot <= horizon <= s <= |history|
    requires View(history, Held(upper, v'), user, s) != View(history, Held(upper, v), user, s)
    ensures Resurrects(history, upper, v, c, smallestSnapshot, base, horizon)
  {
    hide OutputsKeep;
    hide Replaced;
    var n := LastHeld(history, Held(upper, v), user, s);
    var n' := LastHeld(history, Held(upper, v'), user, s);
    NewestStays(history, upper, v, c, base, input, smallestSnapshot, outs, v', user, s);
    DroppedNewestIsDead(history, upper, v, c, base, input, smallestSnapshot, outs, v', user, s, n);
    var h, g := DeadAndOlder(history, upper, v, c, base, input, smallestSnapshot, outs, v', history[n - 1],
      history[n' - 1]);
    GuardHolds(history, upper, v, c, base, smallestSnapshot, outs, v', horizon, user, s, n, n', h, g);
  }

  /** The input file of a dead deletion, and the file that continues it and still holds an older entry. */
  lemma DeadAndOlder(history: seq<Entry>, upper: iset<Entry>, v: Version, c: Inputs, base: Version, input: seq<Entry>,
    smallestSnapshot: SequenceNumber, outs: seq<File>, v': Version, t: Entry, x: Entry) returns (h: File, g: File)
    requires Context(history, upper, v, c, base)
    requires Replaced(v, c, outs, v') && OutputsKeep(c, input, smallestSnapshot, base, outs)
    requires FromInputs(c, t) && DeadTombstone(t, smallestSnapshot, base, c.level)
    requires x in Held(upper, v') && x.key.user == t.key.user && x.key.sequence < t.key.sequence
    ensures h in c.in1 && h in v[c.level + 1] && t in h.entries
    ensures t.key.user == h.largest.user
    ensures g in v[c.level + 1] && g !in c.in1 && x in g.entries
    ensures IsBoundary(g, h.largest)
  {
    h :| h in AllInputs(c) && t in h.entries;
    InputStored(v, c, base, t);
    g := OlderHeldIsContinuation(upper, v, c, base, input, smallestSnapshot, outs, v', h, t, x);
  }

  lemma GuardHolds(history: seq<Entry>, upper: iset<Entry>, v: Version, c: Inputs, base: Version,
    smallestSnapshot: SequenceNumber, outs: seq<File>, v': Version, horizon: nat, user: UserKey, s: nat, n: nat,
      n': nat, h: File, g: File)
    requires c.level + 1 < NUM_LEVELS && AllWellFormed(v) && Replaced(v, c, outs, v')
    requires AllInHistory(history, Held(upper, v))
    requires smallestSnapshot <= horizon <= s <= |history|
    requires n == LastHeld(history, Held(upper, v), user, s)
    requires 0 < n' == LastHeld(history, Held(upper, v'), user, s) && n > 0
    requires history[n - 1].key.sequence == n && history[n' - 1].key.sequence == n' && history[n' - 1].key.kind.Value?
    requires h in c.in1 && h in v[c.level + 1] && history[n - 1] in h.entries
    requires user == h.largest.user
    requires DeadTombstone(history[n - 1], smallestSnapshot, base, c.level)
    requires g in v[c.level + 1] && g !in c.in1 && IsBoundary(g, h.largest)
    requires history[n' - 1] in g.entries
    ensures Resurrects(history, upper, v, c, smallestSnapshot, base, horizon)
  {
    var t := history[n - 1];
    EntryInRange(h, t);
    ContinuationIsFirst(history, upper, v, c, outs, v', user, s, h, g, history[n' - 1], n');
    LastHeldIs(history, Held(upper, v), user, horizon, n);
    assert ResurrectsAt(history, upper, v, c, smallestSnapshot, base, horizon, h, g, t);
  }

  /** A dead deletion among the inputs is not held afterwards. */
  lemma TombstoneGone(history: seq<Entry>, upper: iset<Entry>, v: Version, c: Inputs, base: Version, input: seq<Entry>,
    smallestSnapshot: SequenceNumber, outs: seq<File>, v': Version, h: File, t: Entry)
    requires Context(history, upper, v, c, base)
    requires Replaced(v, c, outs, v') && OutputsKeep(c, input, smallestSnapshot, base, outs)
    requires h in c.in1 && t in h.entries && DeadTombstone(t, smallestSnapshot, base, c.level)
    ensures t !in Held(upper, v')
  {
    HeldAfter(upper, v, c, outs, v', t);
    StoredIn(v, c.level + 1, h, t);
    if InRemaining(v, c, t) {
      var l, g :| 0 <= l < NUM_LEVELS && Remains(v, c, l, g) && t in g.entries;
      RemainingIsElsewhere(v, c, base, h, t, l, g);
    }
    assert InOutputs(outs, t) ==> !Dropped(t, input, smallestSnapshot, base, c.level);
  }

  /** No remaining file holds an input entry a second time. */
  lemma RemainingIsElsewhere(v: Version, c: Inputs, base: Version, h: File, t: Entry, l: nat, g: File)
    requires LsmInvariant(v) && InFlight(v, c, base) && h in c.in1
    requires t in h.entries
    requires l < NUM_LEVELS && Remains(v, c, l, g)
    ensures t !in g.entries
  {
    assert h in AllInputs(c);
    if l != c.level + 1 {
      RemainsNewer(v, c, base, l, g, h);
    } else if t in g.entries {
      assert Apart(g, h);
      EntryInRange(g, t);
      EntryInRange(h, t);
    }
  }

  /**
   What is held after the compaction for the deleted key, at or below the horizon, is no newer than the continuation.
   */
  lemma NothingNewer(history: seq<Entry>, upper: iset<Entry>, v: Version, c: Inputs, base: Version, input: seq<Entry>,
    smallestSnapshot: SequenceNumber, outs: seq<File>, v': Version, horizon: nat, h: File, g: File, t: Entry, y: Entry)
    requires Context(history, upper, v, c, base)
    requires Replaced(v, c, outs, v') && OutputsKeep(c, input, smallestSnapshot, base, outs)
    requires smallestSnapshot <= horizon <= |history|
    requires ResurrectsAt(history, upper, v, c, smallestSnapshot, base, horizon, h, g, t)
    requires y in Held(upper, v') && y.key.user == t.key.user && y.key.sequence <= horizon
    ensures y.key.sequence <= g.entries[0].key.sequence
  {
    TombstoneGone(history, upper, v, c, base, input, smallestSnapshot, outs, v', h, t);
    NotPastTombstone(history, upper, v, c, base, input, smallestSnapshot, outs, v', horizon, h, t, y);
    OlderIsNoNewer(history, upper, v, c, base, input, smallestSnapshot, outs, v', h, g, t, y);
  }

  lemma NotPastTombstone(history: seq<Entry>, upper: iset<Entry>, v: Version, c: Inputs, base: Version,
      input: seq<Entry>,
    smallestSnapshot: SequenceNumber, outs: seq<File>, v': Version, horizon: nat, h: File, t: Entry, y: Entry)
    requires InFlight(v, c, base) && AllInHistory(history, Held(upper, v))
    requires Replaced(v, c, outs, v') && OutputsKeep(c, input, smallestSnapshot, base, outs)
    requires horizon <= |history| && h in c.in1 && t in h.entries
    requires LastHeld(history, Held(upper, v), t.key.user, horizon) == t.key.sequence
    requires y in Held(upper, v') && t !in Held(upper, v') && y.key.user == t.key.user
    requires y.key.sequence <= horizon
    ensures y.key.sequence < t.key.sequence
  {
    hide NoOlderLeft;
    hide NextLevelApart;
    hide DeeperUnaffected;
    hide Connected;
    hide InputsInOrder;
    hide Replaced;
    hide OutputsKeep;
    HeldShrinks(upper, v, c, base, input, smallestSnapshot, outs, v', y);
    ReadReaches(history, Held(upper, v), t.key.user, horizon, y);
    StoredIn(v, c.level + 1, h, t);
    assert InHistory(history, y) && InHistory(history, t);
  }

  lemma OlderIsNoNewer(history: seq<Entry>, upper: iset<Entry>, v: Version, c: Inputs, base: Version, input: seq<Entry>,
    smallestSnapshot: SequenceNumber, outs: seq<File>, v': Version, h: File, g: File, t: Entry, y: Entry)
    requires Context(history, upper, v, c, base)
    requires Replaced(v, c, outs, v') && OutputsKeep(c, input, smallestSnapshot, base, outs)
    requires h in c.in1 && t in h.entries && t.key.user == h.largest.user
    requires DeadTombstone(t, smallestSnapshot, base, c.level)
    requires FirstContinuation(v[c.level + 1], c.in1, h, g) && |g.entries| > 0
    requires y in Held(upper, v') && y.key.user == t.key.user && y.key.sequence < t.key.sequence
    ensures y.key.sequence <= g.entries[0].key.sequence
  {
    assert h in AllInputs(c);
    StoredIn(v, c.level + 1, h, t);
    var f := OlderHeldIsContinuation(upper, v, c, base, input, smallestSnapshot, outs, v', h, t, y);
    FirstIsNewest(f, h, y);
    assert AtMost(g.smallest, f.smallest) && g.smallest.user == f.smallest.user;
  }

  /** A read that stops at an entry shows it. */
  lemma ReadFinds(history: seq<Entry>, held: iset<Entry>, user: UserKey, s: nat, x: Entry)
    requires s <= |history| && InHistory(history, x) && LastHeld(history, held, user, s) == x.key.sequence
    ensures View(history, held, user, s) == if x.key.kind.Deletion? then None else Some(x.value)
  {
  }

  /** When the guard holds, the deleted key is back at `horizon`. */
  lemma GuardChangesRead(history: seq<Entry>, upper: iset<Entry>, v: Version, c: Inputs, base: Version,
      input: seq<Entry>,
    smallestSnapshot: SequenceNumber, outs: seq<File>, v': Version, horizon: nat, h: File, g: File, t: Entry)
    requires Context(history, upper, v, c, base)
    requires Replaced(v, c, outs, v') && OutputsKeep(c, input, smallestSnapshot, base, outs)
    requires smallestSnapshot <= horizon <= |history|
    requires ResurrectsAt(history, upper, v, c, smallestSnapshot, base, horizon, h, g, t)
    ensures View(history, Held(upper, v), t.key.user, horizon) == None
    ensures View(history, Held(upper, v'), t.key.user, horizon) == Some(g.entries[0].value)
  {
    hide AgeOrdered;
    hide LevelsOrdered;
    hide DistinctNumbers;
    hide View;
    hide LastHeld;
    hide Held;
    hide OutputsKeep;
    hide Replaced;
    var user, x := t.key.user, g.entries[0];
    TombstoneStored(history, upper, v, c, h, g, t);
    ContinuationHeld(history, upper, v, c, outs, v', user, horizon, h, g);
    NoneNewerHeld(history, upper, v, c, base, input, smallestSnapshot, outs, v', horizon, h, g, t);
    LastHeldIs(history, Held(upper, v'), user, horizon, x.key.sequence);
    ReadFinds(history, Held(upper, v), user, horizon, t);
    ReadFinds(history, Held(upper, v'), user, horizon, x);
  }

  lemma NoneNewerHeld(history: seq<Entry>, upper: iset<Entry>, v: Version, c: Inputs, base: Version, input: seq<Entry>,
    smallestSnapshot: SequenceNumber, outs: seq<File>, v': Version, horizon: nat, h: File, g: File, t: Entry)
    requires Context(history, upper, v, c, base)
    requires Replaced(v, c, outs, v') && OutputsKeep(c, input, smallestSnapshot, base, outs)
    requires smallestSnapshot <= horizon <= |history|
    requires ResurrectsAt(history, upper, v, c, smallestSnapshot, base, horizon, h, g, t)
    ensures forall i | g.entries[0].key.sequence <= i < horizon && history[i].key.user == t.key.user ::
      history[i] !in Held(upper, v')
  {
    forall i | g.entries[0].key.sequence <= i < horizon && history[i].key.user == t.key.user
      && history[i] in Held(upper, v')
      ensures false
    {
      NothingNewer(history, upper, v, c, base, input, smallestSnapshot, outs, v', horizon, h, g, t, history[i]);
    }
  }

  lemma TombstoneStored(history: seq<Entry>, upper: iset<Entry>, v: Version, c: Inputs, h: File, g: File, t: Entry)
    requires c.level + 1 < NUM_LEVELS && AllWellFormed(v) && AllInHistory(history, Held(upper, v))
    requires h in v[c.level + 1] && g in v[c.level + 1] && t in h.entries
    requires t.key.user == h.largest.user
    ensures InHistory(history, t) && h.largest.sequence <= t.key.sequence && WellFormed(g)
  {
    StoredIn(v, c.level + 1, h, t);
    EntryInRange(h, t);
    assert t in Held(upper, v);
  }

  /** For all reads at or above the horizon: the compaction preserves them if and only if the guard does not hold. */
  lemma ReadsPreservedIff(history: seq<Entry>, upper: iset<Entry>, v: Version, c: Inputs, base: Version,
      input: seq<Entry>,
    smallestSnapshot: SequenceNumber, outs: seq<File>, v': Version, horizon: nat)
    requires Context(history, upper, v, c, base)
    requires Replaced(v, c, outs, v') && OutputsKeep(c, input, smallestSnapshot, base, outs)
    requires smallestSnapshot <= horizon <= |history|
    ensures (forall user, s | horizon <= s <= |history| ::
      View(history, Held(upper, v'), user, s) == View(history, Held(upper, v), user, s))
      <==> !Resurrects(history, upper, v, c, smallestSnapshot, base, horizon)
  {
    forall user, s | horizon <= s <= |history|
      && View(history, Held(upper, v'), user, s) != View(history, Held(upper, v), user, s)
      ensures Resurrects(history, upper, v, c, smallestSnapshot, base, horizon)
    {
      ChangedReadResurrects(history, upper, v, c, base, input, smallestSnapshot, outs, v', horizon, user, s);
    }
    if Resurrects(history, upper, v, c, smallestSnapshot, base, horizon) {
      var h, g, t :| ResurrectsAt(history, upper, v, c, smallestSnapshot, base, horizon, h, g, t);
      GuardChangesRead(history, upper, v, c, base, input, smallestSnapshot, outs, v', horizon, h, g, t);
    }
  }
}
