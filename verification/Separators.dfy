/**
 Shortened keys for index blocks (util/comparator.cc, db/dbformat.cc): the bytewise order, the order of encoded
 internal keys over it, and separators that lie between two keys.
 */
module Separators {
  import opened InternalKeys
  import opened Coding
  import opened Blocks

  // ----- bytewise order -----

  predicate BytewiseLess(a: Bytes, b: Bytes) {
    b != [] && (a == [] || a[0] < b[0] || (a[0] == b[0] && BytewiseLess(a[1..], b[1..])))
  }

  lemma {:induction false} BytewiseIrreflexive(a: Bytes)
    ensures !BytewiseLess(a, a)
  {
    if a != [] { BytewiseIrreflexive(a[1..]); }
  }

  lemma {:induction false} BytewiseTransitive(a: Bytes, b: Bytes, c: Bytes)
    requires BytewiseLess(a, b) && BytewiseLess(b, c)
    ensures BytewiseLess(a, c)
  {
    if a != [] && a[0] == b[0] == c[0] { BytewiseTransitive(a[1..], b[1..], c[1..]); }
  }

  lemma {:induction false} BytewiseConnected(a: Bytes, b: Bytes)
    ensures a == b || BytewiseLess(a, b) || BytewiseLess(b, a)
  {
    if a != [] && b != [] && a[0] == b[0] {
      BytewiseConnected(a[1..], b[1..]);
      assert a == [a[0]] + a[1..] && b == [b[0]] + b[1..];
    }
  }

  lemma BytewiseIsTotal()
    ensures TotalOrder(BytewiseLess)
  {
    forall a ensures !BytewiseLess(a, a) { BytewiseIrreflexive(a); }
    forall a, b, c | BytewiseLess(a, b) && BytewiseLess(b, c) ensures BytewiseLess(a, c) {
      BytewiseTransitive(a, b, c);
    }
    forall a, b | a != b ensures BytewiseLess(a, b) || BytewiseLess(b, a) { BytewiseConnected(a, b); }
  }

  /** The order is decided at the first byte that differs. */
  lemma {:induction false} DecidedAt(a: Bytes, b: Bytes, i: nat)
    requires i <= |a| && i < |b| && a[..i] == b[..i]
    requires i < |a| ==> a[i] < b[i]
    ensures BytewiseLess(a, b)
  {
    if i > 0 {
      assert a[0] == a[..i][0] == b[..i][0] == b[0];
      assert a[1..][..i - 1] == a[..i][1..] == b[..i][1..] == b[1..][..i - 1];
      DecidedAt(a[1..], b[1..], i - 1);
    }
  }

  // ----- separators of user keys -----

  /** Either the key itself, or a shorter one that is greater than it. */
  ghost predicate Shortens(start: Bytes, r: Bytes) {
    r == start || (|r| <= |start| && BytewiseLess(start, r))
  }

  /** The keys first differ at byte `i`, and by more than one. */
  predicate StepsAt(start: Bytes, limit: Bytes, i: nat) {
    i < |start| && i < |limit| && start[..i] == limit[..i] && start[i] < 0xff && start[i] + 1 < limit[i]
  }

  /** The first byte that can be stepped up. */
  predicate StepsUp(key: Bytes, i: nat) {
    i < |key| && key[i] != 0xff && forall j | 0 <= j < i :: key[j] == 0xff
  }

  /** The key cut off behind byte `i`, which is one more. */
  function SteppedAt(key: Bytes, i: nat): (r: Bytes)
    requires i < |key| && key[i] < 0xff
    ensures |r| == i + 1
  {
    key[..i] + [key[i] + 1]
  }

  lemma FirstDifference(start: Bytes, limit: Bytes, i: nat, j: nat)
    requires StepsAt(start, limit, i) && j <= |start| && j <= |limit| && start[..j] == limit[..j]
    requires j < |start| && j < |limit| ==> start[j] != limit[j]
    ensures i == j
  {
  }

  method FindShortestSeparator(start: Bytes, limit: Bytes) returns (r: Bytes)
    ensures Shortens(start, r) && (r != start ==> BytewiseLess(r, limit))
    ensures forall i: nat | StepsAt(start, limit, i) :: r == SteppedAt(start, i)
    ensures r != start ==> exists i: nat :: StepsAt(start, limit, i)
  {
    var n := if |start| < |limit| then |start| else |limit|;
    var i := 0;
    while i < n && start[i] == limit[i]
      invariant i <= n && start[..i] == limit[..i]
    {
      i := i + 1;
    }
    r := start;
    if i < n && start[i] < 0xff && start[i] + 1 < limit[i] {
      r := start[..i] + [start[i] + 1];
      DecidedAt(start, r, i);
      DecidedAt(r, limit, i);
      assert StepsAt(start, limit, i);
    }
    forall j: nat | StepsAt(start, limit, j) ensures j == i {
      FirstDifference(start, limit, j, i);
    }
  }

  /** Nothing that is shorter is greater. */
  method FindShortSuccessor(key: Bytes) returns (r: Bytes)
    ensures Shortens(key, r)
    ensures forall i: nat | StepsUp(key, i) :: r == SteppedAt(key, i)
    ensures r != key ==> exists i: nat :: StepsUp(key, i)
    ensures forall s | BytewiseLess(key, s) :: |s| >= |r|
  {
    for i := 0 to |key|
      invariant forall j | 0 <= j < i :: key[j] == 0xff
    {
      if key[i] != 0xff {
        r := key[..i] + [key[i] + 1];
        DecidedAt(key, r, i);
        assert StepsUp(key, i);
        forall s | BytewiseLess(key, s) ensures |s| >= i + 1 {
          GreaterIsLonger(key, s, i);
        }
        return;
      }
    }
    r := key;
    forall s | BytewiseLess(key, s) ensures |s| >= |key| {
      GreaterIsLonger(key, s, |key|);
    }
  }

  /** Behind the largest bytes there is only what is longer. */
  lemma {:induction false} GreaterIsLonger(key: Bytes, s: Bytes, n: nat)
    requires n <= |key| && BytewiseLess(key, s) && forall j | 0 <= j < n :: key[j] == 0xff
    ensures |s| > n
    decreases n
  {
    if n > 0 { GreaterIsLonger(key[1..], s[1..], n - 1); }
  }

  // ----- encoded internal keys -----

  function UserOf(key: Bytes): (r: Bytes)
    requires |key| >= 8
  {
    key[..|key| - 8]
  }

  function TagOf(key: Bytes): (r: nat)
    requires |key| >= 8
  {
    DecodeFixed64(key[|key| - 8..])
  }

  /** InternalKeyComparator; strings too short to be internal keys come first, which no table holds. */
  predicate InternalLess(a: Bytes, b: Bytes) {
    if |a| < 8 || |b| < 8 then |a| < 8 && (|b| >= 8 || BytewiseLess(a, b))
    else BytewiseLess(UserOf(a), UserOf(b)) || (UserOf(a) == UserOf(b) && TagOf(a) > TagOf(b))
  }

  /** Two internal keys with the same user key and tag are the same. */
  lemma {:induction false} TagDecides(a: Bytes, b: Bytes)
    requires |a| >= 8 && |b| >= 8 && UserOf(a) == UserOf(b)
    requires TagOf(a) == TagOf(b)
    ensures a == b
  {
    hide EncodeFixed32;
    hide DecodeFixed32;
    var x, y := a[|a| - 8..], b[|b| - 8..];
    EncodeUndoesDecode(x[..4]);
    EncodeUndoesDecode(x[4..]);
    EncodeUndoesDecode(y[..4]);
    EncodeUndoesDecode(y[4..]);
    FirstFour(x);
    FirstFour(y);
    assert DecodeFixed32(x[..4]) == DecodeFixed32(y[..4]) && DecodeFixed32(x[4..]) == DecodeFixed32(y[4..]);
    assert x == x[..4] + x[4..] && y == y[..4] + y[4..];
    assert a == UserOf(a) + x && b == UserOf(b) + y;
  }

  lemma {:induction false} FirstFour(b: Bytes)
    requires |b| >= 4
    ensures DecodeFixed32(b) == DecodeFixed32(b[..4])
  {
  }

  lemma {:induction false} InternalIsTotal()
    ensures TotalOrder(InternalLess)
  {
    hide TagOf;
    forall a ensures !InternalLess(a, a) {
      BytewiseIrreflexive(a);
      if |a| >= 8 { BytewiseIrreflexive(UserOf(a)); }
    }
    forall a, b, c | InternalLess(a, b) && InternalLess(b, c) ensures InternalLess(a, c) {
      InternalTransitive(a, b, c);
    }
    forall a, b | a != b ensures InternalLess(a, b) || InternalLess(b, a) {
      if |a| < 8 || |b| < 8 { BytewiseConnected(a, b); } else {
        BytewiseConnected(UserOf(a), UserOf(b));
        if UserOf(a) == UserOf(b) && TagOf(a) == TagOf(b) { TagDecides(a, b); }
      }
    }
  }

  lemma {:induction false} InternalTransitive(a: Bytes, b: Bytes, c: Bytes)
    requires InternalLess(a, b) && InternalLess(b, c)
    ensures InternalLess(a, c)
  {
    hide TagOf;
    if |a| < 8 && |b| < 8 && |c| < 8 {
      BytewiseTransitive(a, b, c);
    } else if |a| >= 8 && |b| >= 8 && |c| >= 8 {
      if BytewiseLess(UserOf(a), UserOf(b)) && BytewiseLess(UserOf(b), UserOf(c)) {
        BytewiseTransitive(UserOf(a), UserOf(b), UserOf(c));
      }
    }
  }

  /** The key that precedes every other internal key of the user key: the largest sequence number, and a value. */
  function EarliestKey(user: Bytes): (r: Bytes)
    ensures |r| == |user| + 8
  {
    user + EncodeFixed64(MAX_SEQUENCE * 256 + 1)
  }

  lemma {:induction false} EarliestIs(user: Bytes)
    ensures UserOf(EarliestKey(user)) == user && TagOf(EarliestKey(user)) == MAX_SEQUENCE * 256 + 1
  {
    hide DecodeFixed64;
    hide EncodeFixed64;
    var tag := EncodeFixed64(MAX_SEQUENCE * 256 + 1);
    assert (user + tag)[|user|..] == tag == tag + [];
    Decode64UndoesEncode(MAX_SEQUENCE * 256 + 1, []);
  }

  /** An index key for entries up to `last`: it is `last`, or its user key lies strictly after the one of `last`. */
  ghost predicate Covers(last: Bytes, sep: Bytes) {
    |last| >= 8 && |sep| >= 8 && (sep == last || BytewiseLess(UserOf(last), UserOf(sep)))
  }

  lemma {:induction false} CoversIsAtLeast(last: Bytes, sep: Bytes)
    requires Covers(last, sep)
    ensures !InternalLess(sep, last)
  {
    hide TagOf;
    if sep == last {
      BytewiseIrreflexive(UserOf(last));
    } else {
      BytewiseAsymmetric(UserOf(last), UserOf(sep));
    }
  }

  lemma {:induction false} BytewiseAsymmetric(a: Bytes, b: Bytes)
    requires BytewiseLess(a, b)
    ensures !BytewiseLess(b, a) && a != b
  {
    BytewiseIrreflexive(a);
    if BytewiseLess(b, a) { BytewiseTransitive(a, b, a); }
  }

  /** InternalKeyComparator::FindShortestSeparator; if it shortens, the user key falls strictly between the two. */
  method InternalSeparator(start: Bytes, limit: Bytes) returns (sep: Bytes)
    requires |start| >= 8 && |limit| >= 8 && InternalLess(start, limit)
    ensures Covers(start, sep) && InternalLess(sep, limit)
    ensures sep != start ==> BytewiseLess(UserOf(sep), UserOf(limit)) && |sep| < |start|
    ensures forall i: nat | StepsAt(UserOf(start), UserOf(limit), i) && i + 1 < |UserOf(start)| ::
      sep == EarliestKey(SteppedAt(UserOf(start), i))
    ensures sep != start ==> exists i: nat :: StepsAt(UserOf(start), UserOf(limit), i) && i + 1 < |UserOf(start)|
  {
    hide TagOf;
    var userStart, userLimit := UserOf(start), UserOf(limit);
    var tmp := FindShortestSeparator(userStart, userLimit);
    sep := start;
    if |tmp| < |userStart| && BytewiseLess(userStart, tmp) {
      BytewiseIrreflexive(userStart);
      EarliestIs(tmp);
      sep := EarliestKey(tmp);
    }
  }

  method InternalSuccessor(key: Bytes) returns (sep: Bytes)
    requires |key| >= 8
    ensures Covers(key, sep)
    ensures forall i: nat | StepsUp(UserOf(key), i) && i + 1 < |UserOf(key)| ::
      sep == EarliestKey(SteppedAt(UserOf(key), i))
    ensures sep != key ==> exists i: nat :: StepsUp(UserOf(key), i) && i + 1 < |UserOf(key)|
  {
    hide TagOf;
    var userKey := UserOf(key);
    var tmp := FindShortSuccessor(userKey);
    sep := key;
    if |tmp| < |userKey| && BytewiseLess(userKey, tmp) {
      EarliestIs(tmp);
      sep := EarliestKey(tmp);
    }
  }
}
