/**
 Several logs, each cut by a crash (db_impl.cc: Recover): what replaying them one after the other gives, and when that
 is what some number of whole groups wrote.
 */
module CutLogs {
  import opened InternalKeys
  import opened Coding
  import opened LogFormat
  import opened LogReaders
  import opened WriteBatches
  import opened GroupCommit
  import opened Committing
  import opened Stores

  /** The operations of the first `cut` groups of a log. */
  ghost function KeptOf(log: Log, cut: nat): (r: seq<Op>)
    requires cut <= |log.groups|
  {
    Flat(log.groups[..cut])
  }

  ghost predicate AreCuts(logs: seq<Log>, cuts: seq<nat>) {
    |cuts| == |logs| && forall p | 0 <= p < |logs| :: cuts[p] <= |logs[p].groups|
  }

  /** The groups that are left. */
  ghost function Kept(logs: seq<Log>, cuts: seq<nat>): (r: seq<seq<Op>>)
    requires AreCuts(logs, cuts)
  {
    if logs == [] then []
    else
      var n := |logs| - 1;
      Kept(logs[..n], cuts[..n]) + logs[n].groups[..cuts[n]]
  }

  /** What replaying the logs applies, with the sequence numbers that the records give. */
  ghost function Replayed(logs: seq<Log>, cuts: seq<nat>): (r: seq<Applied>)
    requires AreCuts(logs, cuts)
  {
    if logs == [] then []
    else
      var n := |logs| - 1;
      Replayed(logs[..n], cuts[..n]) + Numbered(logs[n].start, KeptOf(logs[n], cuts[n]))
  }

  /** No operation is lost in front of one that is left. */
  ghost predicate NoHole(logs: seq<Log>, cuts: seq<nat>)
    requires AreCuts(logs, cuts)
  {
    forall p, q | 0 <= p < q < |logs| && KeptOf(logs[q], cuts[q]) != [] ::
      |KeptOf(logs[p], cuts[p])| == |Flat(logs[p].groups)|
  }

  ghost predicate AllKept(logs: seq<Log>, cuts: seq<nat>)
    requires AreCuts(logs, cuts)
  {
    forall p | 0 <= p < |logs| :: |KeptOf(logs[p], cuts[p])| == |Flat(logs[p].groups)|
  }

  // ----- lengths -----

  lemma KeptStarts(log: Log, cut: nat)
    requires cut <= |log.groups|
    ensures KeptOf(log, cut) <= Flat(log.groups)
  {
    FlatStarts(log.groups, cut);
  }

  lemma {:induction false} KeptLength(logs: seq<Log>, cuts: seq<nat>)
    requires AreCuts(logs, cuts)
    ensures |Replayed(logs, cuts)| == |Flat(Kept(logs, cuts))| <= |Flat(Joined(logs))|
    ensures AllKept(logs, cuts) <==> |Flat(Kept(logs, cuts))| == |Flat(Joined(logs))|
    ensures AllKept(logs, cuts) ==> Flat(Kept(logs, cuts)) == Flat(Joined(logs))
  {
    hide Flat;
    if logs == [] {
      assert Joined(logs) == [];
      NoneNumbered(0);
    } else {
      var n := |logs| - 1;
      KeptLength(logs[..n], cuts[..n]);
      KeptStarts(logs[n], cuts[n]);
      FlatAppends(Kept(logs[..n], cuts[..n]), logs[n].groups[..cuts[n]]);
      FlatAppends(Joined(logs[..n]), logs[n].groups);
      AllKeptNext(logs, cuts);
    }
  }

  lemma AllKeptNext(logs: seq<Log>, cuts: seq<nat>)
    requires AreCuts(logs, cuts) && logs != []
    ensures var n := |logs| - 1;
      AllKept(logs, cuts) <==> AllKept(logs[..n], cuts[..n]) && |KeptOf(logs[n], cuts[n])| == |Flat(logs[n].groups)|
  {
    hide KeptOf;
    hide Flat;
    var n := |logs| - 1;
    assert forall p | 0 <= p < n :: logs[..n][p] == logs[p] && cuts[..n][p] == cuts[p];
  }

  // ----- without a hole -----

  /** Without a hole, what is left is what the first n groups wrote. */
  ghost predicate WroteFirst(all: seq<seq<Op>>, n: nat, kept: seq<Op>) {
    n <= |all| && kept == Flat(all[..n])
  }

  lemma {:induction false} NoHoleKeepsFirst(logs: seq<Log>, cuts: seq<nat>) returns (n: nat)
    requires AreCuts(logs, cuts) && NoHole(logs, cuts)
    ensures WroteFirst(Joined(logs), n, Flat(Kept(logs, cuts)))
  {
    hide Flat;
    if logs == [] {
      n := 0;
    } else {
      var m := |logs| - 1;
      NoHoleBefore(logs, cuts, m);
      FlatAppends(Kept(logs[..m], cuts[..m]), logs[m].groups[..cuts[m]]);
      if KeptOf(logs[m], cuts[m]) == [] {
        n := NoHoleKeepsFirst(logs[..m], cuts[..m]);
        assert Joined(logs)[..n] == Joined(logs[..m])[..n];
      } else {
        KeptLength(logs[..m], cuts[..m]);
        n := |Joined(logs[..m])| + cuts[m];
        assert Joined(logs)[..n] == Joined(logs[..m]) + logs[m].groups[..cuts[m]];
        FlatAppends(Joined(logs[..m]), logs[m].groups[..cuts[m]]);
      }
    }
  }

  lemma NoHoleBefore(logs: seq<Log>, cuts: seq<nat>, m: nat)
    requires AreCuts(logs, cuts) && NoHole(logs, cuts) && m < |logs|
    ensures NoHole(logs[..m], cuts[..m])
    ensures KeptOf(logs[m], cuts[m]) != [] ==> AllKept(logs[..m], cuts[..m])
  {
    hide KeptOf;
    hide Flat;
    assert forall p | 0 <= p < m :: logs[..m][p] == logs[p] && cuts[..m][p] == cuts[p];
  }

  /** The logs start where the ones before them end. */
  ghost predicate StartsInRow(start: nat, logs: seq<Log>) {
    forall p | 0 <= p < |logs| :: logs[p].start == start + |Flat(Joined(logs[..p]))|
  }

  lemma {:induction false} NoHoleIsNumbered(start: nat, logs: seq<Log>, cuts: seq<nat>)
    requires AreCuts(logs, cuts) && NoHole(logs, cuts) && StartsInRow(start, logs)
    ensures Replayed(logs, cuts) == Numbered(start, Flat(Kept(logs, cuts)))
  {
    hide Flat;
    hide Numbered;
    if logs == [] {
      NoneNumbered(start);
    } else {
      var m := |logs| - 1;
      NoHoleBefore(logs, cuts, m);
      StartsBefore(start, logs, m);
      NoHoleIsNumbered(start, logs[..m], cuts[..m]);
      var kept, last := Flat(Kept(logs[..m], cuts[..m])), KeptOf(logs[m], cuts[m]);
      FlatAppends(Kept(logs[..m], cuts[..m]), logs[m].groups[..cuts[m]]);
      if last == [] {
        NoneNumbered(logs[m].start);
        assert kept + [] == kept;
      } else {
        KeptLength(logs[..m], cuts[..m]);
        NumberedAppends(start, kept, last);
      }
    }
  }

  lemma NoneNumbered(start: nat)
    ensures Numbered(start, []) == [] && Flat([]) == []
  {
  }

  lemma StartsBefore(start: nat, logs: seq<Log>, m: nat)
    requires StartsInRow(start, logs) && m < |logs|
    ensures StartsInRow(start, logs[..m])
  {
    forall p | 0 <= p < m ensures logs[..m][p].start == start + |Flat(Joined(logs[..m][..p]))| {
      assert logs[..m][..p] == logs[..p];
    }
  }

  // ----- with a hole -----

  lemma {:induction false} ReplayedStarts(logs: seq<Log>, cuts: seq<nat>, q: nat)
    requires AreCuts(logs, cuts) && q < |logs|
    ensures AreCuts(logs[..q], cuts[..q])
    ensures Replayed(logs[..q], cuts[..q]) + Numbered(logs[q].start, KeptOf(logs[q], cuts[q])) <= Replayed(logs, cuts)
    decreases |logs| - q
  {
    hide Numbered;
    hide KeptOf;
    var m := |logs| - 1;
    if q < m {
      ReplayedStarts(logs[..m], cuts[..m], q);
      assert logs[..m][..q] == logs[..q] && cuts[..m][..q] == cuts[..q];
    }
  }

  /** Numbers without a gap show that nothing is missing. */
  lemma NumberedHasNoHole(start: nat, logs: seq<Log>, cuts: seq<nat>, ops: seq<Op>)
    requires AreCuts(logs, cuts) && StartsInRow(start, logs) && Replayed(logs, cuts) == Numbered(start, ops)
    ensures NoHole(logs, cuts)
  {
    hide Flat;
    forall p, q | 0 <= p < q < |logs| && KeptOf(logs[q], cuts[q]) != []
      ensures |KeptOf(logs[p], cuts[p])| == |Flat(logs[p].groups)|
    {
      ReplayedStarts(logs, cuts, q);
      var before := Replayed(logs[..q], cuts[..q]);
      assert Replayed(logs, cuts)[|before|] == Numbered(logs[q].start, KeptOf(logs[q], cuts[q]))[0];
      KeptLength(logs[..q], cuts[..q]);
      assert AllKept(logs[..q], cuts[..q]);
      assert logs[..q][p] == logs[p] && cuts[..q][p] == cuts[p];
    }
  }

  /**
   Replaying cut logs gives an unbroken run of writes exactly if no operation is lost in front of one that is left; and
   then it is what some number of whole groups wrote.
   */
  lemma ReplayIsRunIff(start: nat, logs: seq<Log>, cuts: seq<nat>)
    requires AreCuts(logs, cuts) && StartsInRow(start, logs)
    ensures NoHole(logs, cuts) <==> exists ops :: Replayed(logs, cuts) == Numbered(start, ops)
    ensures NoHole(logs, cuts) <==>
      exists n: nat :: n <= |Joined(logs)| && Replayed(logs, cuts) == Numbered(start, Flat(Joined(logs)[..n]))
  {
    hide Flat;
    hide Numbered;
    if NoHole(logs, cuts) {
      NoHoleIsNumbered(start, logs, cuts);
      var n := NoHoleKeepsFirst(logs, cuts);
    }
    if ops :| Replayed(logs, cuts) == Numbered(start, ops) {
      NumberedHasNoHole(start, logs, cuts, ops);
    }
  }

  // ----- the files of the logs -----

  /** How many groups of each log are wholly in what is left of it; nothing is missed of a log below `min`. */
  ghost function CutsOf(checksum: Checksum, logs: seq<Log>, files: map<nat, Bytes>, min: nat): (r: seq<nat>)
    ensures AreCuts(logs, r)
  {
    seq(|logs|, p requires 0 <= p < |logs| => CutOf(checksum, logs[p], files, min))
  }

  ghost function CutOf(checksum: Checksum, log: Log, files: map<nat, Bytes>, min: nat): (r: nat)
    ensures r <= |log.groups|
  {
    if log.number < min then |log.groups|
    else if log.number in files then Whole(checksum, Records(log.start, log.groups), |files[log.number]|)
    else 0
  }

  /** Every file from `min` on is a prefix of one of the logs, or an empty one that an opening cut short has left. */
  ghost predicate AreLogs(checksum: Checksum, logs: seq<Log>, files: map<nat, Bytes>, min: nat) {
    forall n | n in files && n >= min :: files[n] == [] || exists p :: IsLog(checksum, logs, p, n, files[n])
  }

  ghost predicate IsLog(checksum: Checksum, logs: seq<Log>, p: nat, n: nat, file: Bytes) {
    p < |logs| && logs[p].number == n && file <= EncodeLog(checksum, Records(logs[p].start, logs[p].groups))
  }
}
