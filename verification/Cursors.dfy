/**
 The contract of an internal iterator (include/leveldb/iterator.h): a cursor over one sorted run.  `None` is an
 iterator that is not valid; it does not remember from which end it fell.
 */
module Cursors {
  import opened InternalKeys

  type Position = Option<nat>

  ghost predicate InRun(run: seq<Entry>, p: Position) {
    p.Some? ==> p.value < |run|
  }

  function ToFirst(run: seq<Entry>): (r: Position) {
    if run == [] then None else Some(0)
  }

  function ToLast(run: seq<Entry>): (r: Position) {
    if run == [] then None else Some(|run| - 1)
  }

  function ToNext(run: seq<Entry>, i: nat): (r: Position) {
    if i + 1 < |run| then Some(i + 1) else None
  }

  function ToPrev(i: nat): (r: Position) {
    if i > 0 then Some(i - 1) else None
  }

  function ToSeek(run: seq<Entry>, target: InternalKey): (r: Position) {
    var i := SeekIndex(run, target);
    if i < |run| then Some(i) else None
  }

  /** A seek lands where the keys stop being smaller than the target, and there is only one such place. */
  lemma SeekIndexIs(run: seq<Entry>, target: InternalKey, i: nat)
    requires Sorted(run) && i <= |run|
    requires i > 0 ==> Less(run[i - 1].key, target)
    requires i < |run| ==> AtMost(target, run[i].key)
    ensures SeekIndex(run, target) == i
  {
    var r := SeekIndex(run, target);
    if r < i {
      LessIsTotal(run[r].key, run[i - 1].key, target);
    }
  }

  /** Seeking the key of an entry of the run lands on that entry. */
  lemma SeekFinds(run: seq<Entry>, i: nat)
    requires Sorted(run) && i < |run|
    ensures SeekIndex(run, run[i].key) == i
  {
    LessIsTotal(run[i].key, run[i].key, run[i].key);
    SeekIndexIs(run, run[i].key, i);
  }
}
