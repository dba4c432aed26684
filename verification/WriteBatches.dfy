/** WriteBatch (write_batch.cc): operations packed into one byte string, and iteration over them. */
module WriteBatches {
  import opened InternalKeys
  import opened Coding

  const HEADER := 12

  datatype Op = Put(key: Bytes, value: Bytes) | Delete(key: Bytes)

  /** Key and value lengths fit the 32 bits in which they are written. */
  predicate Fits(op: Op) {
    |op.key| < WORD_LIMIT && (op.Put? ==> |op.value| < WORD_LIMIT)
  }

  predicate AllFit(ops: seq<Op>) {
    |ops| < WORD_LIMIT && forall i | 0 <= i < |ops| :: Fits(ops[i])
  }

  // ----- the encoding -----

  function EncodeOp(op: Op): (r: Bytes)
    ensures r != []
  {
    match op
    case Put(key, value) => [1] + LengthPrefixed(key) + LengthPrefixed(value)
    case Delete(key) => [0] + LengthPrefixed(key)
  }

  function EncodeOps(ops: seq<Op>): (r: Bytes) {
    if ops == [] then [] else EncodeOp(ops[0]) + EncodeOps(ops[1..])
  }

  lemma {:induction false} EncodeOpsAppends(a: seq<Op>, b: seq<Op>)
    ensures EncodeOps(a + b) == EncodeOps(a) + EncodeOps(b)
  {
    if a == [] {
      assert a + b == b;
    } else {
      assert (a + b)[1..] == a[1..] + b;
      EncodeOpsAppends(a[1..], b);
    }
  }

  /** The representation of a batch. */
  function Rep(sequence: nat, ops: seq<Op>): (r: Bytes)
    ensures |r| == HEADER + |EncodeOps(ops)|
  {
    EncodeFixed64(sequence) + EncodeFixed32(|ops| % WORD_LIMIT) + EncodeOps(ops)
  }

  function SequenceOf(rep: Bytes): (r: nat)
    requires |rep| >= HEADER
  {
    DecodeFixed64(rep)
  }

  function CountOf(rep: Bytes): (r: Word)
    requires |rep| >= HEADER
  {
    DecodeFixed32(rep[8..])
  }

  lemma {:induction false} RepParts(a: Bytes, b: Bytes, c: Bytes)
    requires |a| == 8 && |b| == 4
    ensures a + b + c == a + (b + c) && (a + b + c)[8..] == b + c && (a + b + c)[HEADER..] == c
  {
  }

  lemma {:induction false} HeaderIsRead(sequence: nat, ops: seq<Op>)
    requires sequence < LONG_LIMIT && |ops| < WORD_LIMIT
    ensures SequenceOf(Rep(sequence, ops)) == sequence && CountOf(Rep(sequence, ops)) == |ops|
    ensures Rep(sequence, ops)[HEADER..] == EncodeOps(ops)
  {
    hide EncodeFixed32;
    hide DecodeFixed32;
    hide EncodeFixed64;
    hide DecodeFixed64;
    hide EncodeOps;
    var s, n, data := EncodeFixed64(sequence), EncodeFixed32(|ops|), EncodeOps(ops);
    RepParts(s, n, data);
    Decode64UndoesEncode(sequence, n + data);
    DecodeUndoesEncode(|ops|, data);
  }

  // ----- decoding -----

  datatype Status = Ok | Corruption

  /** The first operation, and the bytes behind it. */
  function DecodeOp(input: Bytes): (r: Parsed<Op>)
    requires input != []
    ensures r.Parsed? ==> |r.rest| < |input|
  {
    var rest := input[1..];
    if input[0] == 1 then
      var k := DecodeLengthPrefixed(rest);
      if k.Malformed? then Malformed
      else
        var v := DecodeLengthPrefixed(k.rest);
        if v.Malformed? then Malformed else Parsed(Put(k.value, v.value), v.rest)
    else if input[0] == 0 then
      var k := DecodeLengthPrefixed(rest);
      if k.Malformed? then Malformed else Parsed(Delete(k.value), k.rest)
    else Malformed
  }

  /** Iterate hands on the operations up to the first malformed one. */
  function DecodeOps(input: Bytes): (r: (seq<Op>, Status))
    decreases |input|
  {
    if input == [] then ([], Ok)
    else
      var first := DecodeOp(input);
      if first.Malformed? then ([], Corruption)
      else
        var (ops, status) := DecodeOps(first.rest);
        ([first.value] + ops, status)
  }

  lemma {:induction false} DecodeUndoesOp(op: Op, rest: Bytes)
    requires Fits(op)
    ensures DecodeOp(EncodeOp(op) + rest) == Parsed(op, rest)
  {
    hide LengthPrefixed;
    hide DecodeLengthPrefixed;
    var input := EncodeOp(op) + rest;
    match op
    case Put(key, value) =>
      assert input[1..] == LengthPrefixed(key) + (LengthPrefixed(value) + rest);
      DecodeUndoesLengthPrefix(key, LengthPrefixed(value) + rest);
      DecodeUndoesLengthPrefix(value, rest);
    case Delete(key) =>
      assert input[1..] == LengthPrefixed(key) + rest;
      DecodeUndoesLengthPrefix(key, rest);
  }

  lemma {:induction false} DecodeUndoesOps(ops: seq<Op>)
    requires AllFit(ops)
    ensures DecodeOps(EncodeOps(ops)) == (ops, Ok)
  {
    hide EncodeOp;
    hide DecodeOp;
    if ops != [] {
      DecodeUndoesOp(ops[0], EncodeOps(ops[1..]));
      assert [ops[0]] + ops[1..] == ops;
      DecodeUndoesOps(ops[1..]);
    }
  }

  /** What iterating over a representation hands on, and how it ends. */
  function Iterated(rep: Bytes): (seq<Op>, Status) {
    if |rep| < HEADER then ([], Corruption)
    else
      var (ops, status) := DecodeOps(rep[HEADER..]);
      (ops, if status.Ok? && |ops| != CountOf(rep) then Corruption else status)
  }

  lemma {:induction false} IterationUndoesRep(sequence: nat, ops: seq<Op>)
    requires sequence < LONG_LIMIT && AllFit(ops)
    ensures Iterated(Rep(sequence, ops)) == (ops, Ok)
  {
    HeaderIsRead(sequence, ops);
    DecodeUndoesOps(ops);
  }

  method Iterate(rep: Bytes) returns (ops: seq<Op>, status: Status)
    ensures (ops, status) == Iterated(rep)
  {
    hide DecodeOp;
    hide DecodeFixed32;
    ops := [];
    if |rep| < HEADER {
      return [], Corruption;
    }
    var input := rep[HEADER..];
    assert [] + DecodeOps(input).0 == DecodeOps(input).0;
    while input != []
      invariant DecodeOps(rep[HEADER..]) == (ops + DecodeOps(input).0, DecodeOps(input).1)
      decreases |input|
    {
      var op := DecodeOp(input);
      if op.Malformed? {
        assert ops + [] == ops;
        return ops, Corruption;
      }
      assert ops + ([op.value] + DecodeOps(op.rest).0) == (ops + [op.value]) + DecodeOps(op.rest).0;
      ops := ops + [op.value];
      input := op.rest;
    }
    assert ops + [] == ops;
    status := if |ops| != CountOf(rep) then Corruption else Ok;
  }

  // ----- building a batch -----

  lemma {:induction false} PartsGrow(a: Bytes, b: Bytes, c: Bytes, b': Bytes, d: Bytes)
    requires |a| == 8 && |b| == 4
    ensures a + b' + (c + d) == (a + b + c)[..8] + b' + (a + b + c)[HEADER..] + d
  {
    RepParts(a, b, c);
    assert (a + b + c)[..8] == a;
    assert a + b' + (c + d) == a + b' + c + d;
  }

  lemma {:induction false} RepCounts(sequence: nat, ops: seq<Op>)
    requires sequence < LONG_LIMIT && |ops| < WORD_LIMIT
    ensures Rep(sequence, ops) == EncodeFixed64(sequence) + EncodeFixed32(|ops|) + EncodeOps(ops)
  {
    hide EncodeFixed32;
    hide EncodeFixed64;
    hide EncodeOps;
    assert |ops| % WORD_LIMIT == |ops|;
  }

  /** More operations change the count and come at the end. */
  lemma {:induction false} RepGrows(sequence: nat, ops: seq<Op>, more: seq<Op>)
    requires sequence < LONG_LIMIT && |ops| + |more| < WORD_LIMIT
    ensures var rep := Rep(sequence, ops);
      Rep(sequence, ops + more) == rep[..8] + EncodeFixed32(|ops| + |more|) + rep[HEADER..] + EncodeOps(more)
  {
    hide Rep;
    hide EncodeFixed32;
    hide EncodeFixed64;
    hide EncodeOps;
    RepCounts(sequence, ops);
    RepCounts(sequence, ops + more);
    EncodeOpsAppends(ops, more);
    PartsGrow(EncodeFixed64(sequence), EncodeFixed32(|ops|), EncodeOps(ops), EncodeFixed32(|ops| + |more|),
      EncodeOps(more));
  }

  class WriteBatch {
    var rep: Bytes
    ghost var sequence: nat
    ghost var ops: seq<Op>

    ghost predicate Valid()
      reads this
    {
      sequence < LONG_LIMIT && |ops| < WORD_LIMIT && rep == Rep(sequence, ops)
    }

    constructor ()
      ensures Valid() && ops == [] && sequence == 0
    {
      rep := seq(HEADER, _ => 0);
      sequence, ops := 0, [];
    }

    method Put(key: Bytes, value: Bytes)
      requires Valid() && |ops| + 1 < WORD_LIMIT
      modifies this
      ensures Valid() && ops == old(ops) + [Op.Put(key, value)] && sequence == old(sequence)
    {
      AddOp(Op.Put(key, value));
    }

    method Delete(key: Bytes)
      requires Valid() && |ops| + 1 < WORD_LIMIT
      modifies this
      ensures Valid() && ops == old(ops) + [Op.Delete(key)] && sequence == old(sequence)
    {
      AddOp(Op.Delete(key));
    }

    method AddOp(op: Op)
      requires Valid() && |ops| + 1 < WORD_LIMIT
      modifies this
      ensures Valid() && ops == old(ops) + [op] && sequence == old(sequence)
    {
      hide EncodeFixed32;
      hide DecodeFixed32;
      hide EncodeFixed64;
      hide DecodeFixed64;
      hide EncodeOp;
      HeaderIsRead(sequence, ops);
      RepGrows(sequence, ops, [op]);
      SetCount(CountOf(rep) + 1);
      rep := rep + EncodeOp(op);
      ops := ops + [op];
      assert EncodeOps([op]) == EncodeOp(op);
    }

    method SetCount(n: Word)
      requires |rep| >= HEADER
      modifies `rep
      ensures rep == old(rep[..8]) + EncodeFixed32(n) + old(rep[HEADER..])
    {
      rep := rep[..8] + EncodeFixed32(n) + rep[HEADER..];
    }

    method SetSequence(s: nat)
      requires Valid() && s < LONG_LIMIT
      modifies this
      ensures Valid() && ops == old(ops) && sequence == s
    {
      hide EncodeFixed32;
      hide EncodeFixed64;
      hide EncodeOps;
      RepParts(EncodeFixed64(sequence), EncodeFixed32(|ops| % WORD_LIMIT), EncodeOps(ops));
      RepParts(EncodeFixed64(s), EncodeFixed32(|ops| % WORD_LIMIT), EncodeOps(ops));
      rep := EncodeFixed64(s) + rep[8..];
      sequence := s;
    }

    /** The operations of the other batch behind those of this one. */
    method Append(source: WriteBatch)
      requires Valid() && source.Valid() && source != this
      requires |ops| + |source.ops| < WORD_LIMIT
      modifies this
      ensures Valid() && ops == old(ops) + source.ops && sequence == old(sequence)
    {
      hide EncodeFixed32;
      hide DecodeFixed32;
      hide EncodeFixed64;
      hide EncodeOps;
      hide Rep;
      HeaderIsRead(sequence, ops);
      HeaderIsRead(source.sequence, source.ops);
      RepGrows(sequence, ops, source.ops);
      SetCount(CountOf(rep) + CountOf(source.rep));
      rep := rep + source.rep[HEADER..];
      ops := ops + source.ops;
    }
  }
}
