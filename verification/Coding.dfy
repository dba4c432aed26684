/** Fixed-width and variable-length integers and length-prefixed byte strings (coding.cc). */
module Coding {
  import opened InternalKeys

  const WORD_LIMIT := 0x1_0000_0000
  const LONG_LIMIT := 0x1_0000_0000_0000_0000

  type Word = w: int | 0 <= w < WORD_LIMIT

  // ----- fixed width, little-endian -----

  function EncodeFixed32(w: Word): (r: Bytes)
    ensures |r| == 4
  {
    [w % 256, w / 256 % 256, w / 0x1_0000 % 256, w / 0x100_0000]
  }

  function DecodeFixed32(b: Bytes): (r: Word)
    requires |b| >= 4
  {
    (b[0] as int) + 256 * (b[1] as int) + 0x1_0000 * (b[2] as int) + 0x100_0000 * (b[3] as int)
  }

  lemma {:induction false} DecodeUndoesEncode(w: Word, rest: Bytes)
    ensures DecodeFixed32(EncodeFixed32(w) + rest) == w
  {
    var b := w / 256;
    var c := b / 256;
    assert w / 0x1_0000 == c && w / 0x100_0000 == c / 256;
    assert w == w % 256 + 256 * b && b == b % 256 + 256 * c;
  }

  lemma {:induction false} EncodeUndoesDecode(b: Bytes)
    requires |b| == 4
    ensures EncodeFixed32(DecodeFixed32(b)) == b
  {
    var x, y, z, w: int := b[0], b[1], b[2], b[3];
    var n := x + 256 * (y + 256 * (z + 256 * w));
    assert DecodeFixed32(b) == n;
    assert n / 256 == y + 256 * (z + 256 * w);
    assert n / 0x1_0000 == n / 256 / 256 == z + 256 * w && n / 0x100_0000 == n / 256 / 256 / 256 == w;
  }

  /** A number that does not fit 64 bits is cut off. */
  function EncodeFixed64(n: nat): (r: Bytes)
    ensures |r| == 8
  {
    EncodeFixed32(n % WORD_LIMIT) + EncodeFixed32(n / WORD_LIMIT % WORD_LIMIT)
  }

  function DecodeFixed64(b: Bytes): (r: nat)
    requires |b| >= 8
  {
    DecodeFixed32(b) + WORD_LIMIT * DecodeFixed32(b[4..])
  }

  lemma {:induction false} Decode64UndoesEncode(n: nat, rest: Bytes)
    requires n < LONG_LIMIT
    ensures DecodeFixed64(EncodeFixed64(n) + rest) == n
  {
    hide EncodeFixed32;
    hide DecodeFixed32;
    var low, high := EncodeFixed32(n % WORD_LIMIT), EncodeFixed32(n / WORD_LIMIT % WORD_LIMIT);
    assert n / WORD_LIMIT < WORD_LIMIT;
    assert EncodeFixed64(n) + rest == low + (high + rest);
    assert (low + (high + rest))[4..] == high + rest;
    DecodeUndoesEncode(n % WORD_LIMIT, high + rest);
    DecodeUndoesEncode(n / WORD_LIMIT, rest);
  }

  // ----- varints -----

  /** Seven bits a byte, least significant first; the top bit says that more follow. */
  function Varint(v: nat): (r: Bytes)
    ensures r != []
  {
    if v < 128 then [v] else [v % 128 + 128] + Varint(v / 128)
  }

  /** The unrolled form that the code uses for 32-bit values. */
  function EncodeVarint32(v: Word): (r: Bytes) {
    if v < 0x80 then [v]
    else if v < 0x4000 then [v % 128 + 128, v / 128]
    else if v < 0x20_0000 then [v % 128 + 128, v / 128 % 128 + 128, v / 0x4000]
    else if v < 0x1000_0000 then [v % 128 + 128, v / 128 % 128 + 128, v / 0x4000 % 128 + 128, v / 0x20_0000]
    else [v % 128 + 128, v / 128 % 128 + 128, v / 0x4000 % 128 + 128, v / 0x20_0000 % 128 + 128, v / 0x1000_0000]
  }

  lemma {:induction false} UnrolledIsVarint(v: Word)
    ensures EncodeVarint32(v) == Varint(v)
  {
    var a := v / 128;
    var b := a / 128;
    var c := b / 128;
    var d := c / 128;
    assert b == v / 0x4000 && c == v / 0x20_0000 && d == v / 0x1000_0000;
    assert d < 128 ==> Varint(d) == [d];
    if v >= 0x1000_0000 {
      assert Varint(c) == [c % 128 + 128] + Varint(d);
      assert Varint(b) == [b % 128 + 128] + Varint(c);
      assert Varint(a) == [a % 128 + 128] + Varint(b);
    } else if v >= 0x20_0000 {
      assert Varint(b) == [b % 128 + 128] + Varint(c);
      assert Varint(a) == [a % 128 + 128] + Varint(b);
    } else if v >= 0x4000 {
      assert Varint(a) == [a % 128 + 128] + Varint(b);
    }
  }

  /** A value and the bytes behind it. */
  datatype Parsed<T> = Malformed | Parsed(value: T, rest: Bytes)

  /**
   The decoding loop from its k-th turn on, for numbers below `limit` in at most `most` bytes; bits shifted out are
   lost.  `weight` is 1 shifted by `7 * k`, above every bit of `result`, so or-ing is adding.
   */
  function VarintFrom(input: Bytes, k: nat, weight: nat, result: nat, most: nat, limit: nat): (r: Parsed<nat>)
    requires limit > 0
    ensures r.Parsed? ==> |r.rest| < |input|
    ensures r.Parsed? ==> r.value < limit
    decreases |input|
  {
    if k >= most || input == [] then Malformed
    else
      var bits := input[0] % 128 * weight % limit;
      var result' := (result + bits) % limit;
      if input[0] >= 128 then VarintFrom(input[1..], k + 1, weight * 128, result', most, limit)
        else Parsed(result', input[1..])
  }

  function DecodeVarint32(input: Bytes): (r: Parsed<Word>)
    ensures r.Parsed? ==> |r.rest| < |input|
  {
    var r := VarintFrom(input, 0, 1, 0, 5, WORD_LIMIT);
    if r.Malformed? then Malformed else Parsed(r.value, r.rest)
  }

  function DecodeVarint64(input: Bytes): (r: Parsed<nat>)
    ensures r.Parsed? ==> |r.rest| < |input|
  {
    VarintFrom(input, 0, 1, 0, 10, LONG_LIMIT)
  }

  /** The low seven bits of a value and the rest of it, at their weights; neither overflows if the whole does not. */
  lemma {:induction false} WeightSplits(v: nat, weight: nat, result: nat, limit: nat)
    requires result + v * weight < limit
    ensures v * weight == v / 128 * (weight * 128) + v % 128 * weight
    ensures v % 128 * weight % limit == v % 128 * weight
    ensures (result + v % 128 * weight) % limit == result + v % 128 * weight
  {
    var q, r := v / 128, v % 128;
    assert v == q * 128 + r;
    assert (q * 128 + r) * weight == q * 128 * weight + r * weight;
    assert q * 128 * weight == q * (weight * 128);
    assert q * (weight * 128) >= 0 && r * weight >= 0;
    SmallMod(r * weight, limit);
    SmallMod(result + r * weight, limit);
  }

  lemma {:induction false} SmallMod(n: nat, limit: nat)
    requires n < limit
    ensures n % limit == n
  {
  }

  function Weight(k: nat): (r: nat)
    ensures r >= 1
  {
    if k == 0 then 1 else Weight(k - 1) * 128
  }

  /** One turn of the loop that loses no bits. */
  lemma {:induction false} TurnReads(byte: Byte, rest: Bytes, k: nat, weight: nat, result: nat, most: nat, limit: nat,
      bits: nat)
    requires limit > 0 && k < most && bits == byte % 128 * weight
    requires bits % limit == bits && (result + bits) % limit == result + bits
    ensures VarintFrom([byte] + rest, k, weight, result, most, limit) ==
      if byte >= 128 then VarintFrom(rest, k + 1, weight * 128, result + bits, most, limit)
        else Parsed(result + bits, rest)
  {
    assert ([byte] + rest)[1..] == rest;
  }

  /** Numbers that are read back: the last byte allowed has room for what is left. */
  lemma {:induction false} VarintFromReads(v: nat, rest: Bytes, k: nat, weight: nat, result: nat, most: nat, limit: nat)
    requires k < most && weight == Weight(k) && limit <= Weight(most)
    requires result + v * weight < limit
    ensures VarintFrom(Varint(v) + rest, k, weight, result, most, limit) == Parsed(result + v * weight, rest)
    decreases v
  {
    hide VarintFrom;
    hide Weight;
    hide Varint;
    WeightSplits(v, weight, result, limit);
    VarintSteps(v, rest);
    if v < 128 {
      TurnReads(v, rest, k, weight, result, most, limit, v % 128 * weight);
    } else {
      WeightNext(k);
      TurnReads(v % 128 + 128, Varint(v / 128) + rest, k, weight, result, most, limit, v % 128 * weight);
      MoreBytesFit(v, k, weight, most, limit);
      VarintFromReads(v / 128, rest, k + 1, weight * 128, result + v % 128 * weight, most, limit);
    }
  }

  lemma VarintSteps(v: nat, rest: Bytes)
    ensures v < 128 ==> Varint(v) == [v] && v % 128 == v
    ensures v >= 128 ==> Varint(v) + rest == [v % 128 + 128] + (Varint(v / 128) + rest)
  {
  }

  lemma WeightNext(k: nat)
    ensures Weight(k + 1) == Weight(k) * 128
  {
  }

  /** A number that needs another byte has room for it. */
  lemma {:induction false} MoreBytesFit(v: nat, k: nat, weight: nat, most: nat, limit: nat)
    requires v >= 128 && k < most && weight == Weight(k)
    requires limit <= Weight(most) && v * weight < limit
    ensures k + 1 < most
  {
    assert v * weight >= 128 * weight;
    WeightsAscend(most, k + 1);
  }

  lemma {:induction false} WeightsAscend(a: nat, b: nat)
    ensures a <= b ==> Weight(a) <= Weight(b)
  {
    if a < b { WeightsAscend(a, b - 1); }
  }

  lemma DecodeUndoesVarint32(v: Word, rest: Bytes)
    ensures DecodeVarint32(EncodeVarint32(v) + rest) == Parsed(v, rest)
  {
    UnrolledIsVarint(v);
    assert Weight(5) == 0x8_0000_0000;
    VarintFromReads(v, rest, 0, 1, 0, 5, WORD_LIMIT);
  }

  /** EncodeVarint64 is a loop that does what `Varint` says. */
  lemma DecodeUndoesVarint64(v: nat, rest: Bytes)
    requires v < LONG_LIMIT
    ensures DecodeVarint64(Varint(v) + rest) == Parsed(v, rest)
  {
    assert Weight(5) == 0x8_0000_0000;
    assert Weight(10) == 0x40_0000_0000_0000_0000;
    VarintFromReads(v, rest, 0, 1, 0, 10, LONG_LIMIT);
  }

  method EncodeVarint64(v: nat) returns (r: Bytes)
    ensures r == Varint(v)
  {
    r := [];
    var n := v;
    while n >= 128
      invariant Varint(v) == r + Varint(n)
    {
      assert r + ([n % 128 + 128] + Varint(n / 128)) == (r + [n % 128 + 128]) + Varint(n / 128);
      r := r + [n % 128 + 128];
      n := n / 128;
    }
    r := r + [n];
  }

  method GetVarint32(input: Bytes) returns (r: Parsed<Word>)
    ensures r == DecodeVarint32(input)
  {
    var p := input;
    var result: Word, weight: nat := 0, 1;
    for k := 0 to 5
      invariant VarintFrom(input, 0, 1, 0, 5, WORD_LIMIT) == VarintFrom(p, k, weight, result, 5, WORD_LIMIT)
    {
      if p == [] {
        return Malformed;
      }
      var byte := p[0];
      p := p[1..];
      result := (result + byte % 128 * weight % WORD_LIMIT) % WORD_LIMIT;
      if byte < 128 {
        return Parsed(result, p);
      }
      weight := weight * 128;
    }
    r := Malformed;
  }

  // ----- length-prefixed slices -----

  /** The length is written as 32 bits. */
  function LengthPrefixed(data: Bytes): (r: Bytes) {
    EncodeVarint32(|data| % WORD_LIMIT) + data
  }

  function DecodeLengthPrefixed(input: Bytes): (r: Parsed<Bytes>)
    ensures r.Parsed? ==> |r.rest| < |input|
  {
    var n := DecodeVarint32(input);
    if n.Parsed? && |n.rest| >= n.value then Parsed(n.rest[..n.value], n.rest[n.value..]) else Malformed
  }

  lemma {:induction false} DecodeUndoesLengthPrefix(data: Bytes, rest: Bytes)
    requires |data| < WORD_LIMIT
    ensures DecodeLengthPrefixed(LengthPrefixed(data) + rest) == Parsed(data, rest)
  {
    assert LengthPrefixed(data) + rest == EncodeVarint32(|data|) + (data + rest);
    DecodeUndoesVarint32(|data|, data + rest);
    assert (data + rest)[..|data|] == data && (data + rest)[|data|..] == rest;
  }
}
