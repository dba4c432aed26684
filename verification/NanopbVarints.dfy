/**
 The numbers that nanopb reads (pb_decode.c): which bytes are accepted as a key or a length, and which numbers as the
 value of a field, for every input.
 */
module NanopbVarints {
  import opened InternalKeys
  import opened Coding
  import opened NanopbDecode
  import opened NanopbEncode
  import opened NanopbTypes
  import NanopbRoundTrip
  import opened Spellings

  /** A byte beyond the 32nd bit: no bits, or those that extend a negative number to 64 bits. */
  predicate IsPadding(byte: Byte, k: nat, low: Word) {
    byte % 128 == 0 || (low >= 0x8000_0000 && byte == if k < 9 then 0xFF else 0x01)
  }

  predicate AllPadding(bytes: Bytes, from: nat, low: Word) {
    forall k {:trigger bytes[k]} | 0 <= k < |bytes| :: IsPadding(bytes[k], from + k, low)
  }

  lemma {:induction false} PaddingIs(bytes: Bytes, rest: Bytes, k: nat, weight: nat, low: Word)
    requires Spellings.IsVarint(bytes) && k >= 5
    ensures Varint32From(bytes + rest, 7 * k, weight, low) ==
      if AllPadding(bytes, k, low) then Parsed(low, rest) else Malformed
    decreases |bytes|
  {
    assert (bytes + rest)[1..] == bytes[1..] + rest && (bytes + rest)[0] == bytes[0];
    if |bytes| == 1 {
      assert bytes[1..] + rest == rest;
    } else {
      PaddingIs(bytes[1..], rest, k + 1, weight * 128, low);
      assert AllPadding(bytes, k, low) <==> IsPadding(bytes[0], k, low) && AllPadding(bytes[1..], k + 1, low) by {
        if IsPadding(bytes[0], k, low) && AllPadding(bytes[1..], k + 1, low) {
          forall j | 0 <= j < |bytes| ensures IsPadding(bytes[j], k + j, low) {
            if j > 0 { assert IsPadding(bytes[1..][j - 1], k + 1 + (j - 1), low); }
          }
        }
        if AllPadding(bytes, k, low) {
          forall j | 0 <= j < |bytes[1..]| ensures IsPadding(bytes[1..][j], k + 1 + j, low) {
            assert IsPadding(bytes[j + 1], k + (j + 1), low);
          }
        }
      }
    }
  }

  /** The weight of byte `k`. */
  function WeightAt(k: nat): (r: nat)
    requires k <= 4
  {
    if k == 0 then 1 else if k == 1 then 0x80 else if k == 2 then 0x4000 else if k == 3 then 0x20_0000 else 0x1000_0000
  }

  /** What is read from byte `k` on: five bytes without overflow, or more bytes, of which only padding counts. */
  function ReadFrom(bytes: Bytes, rest: Bytes, k: nat, result: nat): (r: Parsed<Word>)
    requires k <= 4
  {
    if k + |bytes| <= 5 then
      var v := result + Times(WeightAt(k), Base128(bytes));
      if v < WORD_LIMIT then Parsed(v, rest) else Malformed
    else
      var low := (result + Times(WeightAt(k), Base128(bytes[..5 - k]))) % WORD_LIMIT;
      if AllPadding(bytes[5 - k..], 5, low) then Parsed(low, rest) else Malformed
  }

  lemma TurnAt(k: nat, result: nat, b: nat, more: nat)
    requires k < 4
    ensures result + b * WeightAt(k) + Times(WeightAt(k + 1), more) == result + Times(WeightAt(k), b + 128 * more)
  {
  }

  /** One turn of the loop. */
  lemma Turn(bytes: Bytes, rest: Bytes, k: nat, result: Word)
    requires bytes != [] && k <= 4
    ensures var byte, weight := bytes[0], WeightAt(k);
      var result' := (result + byte % 128 * weight) % WORD_LIMIT;
      Varint32From(bytes + rest, 7 * k, weight, result) ==
        if byte >= 128 then Varint32From(bytes[1..] + rest, 7 * k + 7, weight * 128, result')
        else if k == 4 && byte >= 16 then Malformed else Parsed(result', bytes[1..] + rest)
  {
    assert (bytes + rest)[1..] == bytes[1..] + rest;
  }

  lemma LastAt(k: nat, result: nat, b: nat)
    requires k <= 4 && result < WeightAt(k) && b < 128
    ensures Times(WeightAt(k), b) == b * WeightAt(k)
    ensures k < 4 ==> result + b * WeightAt(k) < WORD_LIMIT
    ensures k == 4 ==> (result + b * WeightAt(k) < WORD_LIMIT <==> b < 16)
  {
  }

  lemma NextAt(k: nat, result: nat, b: nat)
    requires k < 4 && result < WeightAt(k) && b < 128
    ensures result < WORD_LIMIT && result + b * WeightAt(k) < WeightAt(k + 1) == WeightAt(k) * 128 < WORD_LIMIT
  {
  }

  lemma NextReads(bytes: Bytes, rest: Bytes, k: nat, result: nat)
    requires IsVarint(bytes) && |bytes| > 1 && k < 4
    ensures ReadFrom(bytes, rest, k, result) ==
      ReadFrom(bytes[1..], rest, k + 1, result + bytes[0] % 128 * WeightAt(k))
  {
    hide AllPadding;
    hide Times;
    hide Base128;
    hide WeightAt;
    var b := bytes[0] % 128;
    if k + |bytes| <= 5 {
      Base128Steps(bytes);
      TurnAt(k, result, b, Base128(bytes[1..]));
    } else {
      var front := bytes[..5 - k];
      assert front[1..] == bytes[1..][..4 - k] && bytes[5 - k..] == bytes[1..][4 - k..];
      Base128Steps(front);
      TurnAt(k, result, b, Base128(front[1..]));
    }
  }

  lemma LastReads(bytes: Bytes, rest: Bytes, k: nat, result: nat)
    requires IsVarint(bytes) && |bytes| == 1 && k <= 4 && result < WeightAt(k)
    ensures Varint32From(bytes + rest, 7 * k, WeightAt(k), result) == ReadFrom(bytes, rest, k, result)
  {
    hide AllPadding;
    hide Times;
    hide Base128;
    hide Varint32From;
    Turn(bytes, rest, k, result);
    Base128Steps(bytes);
    assert bytes[1..] + rest == rest;
    LastAt(k, result, bytes[0] % 128);
  }

  lemma FifthReads(bytes: Bytes, rest: Bytes, result: nat)
    requires IsVarint(bytes) && |bytes| > 1 && result < WeightAt(4)
    ensures Varint32From(bytes + rest, 28, WeightAt(4), result) == ReadFrom(bytes, rest, 4, result)
  {
    hide AllPadding;
    hide Times;
    hide Base128;
    hide Varint32From;
    var b := bytes[0] % 128;
    Turn(bytes, rest, 4, result);
    PaddingIs(bytes[1..], rest, 5, 0x8_0000_0000, (result + b * WeightAt(4)) % WORD_LIMIT);
    Base128Steps(bytes[..1]);
    LastAt(4, result, b);
  }

  lemma {:induction false} ReadsFrom(bytes: Bytes, rest: Bytes, k: nat, result: nat)
    requires IsVarint(bytes) && k <= 4 && result < WeightAt(k)
    ensures Varint32From(bytes + rest, 7 * k, WeightAt(k), result) == ReadFrom(bytes, rest, k, result)
    decreases |bytes|
  {
    hide Varint32From;
    hide ReadFrom;
    hide WeightAt;
    if |bytes| == 1 {
      LastReads(bytes, rest, k, result);
    } else if k == 4 {
      FifthReads(bytes, rest, result);
    } else {
      var b := bytes[0] % 128;
      NextAt(k, result, b);
      Turn(bytes, rest, k, result);
      Coding.SmallMod(result + b * WeightAt(k), WORD_LIMIT);
      ReadsFrom(bytes[1..], rest, k + 1, result + b * WeightAt(k));
      NextReads(bytes, rest, k, result);
    }
  }

  /**
   A number of at most five bytes is read exactly if it is below 2^32.  Of a longer one the first 32 bits are read, if
   from the sixth byte on there is nothing but padding; the upper bits of the fifth are lost.
   */
  lemma {:induction false} ReadVarint32Is(bytes: Bytes, rest: Bytes)
    requires IsVarint(bytes)
    ensures ReadVarint32(bytes + rest) ==
      if |bytes| <= 5 then if Base128(bytes) < WORD_LIMIT then Parsed(Base128(bytes), rest) else Malformed
      else
        var low := Base128(bytes[..5]) % WORD_LIMIT;
        if AllPadding(bytes[5..], 5, low) then Parsed(low, rest) else Malformed
  {
    hide Varint32From;
    hide Base128;
    hide AllPadding;
    ReadsFrom(bytes, rest, 0, 0);
  }

  /** Bytes that do not end are refused. */
  lemma {:induction false} UnendedIsRefused(input: Bytes, bitpos: nat, weight: nat, result: Word)
    requires forall k | 0 <= k < |input| :: input[k] >= 128
    ensures Varint32From(input, bitpos, weight, result) == Malformed
    decreases |input|
  {
    if input != [] {
      var byte := input[0];
      UnendedIsRefused(input[1..], bitpos + 7, weight * 128, result);
      UnendedIsRefused(input[1..], bitpos + 7, weight * 128, (result + byte % 128 * weight) % WORD_LIMIT);
    }
  }

  lemma {:induction false} SameBits(a: Bytes, b: Bytes)
    requires |a| == |b| && forall k | 0 <= k < |a| :: a[k] % 128 == b[k] % 128
    ensures Base128(a) == Base128(b)
    decreases |a|
  {
    if a != [] { SameBits(a[1..], b[1..]); }
  }

  /** So an overflow that is refused in five bytes is let through, without its upper bits, if a zero follows. */
  lemma {:induction false} OverflowIsLetThrough(bytes: Bytes)
    requires IsVarint(bytes) && |bytes| == 5 && Base128(bytes) >= WORD_LIMIT
    ensures ReadVarint32(bytes) == Malformed
    ensures ReadVarint32(bytes[..4] + [bytes[4] + 128, 0]) == Parsed(Base128(bytes) % WORD_LIMIT, [])
  {
    hide ReadVarint32;
    hide Base128;
    var longer := bytes[..4] + [bytes[4] + 128, 0];
    assert bytes + [] == bytes && longer + [] == longer;
    ReadVarint32Is(bytes, []);
    ReadVarint32Is(longer, []);
    assert longer[5..] == [0];
    SameBits(bytes, longer[..5]);
  }

  // ----- values -----

  /** The field has a width that integers have, and the number fits it. */
  predicate FitsSigned(s: int, w: nat) {
    IsWidth(w) && s + Half(w) >= 0 && s < Half(w)
  }

  /** An int32 is the low half of the varint, whatever the upper half is. */
  predicate Congruent(s: int, n: nat, w: nat) {
    (s - n) % (if w == 8 then LONG_LIMIT else WORD_LIMIT) == 0
  }

  /** The number is stored if it fits the field, and refused if not; it is never cut off. */
  lemma {:induction false} SignedIs(w: nat, input: Bytes, s: int, rest: Bytes)
    ensures var n := DecodeVarint64(input);
      ReadScalar(Signed(w), input) == Parsed(Number(s), rest) <==>
        n.Parsed? && n.rest == rest && FitsSigned(s, w) && Congruent(s, n.value, w)
  {
    hide DecodeVarint64;
    var n := DecodeVarint64(input);
    if n.Parsed? && FitsSigned(s, w) { OneSigned(n.value, w, s); }
  }

  lemma OneSigned(n: nat, w: nat, s: int)
    requires FitsSigned(s, w)
    ensures Congruent(s, n, w) <==> s == AsSigned(n, if w == 8 then 8 else 4)
  {
    if w == 8 { LowBits64(n, s); } else { LowBits32(n, s); }
  }

  lemma LowBits32(n: nat, s: int)
    requires -0x8000_0000 <= s < 0x8000_0000
    ensures (s - n) % WORD_LIMIT == 0 <==> s == AsSigned(n, 4)
  {
    var q, m := n / WORD_LIMIT, n % WORD_LIMIT;
    assert s - n == (s - m) - WORD_LIMIT * q;
    assert AsSigned(n, 4) == if m < 0x8000_0000 then m else m - WORD_LIMIT;
  }

  lemma LowBits64(n: nat, s: int)
    requires -0x8000_0000_0000_0000 <= s < 0x8000_0000_0000_0000
    ensures (s - n) % LONG_LIMIT == 0 <==> s == AsSigned(n, 8)
  {
    var q, m := n / LONG_LIMIT, n % LONG_LIMIT;
    assert s - n == (s - m) - LONG_LIMIT * q;
    assert AsSigned(n, 8) == if m < 0x8000_0000_0000_0000 then m else m - LONG_LIMIT;
  }

  lemma {:induction false} UnsignedIs(w: nat, input: Bytes, v: int, rest: Bytes)
    ensures ReadScalar(Unsigned(w), input) == Parsed(Number(v), rest) <==>
      IsWidth(w) && 0 <= v < 2 * Half(w) && DecodeVarint64(input) == Parsed(v, rest)
  {
    hide DecodeVarint64;
  }

  lemma {:induction false} ZigZagIs(w: nat, input: Bytes, s: int, rest: Bytes)
    ensures ReadScalar(ZigZag(w), input) == Parsed(Number(s), rest) <==>
      FitsSigned(s, w) && DecodeVarint64(input) == Parsed(ZigZagged(s), rest)
  {
    hide DecodeVarint64;
  }

  /** No bytes stand for zeros, where a number of bytes is fixed. */
  lemma {:induction false} NoBytesAreZeros(d: nat, rest: Bytes)
    ensures ReadScalar(FixedLengthBytes(d), [0] + rest) == Parsed(Text(Zeros(d)), rest)
  {
    hide NanopbDecode.ReadString;
    NanopbRoundTrip.StringIsRead([], rest);
    assert WithLength([]) + rest == [0] + rest;
  }
}
