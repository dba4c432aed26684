/**
 Bloom filters and filter blocks (util/bloom.cc, table/filter_block.cc, InternalFilterPolicy in db/dbformat.cc): a key
 that was added for a block is never reported as absent from it.
 */
module Filters {
  import opened InternalKeys
  import opened Coding
  import opened Blocks

  // ----- bits -----

  /** `b & (1 << i)`. */
  predicate BitOf(b: nat, i: nat) {
    if i == 0 then b % 2 == 1 else BitOf(b / 2, i - 1)
  }

  /** `b | (1 << i)`. */
  function WithBit(b: nat, i: nat): (r: nat)
    ensures b <= r
  {
    if i == 0 then b / 2 * 2 + 1 else WithBit(b / 2, i - 1) * 2 + b % 2
  }

  lemma {:induction false} WithBitSets(b: nat, i: nat, j: nat)
    ensures BitOf(WithBit(b, i), j) <==> i == j || BitOf(b, j)
  {
    if i > 0 && j > 0 {
      WithBitSets(b / 2, i - 1, j - 1);
    }
  }

  lemma {:induction false} NoBits(i: nat)
    ensures !BitOf(0, i)
  {
    if i > 0 { NoBits(i - 1); }
  }

  lemma {:induction false} WithBitStays(b: nat, i: nat, width: nat)
    requires i < width && b < Pow2(width)
    ensures WithBit(b, i) < Pow2(width)
  {
    if i > 0 { WithBitStays(b / 2, i - 1, width - 1); }
  }

  function Pow2(n: nat): (r: nat)
    ensures r > 0
  {
    if n == 0 then 1 else 2 * Pow2(n - 1)
  }

  predicate HasBit(bytes: Bytes, bit: nat)
    requires bit < 8 * |bytes|
  {
    BitOf(bytes[bit / 8], bit % 8)
  }

  function SetBit(bytes: Bytes, bit: nat): (r: Bytes)
    requires bit < 8 * |bytes|
    ensures |r| == |bytes|
  {
    assert Pow2(8) == 256;
    WithBitStays(bytes[bit / 8], bit % 8, 8);
    bytes[bit / 8 := WithBit(bytes[bit / 8], bit % 8)]
  }

  lemma {:induction false} SetBitSets(bytes: Bytes, bit: nat, other: nat)
    requires bit < 8 * |bytes| && other < 8 * |bytes|
    ensures HasBit(SetBit(bytes, bit), other) <==> other == bit || HasBit(bytes, other)
  {
    WithBitSets(bytes[bit / 8], bit % 8, other % 8);
  }

  // ----- double hashing -----

  /** The hash function; nothing about it matters. */
  type Hash = Bytes -> Word

  /** Rotates right by 17 bits; the halves share no bit. */
  function Delta(h: Word): (r: Word) {
    h / 0x2_0000 + h % 0x2_0000 * 0x8000
  }

  /** The j-th value of the probe sequence. */
  function Probe(h: Word, j: nat): (r: Word) {
    if j == 0 then h else (Probe(h, j - 1) + Delta(h)) % WORD_LIMIT
  }

  /** The bit of the j-th probe. */
  function ProbeBit(h: Word, j: nat, bits: nat): (r: nat)
    requires bits > 0
    ensures r < bits
  {
    Probe(h, j) % bits
  }

  ghost predicate ProbesSet(bytes: Bytes, h: Word, k: nat)
    requires bytes != []
  {
    forall j | 0 <= j < k :: HasBit(bytes, ProbeBit(h, j, 8 * |bytes|))
  }

  ghost predicate IsProbe(h: Word, k: nat, bits: nat, bit: nat)
    requires bits > 0
  {
    exists j :: 0 <= j < k && ProbeBit(h, j, bits) == bit
  }

  /** The first `k` probes, and no others, have been set in `given`. */
  ghost predicate Marked(given: Bytes, bytes: Bytes, h: Word, k: nat)
    requires given != [] && |bytes| == |given|
  {
    forall bit | 0 <= bit < 8 * |given| :: HasBit(bytes, bit) <==> HasBit(given, bit) || IsProbe(h, k, 8 * |given|, bit)
  }

  lemma NothingMarked(given: Bytes, h: Word)
    requires given != []
    ensures Marked(given, given, h, 0)
  {
  }

  lemma NextProbe(h: Word, k: nat, bits: nat, bit: nat)
    requires bits > 0
    ensures IsProbe(h, k + 1, bits, bit) <==> IsProbe(h, k, bits, bit) || ProbeBit(h, k, bits) == bit
  {
    hide ProbeBit;
  }

  lemma MarkOne(given: Bytes, bytes: Bytes, h: Word, k: nat)
    requires given != [] && |bytes| == |given| && Marked(given, bytes, h, k)
    ensures Marked(given, SetBit(bytes, ProbeBit(h, k, 8 * |given|)), h, k + 1)
  {
    hide HasBit;
    hide SetBit;
    hide ProbeBit;
    hide IsProbe;
    var bitpos := ProbeBit(h, k, 8 * |given|);
    forall bit | 0 <= bit < 8 * |given|
      ensures HasBit(SetBit(bytes, bitpos), bit) <==> HasBit(given, bit) || IsProbe(h, k + 1, 8 * |given|, bit)
    {
      SetBitSets(bytes, bitpos, bit);
      NextProbe(h, k, 8 * |given|, bit);
    }
  }

  lemma AllMarked(given: Bytes, bytes: Bytes, h: Word, k: nat)
    requires given != [] && |bytes| == |given| && Marked(given, bytes, h, k)
    ensures ProbesSet(bytes, h, k)
    ensures forall bit | 0 <= bit < 8 * |given| && HasBit(bytes, bit) ::
      HasBit(given, bit) || IsProbe(h, k, 8 * |given|, bit)
  {
    hide HasBit;
    hide ProbeBit;
    forall j | 0 <= j < k ensures HasBit(bytes, ProbeBit(h, j, 8 * |bytes|)) {
      assert IsProbe(h, k, 8 * |given|, ProbeBit(h, j, 8 * |given|));
    }
  }

  lemma StillMarked(given: Bytes, bytes: Bytes, h: Word, k: nat, other: Word)
    requires given != [] && |bytes| == |given| && Marked(given, bytes, h, k) && ProbesSet(given, other, k)
    ensures ProbesSet(bytes, other, k)
  {
    hide HasBit;
    hide ProbeBit;
    hide IsProbe;
  }

  // ----- the Bloom filter -----

  class BloomFilterPolicy {
    const bitsPerKey: nat
    const hash: Hash
    const k: nat

    ghost predicate Valid() {
      1 <= k <= 30
    }

    constructor (bitsPerKey: nat, hash: Hash)
      ensures Valid() && this.bitsPerKey == bitsPerKey && this.hash == hash
      ensures k > 1 ==> 100 * k <= 69 * bitsPerKey
      ensures k < 30 ==> 69 * bitsPerKey < 100 * (k + 1)
    {
      this.bitsPerKey, this.hash := bitsPerKey, hash;
      var probes := (bitsPerKey as real * 0.69).Floor;
      k := if probes < 1 then 1 else if probes > 30 then 30 else probes;
    }

    /** A filter with every probe of every key set. */
    ghost predicate Covers(filter: Bytes, keys: seq<Bytes>)
      requires Valid()
    {
      && |filter| >= 2 && filter[|filter| - 1] == k
      && forall i | 0 <= i < |keys| :: ProbesSet(filter[..|filter| - 1], hash(keys[i]), k)
    }

    /** So many bits for each key, but at least 64, in whole bytes. */
    function BytesFor(n: nat): (r: nat)
      ensures r >= 8 && 8 * r >= n * bitsPerKey && (r == 8 || 8 * r < n * bitsPerKey + 8)
    {
      var bits := n * bitsPerKey;
      if bits < 64 then 8 else (bits + 7) / 8
    }

    ghost predicate IsProbed(keys: seq<Bytes>, bits: nat, bit: nat)
      requires bits > 0
    {
      exists i :: 0 <= i < |keys| && IsProbe(hash(keys[i]), k, bits, bit)
    }

    /** And no other bit is set. */
    ghost predicate CoversNoMore(filter: Bytes, keys: seq<Bytes>) {
      var bytes := BytesFor(|keys|);
      && |filter| - 1 == bytes
      && forall bit | 0 <= bit < 8 * bytes && HasBit(filter[..bytes], bit) :: IsProbed(keys, 8 * bytes, bit)
    }

    /** Each probe of the key is one of some key that was added: all that a filter can tell. */
    ghost predicate LooksAdded(keys: seq<Bytes>, key: Bytes) {
      var bits := 8 * BytesFor(|keys|);
      forall j | 0 <= j < k :: IsProbed(keys, bits, ProbeBit(hash(key), j, bits))
    }

    lemma ProbedIsSet(filter: Bytes, keys: seq<Bytes>, bit: nat)
      requires Valid() && Covers(filter, keys) && CoversNoMore(filter, keys) && bit < 8 * BytesFor(|keys|)
      ensures HasBit(filter[..|filter| - 1], bit) <==> IsProbed(keys, 8 * BytesFor(|keys|), bit)
    {
      hide HasBit;
      hide ProbeBit;
      hide BytesFor;
      var bits := 8 * BytesFor(|keys|);
      if IsProbed(keys, bits, bit) {
        var i :| 0 <= i < |keys| && IsProbe(hash(keys[i]), k, bits, bit);
        assert ProbesSet(filter[..|filter| - 1], hash(keys[i]), k);
        var j :| 0 <= j < k && ProbeBit(hash(keys[i]), j, bits) == bit;
      }
    }

    lemma FilterTells(filter: Bytes, keys: seq<Bytes>, key: Bytes)
      requires Valid() && Covers(filter, keys) && CoversNoMore(filter, keys)
      ensures ProbesSet(filter[..|filter| - 1], hash(key), k) <==> LooksAdded(keys, key)
    {
      hide HasBit;
      hide ProbeBit;
      hide IsProbed;
      hide BytesFor;
      var bytes := filter[..|filter| - 1];
      var bits := 8 * |bytes|;
      assert bits == 8 * BytesFor(|keys|);
      forall j | 0 <= j < k
        ensures HasBit(bytes, ProbeBit(hash(key), j, bits)) <==> IsProbed(keys, bits, ProbeBit(hash(key), j, bits))
      {
        ProbedIsSet(filter, keys, ProbeBit(hash(key), j, bits));
      }
    }

    method CreateFilter(keys: seq<Bytes>) returns (filter: Bytes)
      requires Valid()
      ensures Covers(filter, keys)
      ensures CoversNoMore(filter, keys)
    {
      hide BitOf;
      var bits := |keys| * bitsPerKey;
      if bits < 64 {
        bits := 64;
      }
      var bytes: Bytes := seq((bits + 7) / 8, _ => 0);
      forall bit | 0 <= bit < 8 * |bytes| ensures !HasBit(bytes, bit) {
        NoBits(bit % 8);
      }
      for i := 0 to |keys|
        invariant |bytes| == (bits + 7) / 8 > 0
        invariant forall m | 0 <= m < i :: ProbesSet(bytes, hash(keys[m]), k)
        invariant forall bit | 0 <= bit < 8 * |bytes| && HasBit(bytes, bit) ::
          exists m :: 0 <= m < i && IsProbe(hash(keys[m]), k, 8 * |bytes|, bit)
      {
        bytes := AddProbes(bytes, hash(keys[i]), keys[..i]);
      }
      filter := bytes + [k];
      assert filter[..|filter| - 1] == bytes;
    }

    /** Sets the bits of one key, and loses none. */
    method AddProbes(given: Bytes, hashed: Word, ghost before: seq<Bytes>) returns (bytes: Bytes)
      requires given != [] && forall m | 0 <= m < |before| :: ProbesSet(given, hash(before[m]), k)
      ensures |bytes| == |given| && ProbesSet(bytes, hashed, k)
      ensures forall m | 0 <= m < |before| :: ProbesSet(bytes, hash(before[m]), k)
      ensures forall bit | 0 <= bit < 8 * |bytes| && HasBit(bytes, bit) ::
        HasBit(given, bit) || IsProbe(hashed, k, 8 * |bytes|, bit)
    {
      hide HasBit;
      hide SetBit;
      hide Delta;
      hide IsProbe;
      hide Marked;
      bytes := given;
      var h := hashed;
      var delta := Delta(hashed);
      NothingMarked(given, hashed);
      for j := 0 to k
        invariant |bytes| == |given| && h == Probe(hashed, j) && Marked(given, bytes, hashed, j)
      {
        MarkOne(given, bytes, hashed, j);
        bytes := SetBit(bytes, h % (8 * |bytes|));
        h := (h + delta) % WORD_LIMIT;
      }
      AllMarked(given, bytes, hashed, k);
      forall m | 0 <= m < |before| ensures ProbesSet(bytes, hash(before[m]), k) {
        StillMarked(given, bytes, hashed, k, hash(before[m]));
      }
    }

    method KeyMayMatch(key: Bytes, filter: Bytes) returns (r: bool)
      requires Valid()
      ensures |filter| < 2 ==> !r
      ensures |filter| >= 2 ==> (r <==>
        filter[|filter| - 1] > 30 || ProbesSet(filter[..|filter| - 1], hash(key), filter[|filter| - 1]))
    {
      hide BitOf;
      hide Delta;
      if |filter| < 2 {
        return false;
      }
      var bytes := filter[..|filter| - 1];
      var probes: nat := filter[|filter| - 1];
      if probes > 30 {
        return true;
      }
      var h := hash(key);
      var delta := Delta(h);
      for j := 0 to probes
        invariant h == Probe(hash(key), j) && ProbesSet(bytes, hash(key), j)
      {
        if !HasBit(bytes, h % (8 * |bytes|)) {
          assert !HasBit(bytes, ProbeBit(hash(key), j, 8 * |bytes|));
          return false;
        }
        h := (h + delta) % WORD_LIMIT;
      }
      r := true;
    }
  }

  /**
   A filter created for a key matches it, whatever the hash function is and however many bits the reader is set to.
   */
  method NoFalseNegative(built: BloomFilterPolicy, policy: BloomFilterPolicy, keys: seq<Bytes>, i: nat)
      returns (r: bool)
    requires built.Valid() && policy.Valid() && built.hash == policy.hash
    requires i < |keys|
    ensures r
  {
    var filter := built.CreateFilter(keys);
    r := policy.KeyMayMatch(keys[i], filter);
  }

  // ----- filter blocks -----

  const FILTER_BASE_LG := 11
  const FILTER_BASE := 2048

  ghost predicate OffsetsOk(offsets: seq<nat>, size: nat) {
    forall i, j {:trigger offsets[i], offsets[j]} | 0 <= i <= j < |offsets| :: offsets[i] <= offsets[j] <= size
  }

  /** Filter i ends where the next one begins. */
  function FilterAt(result: Bytes, offsets: seq<nat>, i: nat): (r: Bytes)
    requires OffsetsOk(offsets, |result|) && i < |offsets|
  {
    result[offsets[i]..if i + 1 < |offsets| then offsets[i + 1] else |result|]
  }

  /** The keys that were added for the blocks of range `i`. */
  ghost function KeysOf(added: seq<(nat, Bytes)>, i: nat): (r: seq<Bytes>) {
    if added == [] then []
    else
      var last := added[|added| - 1];
      KeysOf(added[..|added| - 1], i) + if last.0 / FILTER_BASE == i then [last.1] else []
  }

  lemma {:induction false} AddedIsOfRange(added: seq<(nat, Bytes)>, m: nat)
    requires m < |added|
    ensures added[m].1 in KeysOf(added, added[m].0 / FILTER_BASE)
  {
    if m < |added| - 1 { AddedIsOfRange(added[..|added| - 1], m); }
  }

  lemma {:induction false} NoneOfRange(added: seq<(nat, Bytes)>, i: nat)
    requires forall m | 0 <= m < |added| :: added[m].0 / FILTER_BASE < i
    ensures KeysOf(added, i) == []
  {
    if added != [] { NoneOfRange(added[..|added| - 1], i); }
  }

  /** The filter of a range: none without keys, or one that has their probes and no others. */
  ghost predicate IsFilterOf(policy: BloomFilterPolicy, filter: Bytes, keys: seq<Bytes>)
    requires policy.Valid()
  {
    if keys == [] then filter == [] else policy.Covers(filter, keys) && policy.CoversNoMore(filter, keys)
  }

  ghost predicate FiltersOk(policy: BloomFilterPolicy, result: Bytes, offsets: seq<nat>, added: seq<(nat, Bytes)>)
    requires policy.Valid()
  {
    && OffsetsOk(offsets, |result|)
    && forall i {:trigger offsets[i]} | 0 <= i < |offsets| ::
         IsFilterOf(policy, FilterAt(result, offsets, i), KeysOf(added, i))
  }

  ghost predicate RangesUpTo(added: seq<(nat, Bytes)>, n: nat) {
    forall m {:trigger added[m]} | 0 <= m < |added| :: added[m].0 / FILTER_BASE < n
  }

  class FilterBlockBuilder {
    const policy: BloomFilterPolicy
    var keys: seq<Bytes>
    var result: Bytes
    var offsets: seq<nat>
    /** The keys added so far, each with the offset of the block it was added for; the last is the current block. */
    ghost var added: seq<(nat, Bytes)>
    ghost var block: nat

    ghost predicate Valid()
      reads this
    {
      && policy.Valid() && FiltersOk(policy, result, offsets, added)
      && keys == KeysOf(added, |offsets|) && RangesUpTo(added, |offsets| + 1)
    }

    constructor (policy: BloomFilterPolicy)
      requires policy.Valid()
      ensures Valid() && this.policy == policy && added == []
      ensures block == 0 && offsets == []
    {
      this.policy := policy;
      keys, result, offsets := [], [], [];
      added, block := [], 0;
    }

    method StartBlock(blockOffset: nat)
      requires Valid() && blockOffset / FILTER_BASE >= |offsets|
      modifies this
      ensures Valid() && added == old(added) && block == blockOffset
      ensures |offsets| == blockOffset / FILTER_BASE
    {
      var index := blockOffset / FILTER_BASE;
      while index > |offsets|
        invariant Valid() && added == old(added) && |offsets| <= index
        decreases index - |offsets|
      {
        GenerateFilter();
      }
      block := blockOffset;
    }

    method AddKey(key: Bytes)
      requires Valid() && |offsets| == block / FILTER_BASE
      modifies `keys, `added
      ensures Valid() && added == old(added) + [(block, key)]
    {
      hide FiltersOk;
      hide KeysOf;
      OneMoreKey(policy, result, offsets, added, block, key);
      keys := keys + [key];
      added := added + [(block, key)];
    }

    method GenerateFilter()
      requires Valid()
      modifies `keys, `result, `offsets
      ensures Valid() && |offsets| == |old(offsets)| + 1 && keys == [] && RangesUpTo(added, |offsets|)
    {
      var filter := [];
      if keys != [] {
        filter := policy.CreateFilter(keys);
      }
      FilterIsKept(policy, result, offsets, filter, added);
      NoneOfRange(added, |offsets| + 1);
      offsets := offsets + [|result|];
      result := result + filter;
      keys := [];
    }

    method Finish() returns (contents: Bytes)
      requires Valid()
      modifies `keys, `result, `offsets
      ensures |contents| < WORD_LIMIT ==> IsFilterBlock(policy, contents, added)
    {
      hide EncodeFixed32;
      hide FiltersOk;
      hide KeysOf;
      hide RangesUpTo;
      hide IsFilterBlock;
      if keys != [] {
        GenerateFilter();
      } else {
        AllInRange(added, |offsets|);
      }
      ghost var data := result;
      var arrayOffset, all := |result|, offsets;
      for i := 0 to |all|
        invariant offsets == all && result == data + FixedAll(all[..i])
      {
        assert all[..i + 1][..i] == all[..i];
        assert data + (FixedAll(all[..i]) + EncodeFixed32(all[i] % WORD_LIMIT)) ==
          result + EncodeFixed32(all[i] % WORD_LIMIT);
        result := result + EncodeFixed32(all[i] % WORD_LIMIT);
      }
      assert all[..|all|] == all;
      result := result + EncodeFixed32(arrayOffset % WORD_LIMIT);
      result := result + [FILTER_BASE_LG];
      contents := result;
      if |contents| < WORD_LIMIT { BlockIsFinished(policy, contents, added, data, offsets); }
    }
  }

  /** The filters, their offsets, the offset of those, and the base. */
  ghost predicate FilterBlockOf(policy: BloomFilterPolicy, contents: Bytes, added: seq<(nat, Bytes)>, data: Bytes,
      offsets: seq<nat>)
    requires policy.Valid()
  {
    && FiltersOk(policy, data, offsets, added) && RangesUpTo(added, |offsets|) && |contents| < WORD_LIMIT
    && contents == data + FixedAll(offsets) + EncodeFixed32(|data| % WORD_LIMIT) + [FILTER_BASE_LG]
  }

  ghost predicate IsFilterBlock(policy: BloomFilterPolicy, contents: Bytes, added: seq<(nat, Bytes)>)
    requires policy.Valid()
  {
    exists data, offsets :: FilterBlockOf(policy, contents, added, data, offsets)
  }

  lemma BlockIsFinished(policy: BloomFilterPolicy, contents: Bytes, added: seq<(nat, Bytes)>, data: Bytes,
      offsets: seq<nat>)
    requires policy.Valid() && FiltersOk(policy, data, offsets, added) && RangesUpTo(added, |offsets|)
    requires contents == data + FixedAll(offsets) + EncodeFixed32(|data| % WORD_LIMIT) + [FILTER_BASE_LG]
    requires |contents| < WORD_LIMIT
    ensures IsFilterBlock(policy, contents, added)
  {
    hide FiltersOk;
    hide RangesUpTo;
    hide EncodeFixed32;
    hide FixedAll;
    assert FilterBlockOf(policy, contents, added, data, offsets);
  }

  /** A key of a range without a filter yet changes no filter. */
  lemma OneMoreKey(policy: BloomFilterPolicy, result: Bytes, offsets: seq<nat>, added: seq<(nat, Bytes)>, block: nat,
      key: Bytes)
    requires policy.Valid() && FiltersOk(policy, result, offsets, added) && block / FILTER_BASE == |offsets|
    requires RangesUpTo(added, |offsets| + 1)
    ensures FiltersOk(policy, result, offsets, added + [(block, key)])
    ensures KeysOf(added + [(block, key)], |offsets|) == KeysOf(added, |offsets|) + [key]
    ensures RangesUpTo(added + [(block, key)], |offsets| + 1)
  {
    hide IsFilterOf;
    hide FilterAt;
    var more := added + [(block, key)];
    assert more[..|more| - 1] == added;
    forall i | 0 <= i < |offsets| ensures IsFilterOf(policy, FilterAt(result, offsets, i), KeysOf(more, i)) {
      var start := offsets[i];
      assert KeysOf(added, i) + [] == KeysOf(added, i);
    }
  }

  /** The filters that are there stay; the waiting keys get theirs. */
  lemma FilterIsKept(policy: BloomFilterPolicy, result: Bytes, offsets: seq<nat>, filter: Bytes,
      added: seq<(nat, Bytes)>)
    requires policy.Valid() && FiltersOk(policy, result, offsets, added)
    requires IsFilterOf(policy, filter, KeysOf(added, |offsets|))
    ensures FiltersOk(policy, result + filter, offsets + [|result|], added)
  {
    hide IsFilterOf;
    var result', offsets' := result + filter, offsets + [|result|];
    forall i | 0 <= i < |offsets'| ensures IsFilterOf(policy, FilterAt(result', offsets', i), KeysOf(added, i)) {
      if i < |offsets| {
        assert offsets[i] == offsets'[i];
        assert FilterAt(result', offsets', i) == FilterAt(result, offsets, i);
      } else {
        assert FilterAt(result', offsets', i) == filter;
      }
    }
  }

  /** No key waits, so every key has its filter. */
  lemma AllInRange(added: seq<(nat, Bytes)>, n: nat)
    requires RangesUpTo(added, n + 1) && KeysOf(added, n) == []
    ensures RangesUpTo(added, n)
  {
    forall m | 0 <= m < |added| ensures added[m].0 / FILTER_BASE < n {
      AddedIsOfRange(added, m);
    }
  }

  // ----- reading a filter block -----

  lemma {:induction false} FilterBlockParts(policy: BloomFilterPolicy, contents: Bytes, added: seq<(nat, Bytes)>,
      data: Bytes, offsets: seq<nat>)
    requires policy.Valid() && FilterBlockOf(policy, contents, added, data, offsets)
    ensures var n := |contents|;
      && n == |data| + 4 * |offsets| + 5 && contents[n - 1] == FILTER_BASE_LG && data <= contents
      && DecodeFixed32(contents[n - 5..]) == |data|
      && forall i {:trigger offsets[i]} | 0 <= i < |offsets| :: DecodeFixed32(contents[|data| + 4 * i..]) == offsets[i]
  {
    hide EncodeFixed32;
    hide DecodeFixed32;
    hide FixedAll;
    hide IsFilterOf;
    var size := EncodeFixed32(|data| % WORD_LIMIT);
    var rest := size + [FILTER_BASE_LG];
    assert contents == data + (FixedAll(offsets) + rest);
    assert contents[|contents| - 5..] == rest;
    assert |data| % WORD_LIMIT == |data|;
    DecodeUndoesEncode(|data|, [FILTER_BASE_LG]);
    forall i | 0 <= i < |offsets| ensures DecodeFixed32(contents[|data| + 4 * i..]) == offsets[i] {
      assert contents[|data| + 4 * i..] == (FixedAll(offsets) + rest)[4 * i..];
      FixedAt(offsets, i, rest);
    }
  }

  /** Long enough, and the array of offsets begins inside. */
  predicate Readable(contents: Bytes) {
    |contents| >= 5 && DecodeFixed32(contents[|contents| - 5..]) <= |contents| - 5
  }

  /** Following the offsets of range `i` leads to that filter. */
  ghost predicate LiesAt(contents: Bytes, i: nat, filter: Bytes) {
    var n := |contents|;
    && Readable(contents) && contents[n - 1] == FILTER_BASE_LG
    && var end := DecodeFixed32(contents[n - 5..]);
       && i < (n - 5 - end) / 4
       && var start, limit := DecodeFixed32(contents[end + i * 4..]), DecodeFixed32(contents[end + i * 4 + 4..]);
          start <= limit <= end && contents[start..limit] == filter
  }

  lemma {:induction false} FilterLies(policy: BloomFilterPolicy, contents: Bytes, added: seq<(nat, Bytes)>, data: Bytes,
    offsets: seq<nat>, i: nat)
    requires policy.Valid() && FilterBlockOf(policy, contents, added, data, offsets) && i < |offsets|
    ensures LiesAt(contents, i, FilterAt(data, offsets, i))
  {
    hide DecodeFixed32;
    hide EncodeFixed32;
    hide FixedAll;
    hide FiltersOk;
    hide RangesUpTo;
    FilterBlockParts(policy, contents, added, data, offsets);
    OffsetsInOrder(policy, data, offsets, added, i);
    OffsetsOfRange(contents, |data|, offsets, i);
    var limit := if i + 1 < |offsets| then offsets[i + 1] else |data|;
    assert contents[0..|data|] == data;
    SliceOfSlice(contents, 0, |data|, offsets[i], limit);
  }

  lemma OffsetsInOrder(policy: BloomFilterPolicy, data: Bytes, offsets: seq<nat>, added: seq<(nat, Bytes)>, i: nat)
    requires policy.Valid() && FiltersOk(policy, data, offsets, added) && i < |offsets|
    ensures OffsetsOk(offsets, |data|)
    ensures offsets[i] <= (if i + 1 < |offsets| then offsets[i + 1] else |data|) <= |data|
  {
    hide IsFilterOf;
  }

  /** Behind the last offset comes the one of the offsets themselves. */
  lemma OffsetsOfRange(contents: Bytes, end: nat, offsets: seq<nat>, i: nat)
    requires |contents| == end + 4 * |offsets| + 5 && i < |offsets| && DecodeFixed32(contents[|contents| - 5..]) == end
    requires forall j {:trigger offsets[j]} | 0 <= j < |offsets| :: DecodeFixed32(contents[end + 4 * j..]) == offsets[j]
    ensures DecodeFixed32(contents[end + i * 4..]) == offsets[i]
    ensures DecodeFixed32(contents[end + i * 4 + 4..]) == if i + 1 < |offsets| then offsets[i + 1] else end
  {
    hide DecodeFixed32;
    assert end + i * 4 == end + 4 * i && end + i * 4 + 4 == end + 4 * (i + 1);
    if i + 1 < |offsets| {
      assert DecodeFixed32(contents[end + 4 * (i + 1)..]) == offsets[i + 1];
    } else {
      assert end + i * 4 + 4 == |contents| - 5;
    }
  }

  lemma RangeHasFilter(policy: BloomFilterPolicy, contents: Bytes, added: seq<(nat, Bytes)>, data: Bytes,
      offsets: seq<nat>, m: nat, i: nat)
    requires policy.Valid() && FilterBlockOf(policy, contents, added, data, offsets)
    requires m < |added| && i <= added[m].0 / FILTER_BASE
    ensures i < |offsets| && OffsetsOk(offsets, |data|)
    ensures IsFilterOf(policy, FilterAt(data, offsets, i), KeysOf(added, i))
  {
    hide IsFilterOf;
    hide FilterAt;
    hide KeysOf;
    hide FixedAll;
    hide EncodeFixed32;
    var start := offsets[i];
  }

  /** Where the filter of a range lies, and that it is that of its keys. */
  lemma {:induction false} FilterIsFound(policy: BloomFilterPolicy, contents: Bytes, added: seq<(nat, Bytes)>,
      m: nat, i: nat)
    returns (filter: Bytes)
    requires policy.Valid() && IsFilterBlock(policy, contents, added)
    requires m < |added| && i <= added[m].0 / FILTER_BASE
    ensures LiesAt(contents, i, filter) && IsFilterOf(policy, filter, KeysOf(added, i))
  {
    hide FilterBlockOf;
    hide LiesAt;
    hide IsFilterOf;
    hide FilterAt;
    var data, offsets :| FilterBlockOf(policy, contents, added, data, offsets);
    RangeHasFilter(policy, contents, added, data, offsets, m, i);
    FilterLies(policy, contents, added, data, offsets, i);
    filter := FilterAt(data, offsets, i);
  }

  /** What such a filter tells of a key, whatever number of bits for each key the reader is set to. */
  lemma FilterOfTells(policy: BloomFilterPolicy, filter: Bytes, keys: seq<Bytes>, key: Bytes)
    requires policy.Valid() && IsFilterOf(policy, filter, keys)
    ensures keys == [] ==> |filter| < 2
    ensures keys != [] ==> |filter| >= 2 && filter[|filter| - 1] == policy.k <= 30
    ensures keys != [] ==>
      (ProbesSet(filter[..|filter| - 1], policy.hash(key), policy.k) <==> policy.LooksAdded(keys, key))
  {
    hide ProbesSet;
    hide BloomFilterPolicy.LooksAdded;
    if keys != [] { policy.FilterTells(filter, keys, key); }
  }

  lemma AddedLooksAdded(policy: BloomFilterPolicy, keys: seq<Bytes>, key: Bytes)
    requires key in keys
    ensures policy.LooksAdded(keys, key)
  {
    hide ProbeBit;
    hide BloomFilterPolicy.BytesFor;
    var i :| 0 <= i < |keys| && keys[i] == key;
    var bits := 8 * policy.BytesFor(|keys|);
    forall j | 0 <= j < policy.k ensures policy.IsProbed(keys, bits, ProbeBit(policy.hash(key), j, bits)) {
      assert IsProbe(policy.hash(keys[i]), policy.k, bits, ProbeBit(policy.hash(key), j, bits));
    }
  }

  /** `offset >> lg`. */
  function FilterIndex(offset: nat, lg: nat): (r: nat) {
    if lg == 0 then offset else FilterIndex(offset / 2, lg - 1)
  }

  lemma {:induction false} TwoHalvings(offset: nat, lg: nat)
    requires lg >= 2
    ensures FilterIndex(offset, lg) == FilterIndex(offset / 4, lg - 2)
  {
    assert FilterIndex(offset, lg) == FilterIndex(offset / 2, lg - 1) == FilterIndex(offset / 2 / 2, lg - 2);
  }

  lemma {:induction false} IndexOfBase(offset: nat)
    ensures FilterIndex(offset, FILTER_BASE_LG) == offset / FILTER_BASE
  {
    TwoHalvings(offset, 11);
    TwoHalvings(offset / 4, 9);
    TwoHalvings(offset / 4 / 4, 7);
    TwoHalvings(offset / 4 / 4 / 4, 5);
    TwoHalvings(offset / 4 / 4 / 4 / 4, 3);
    var n := offset / 4 / 4 / 4 / 4 / 4;
    assert FilterIndex(n, 1) == FilterIndex(n / 2, 0) == n / 2;
    assert n == offset / 1024 && n / 2 == offset / 2048;
  }

  class FilterBlockReader {
    const policy: BloomFilterPolicy
    const contents: Bytes
    var num: nat
    var baseLg: nat
    var arrayOffset: nat

    ghost predicate Valid()
      reads this
    {
      policy.Valid() &&
      if Readable(contents) then
        var n := |contents|;
        baseLg == contents[n - 1] && arrayOffset == DecodeFixed32(contents[n - 5..]) && num == (n - 5 - arrayOffset) / 4
      else num == 0
    }

    constructor (policy: BloomFilterPolicy, contents: Bytes)
      requires policy.Valid()
      ensures Valid() && this.policy == policy && this.contents == contents
    {
      this.policy, this.contents := policy, contents;
      num, baseLg, arrayOffset := 0, 0, 0;
      var n := |contents|;
      new;
      if n < 5 {
        return;
      }
      baseLg := contents[n - 1];
      var lastWord := DecodeFixed32(contents[n - 5..]);
      if lastWord > n - 5 {
        return;
      }
      arrayOffset := lastWord;
      num := (n - 5 - lastWord) / 4;
    }

    /**
     Errors count as matches, and so do blocks behind the last that had keys.  Of a range with keys exactly those match
     whose probes are among theirs.  The filter may have been built with another number of bits per key.
     */
    method KeyMayMatch(blockOffset: nat, key: Bytes, ghost built: BloomFilterPolicy, ghost added: seq<(nat, Bytes)>)
      returns (r: bool)
      requires Valid() && built.Valid() && built.hash == policy.hash
      ensures IsFilterBlock(built, contents, added) && (blockOffset, key) in added ==> r
      ensures IsFilterBlock(built, contents, added) ==> forall a | a in added && a.0 >= blockOffset ::
        var keys := KeysOf(added, blockOffset / FILTER_BASE); r <==> keys != [] && built.LooksAdded(keys, key)
    {
      hide DecodeFixed32;
      hide IsFilterBlock;
      hide IsFilterOf;
      hide KeysOf;
      hide FilterIndex;
      hide BloomFilterPolicy.LooksAdded;
      hide ProbesSet;
      ghost var keys := KeysOf(added, blockOffset / FILTER_BASE);
      ghost var known := IsFilterBlock(built, contents, added) && exists a :: a in added && a.0 >= blockOffset;
      if known {
        var m :| 0 <= m < |added| && added[m].0 >= blockOffset;
        var filter := FilterIsFound(built, contents, added, m, blockOffset / FILTER_BASE);
      }
      if (blockOffset, key) in added {
        var m :| 0 <= m < |added| && added[m] == (blockOffset, key);
        AddedIsOfRange(added, m);
        AddedLooksAdded(built, keys, key);
      }
      IndexOfBase(blockOffset);
      var index := FilterIndex(blockOffset, baseLg);
      if index < num {
        var start := DecodeFixed32(contents[arrayOffset + index * 4..]);
        var limit := DecodeFixed32(contents[arrayOffset + index * 4 + 4..]);
        if start <= limit && limit <= arrayOffset {
          r := policy.KeyMayMatch(key, contents[start..limit]);
          if known { FilterOfTells(built, contents[start..limit], keys, key); }
          return;
        } else if start == limit {
          return false;
        }
      }
      r := true;
    }
  }
}
