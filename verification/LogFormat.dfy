/**
 The log format (log_format.h, log_writer.cc): records cut into fragments that never cross a block boundary, each
 under a header with a masked checksum, a length and a type.
 */
module LogFormat {
  import opened InternalKeys
  import opened Coding

  const BLOCK_SIZE := 32768
  const HEADER_SIZE := 7

  const ZERO_TYPE := 0
  const FULL_TYPE := 1
  const FIRST_TYPE := 2
  const MIDDLE_TYPE := 3
  const LAST_TYPE := 4

  /** crc32c::Value; nothing about it matters but that the reader and the writer compute the same function. */
  type Checksum = Bytes -> Word

  // ----- masked checksums (crc32c.h) -----

  const MASK_DELTA := 0xa282ead8

  /** Rotates right by 15 bits; the two halves share no bit, so their sum is their bitwise or. */
  function Mask(crc: Word): (r: Word) {
    (crc / 0x8000 + crc % 0x8000 * 0x2_0000 + MASK_DELTA) % 0x1_0000_0000
  }

  function Unmask(masked: Word): (r: Word) {
    var rot := (masked - MASK_DELTA) % 0x1_0000_0000;
    rot / 0x2_0000 + rot % 0x2_0000 * 0x8000
  }

  lemma {:induction false} UnmaskUndoesMask(crc: Word)
    ensures Unmask(Mask(crc)) == crc
  {
    var hi, lo := crc / 0x8000, crc % 0x8000;
    var rot := hi + lo * 0x2_0000;
    assert (Mask(crc) - MASK_DELTA) % 0x1_0000_0000 == rot;
    assert rot / 0x2_0000 == lo && rot % 0x2_0000 == hi;
  }

  // ----- fragments -----

  /** The bytes left in the block that `at` lies in; a block that is just full has been left behind. */
  function Leftover(at: nat): (r: nat)
    ensures 1 <= r <= BLOCK_SIZE
  {
    BLOCK_SIZE - at % BLOCK_SIZE
  }

  lemma {:induction false} LeftoverEndsBlock(at: nat)
    ensures (at + Leftover(at)) % BLOCK_SIZE == 0 && Leftover(at + Leftover(at)) == BLOCK_SIZE
  {
    assert at + Leftover(at) == (at / BLOCK_SIZE + 1) * BLOCK_SIZE;
  }

  /** A header never starts in the last six bytes of a block: they are filled with zeros. */
  function Trailer(at: nat): (r: Bytes)
    ensures |r| == if Leftover(at) < HEADER_SIZE then Leftover(at) else 0
  {
    if Leftover(at) < HEADER_SIZE then seq(Leftover(at), _ => 0) else []
  }

  function Physical(checksum: Checksum, kind: Byte, payload: Bytes): (r: Bytes)
    requires |payload| < 0x1_0000
    ensures |r| == HEADER_SIZE + |payload|
  {
    EncodeFixed32(Mask(checksum([kind] + payload))) + [|payload| % 256, |payload| / 256, kind] + payload
  }

  /** One fragment written at file offset `at`, with the trailer it may need in front. */
  function Fragment(checksum: Checksum, at: nat, kind: Byte, payload: Bytes): (r: Bytes)
    requires |payload| < 0x1_0000
  {
    Trailer(at) + Physical(checksum, kind, payload)
  }

  /** How many payload bytes fit behind a header written at `at`. */
  function Available(at: nat): (r: nat)
    ensures r <= BLOCK_SIZE - HEADER_SIZE
  {
    if Leftover(at) < HEADER_SIZE then BLOCK_SIZE - HEADER_SIZE else Leftover(at) - HEADER_SIZE
  }

  function FragmentLength(at: nat, data: Bytes): (r: nat)
    ensures r <= |data| && r <= Available(at)
  {
    if |data| < Available(at) then |data| else Available(at)
  }

  function FragmentType(begin: bool, end: bool): (r: Byte) {
    if begin && end then FULL_TYPE else if begin then FIRST_TYPE else if end then LAST_TYPE else MIDDLE_TYPE
  }

  /** The next fragment of what is left of a record. */
  function NextFragment(checksum: Checksum, at: nat, data: Bytes, begin: bool): (r: Bytes)
    ensures |r| >= HEADER_SIZE
  {
    var n := FragmentLength(at, data);
    Fragment(checksum, at, FragmentType(begin, n == |data|), data[..n])
  }

  /** After a fragment that does not finish the record the block is full, so the next one has room. */
  lemma {:induction false} FullBlockFollows(checksum: Checksum, at: nat, data: Bytes, begin: bool)
    requires FragmentLength(at, data) < |data|
    ensures Available(at + |NextFragment(checksum, at, data, begin)|) > 0
  {
    LeftoverEndsBlock(at);
    LeftoverEndsBlock(at + Leftover(at));
  }

  /** What AddRecord appends at offset `at` for the rest of a record; `begin` before its first fragment. */
  function EncodeRest(checksum: Checksum, at: nat, data: Bytes, begin: bool): (r: Bytes)
    ensures |r| >= HEADER_SIZE
    decreases |data|, if Available(at) == 0 then 1 else 0
  {
    var n := FragmentLength(at, data);
    var first := NextFragment(checksum, at, data, begin);
    if n == |data| then first
    else
      FullBlockFollows(checksum, at, data, begin);
      first + EncodeRest(checksum, at + |first|, data[n..], false)
  }

  function EncodeRecord(checksum: Checksum, at: nat, record: Bytes): (r: Bytes)
    ensures |r| >= HEADER_SIZE
  {
    EncodeRest(checksum, at, record, true)
  }

  /** The log that starts empty and gets the records one after the other. */
  function EncodeLog(checksum: Checksum, records: seq<Bytes>): (r: Bytes) {
    if records == [] then []
    else
      var n := |records| - 1;
      var front := EncodeLog(checksum, records[..n]);
      front + EncodeRecord(checksum, |front|, records[n])
  }

  // ----- the writer -----

  lemma {:induction false} TrailerFills(blockOffset: nat, at: nat)
    requires blockOffset <= BLOCK_SIZE && blockOffset % BLOCK_SIZE == at % BLOCK_SIZE
    ensures blockOffset < BLOCK_SIZE ==> Leftover(at) == BLOCK_SIZE - blockOffset
    ensures blockOffset == BLOCK_SIZE ==> Leftover(at) == BLOCK_SIZE
    ensures 0 < BLOCK_SIZE - blockOffset < HEADER_SIZE ==> Trailer(at) == [0, 0, 0, 0, 0, 0][..BLOCK_SIZE - blockOffset]
    ensures (at + |Trailer(at)|) % BLOCK_SIZE == if Leftover(at) < HEADER_SIZE then 0 else blockOffset % BLOCK_SIZE
  {
    if blockOffset < BLOCK_SIZE { assert blockOffset % BLOCK_SIZE == blockOffset; }
    LeftoverEndsBlock(at);
  }

  class Writer {
    const checksum: Checksum
    var dest: Bytes
    var blockOffset: nat

    ghost predicate Valid()
      reads this
    {
      blockOffset <= BLOCK_SIZE && blockOffset % BLOCK_SIZE == |dest| % BLOCK_SIZE
    }

    /** A writer for a new log, or one that goes on with an existing one. */
    constructor (checksum: Checksum, existing: Bytes)
      ensures Valid() && this.checksum == checksum && dest == existing
    {
      this.checksum, dest := checksum, existing;
      blockOffset := |existing| % BLOCK_SIZE;
    }

    /** A header and its payload, in a block that has room for both. */
    method EmitPhysicalRecord(kind: Byte, payload: Bytes)
      requires Valid() && blockOffset + HEADER_SIZE + |payload| <= BLOCK_SIZE
      modifies this
      ensures Valid() && dest == old(dest) + Physical(checksum, kind, payload)
    {
      hide Mask;
      hide EncodeFixed32;
      var header := EncodeFixed32(Mask(checksum([kind] + payload))) + [|payload| % 256, |payload| / 256, kind];
      assert dest + header + payload == dest + (header + payload);
      assert header + payload == Physical(checksum, kind, payload);
      dest := dest + header;
      dest := dest + payload;
      blockOffset := blockOffset + HEADER_SIZE + |payload|;
    }

    /** Fills the trailer when no header fits in the block any more. */
    method FillTrailer()
      requires Valid()
      modifies this
      ensures Valid() && dest == old(dest) + Trailer(|old(dest)|)
      ensures blockOffset + HEADER_SIZE <= BLOCK_SIZE
      ensures BLOCK_SIZE - blockOffset - HEADER_SIZE == Available(|old(dest)|)
    {
      var leftover := BLOCK_SIZE - blockOffset;
      TrailerFills(blockOffset, |dest|);
      if leftover < HEADER_SIZE {
        if leftover > 0 {
          dest := dest + [0, 0, 0, 0, 0, 0][..leftover];
        }
        blockOffset := 0;
      }
    }

    /** One turn of AddRecord's loop: the next fragment, with the trailer it may need; `n` bytes are used up. */
    method AddFragment(left: Bytes, begin: bool) returns (n: nat)
      requires Valid()
      modifies this
      ensures Valid() && n == FragmentLength(|old(dest)|, left)
      ensures dest == old(dest) + NextFragment(checksum, |old(dest)|, left, begin)
    {
      hide Physical;
      hide Leftover;
      FillTrailer();
      var avail := BLOCK_SIZE - blockOffset - HEADER_SIZE;
      n := if |left| < avail then |left| else avail;
      var end := |left| == n;
      var kind := if begin && end then FULL_TYPE else if begin then FIRST_TYPE else if end then LAST_TYPE
        else MIDDLE_TYPE;
      EmitPhysicalRecord(kind, left[..n]);
    }

    method AddRecord(record: Bytes)
      requires Valid()
      modifies this
      ensures Valid() && dest == old(dest) + EncodeRecord(checksum, |old(dest)|, record)
    {
      var left := record;
      var begin := true;
      ghost var goal := dest + EncodeRecord(checksum, |dest|, record);
      while true
        invariant Valid() && goal == dest + EncodeRest(checksum, |dest|, left, begin)
        decreases |left|, if Available(|dest|) == 0 then 1 else 0
      {
        RestIsFragmentAndRest(checksum, dest, left, begin);
        var n := AddFragment(left, begin);
        if n == |left| {
          break;
        }
        left := left[n..];
        begin := false;
      }
    }
  }

  lemma {:induction false} RestIsFragmentAndRest(checksum: Checksum, dest: Bytes, left: Bytes, begin: bool)
    ensures var n, dest' := FragmentLength(|dest|, left), dest + NextFragment(checksum, |dest|, left, begin);
      if n == |left| then dest + EncodeRest(checksum, |dest|, left, begin) == dest'
      else
        && dest + EncodeRest(checksum, |dest|, left, begin) == dest' + EncodeRest(checksum, |dest'|, left[n..], false)
        && Available(|dest'|) > 0
  {
    hide NextFragment;
    var n := FragmentLength(|dest|, left);
    if n < |left| {
      FullBlockFollows(checksum, |dest|, left, begin);
      var first := NextFragment(checksum, |dest|, left, begin);
      var rest := EncodeRest(checksum, |dest| + |first|, left[n..], false);
      assert dest + (first + rest) == (dest + first) + rest;
    }
  }
}
