/**
 The file format of a table (table/format.h, table/format.cc): block handles, the footer, and blocks stored under a
 trailer with a type and a masked checksum.
 */
module TableFormat {
  import opened InternalKeys
  import opened Coding
  import opened LogFormat

  // ----- block handles -----

  datatype Handle = Handle(offset: nat, size: nat)

  ghost predicate HandleFits(h: Handle) {
    h.offset < LONG_LIMIT && h.size < LONG_LIMIT
  }

  function EncodeHandle(h: Handle): (r: Bytes) {
    Varint(h.offset) + Varint(h.size)
  }

  function DecodeHandle(input: Bytes): (r: Parsed<Handle>) {
    var a := DecodeVarint64(input);
    if a.Malformed? then Malformed
    else
      var b := DecodeVarint64(a.rest);
      if b.Malformed? then Malformed else Parsed(Handle(a.value, b.value), b.rest)
  }

  lemma {:induction false} DecodeUndoesHandle(h: Handle, rest: Bytes)
    requires HandleFits(h)
    ensures DecodeHandle(EncodeHandle(h) + rest) == Parsed(h, rest)
  {
    hide Varint;
    hide DecodeVarint64;
    assert EncodeHandle(h) + rest == Varint(h.offset) + (Varint(h.size) + rest);
    DecodeUndoesVarint64(h.offset, Varint(h.size) + rest);
    DecodeUndoesVarint64(h.size, rest);
  }

  lemma {:induction false} VarintLength(v: nat, n: nat)
    requires n > 0 && v < Weight(n)
    ensures |Varint(v)| <= n
  {
    if v >= 128 {
      assert Weight(n) == Weight(n - 1) * 128 && Weight(0) == 1;
      VarintLength(v / 128, n - 1);
    }
  }

  const MAX_HANDLE_LENGTH := 20

  lemma {:induction false} HandleLength(h: Handle)
    requires HandleFits(h)
    ensures |EncodeHandle(h)| <= MAX_HANDLE_LENGTH
  {
    assert Weight(5) == 0x8_0000_0000;
    assert Weight(10) == 0x40_0000_0000_0000_0000;
    VarintLength(h.offset, 10);
    VarintLength(h.size, 10);
  }

  // ----- the footer -----

  const FOOTER_LENGTH := 48
  const MAGIC_LOW: Word := 0x8b80fb57
  const MAGIC_HIGH: Word := 0xdb477524

  function Magic(): (r: Bytes)
    ensures |r| == 8
  {
    EncodeFixed32(MAGIC_LOW) + EncodeFixed32(MAGIC_HIGH)
  }

  /** std::string::resize: cut off, or filled up with zeros. */
  function Resize(b: Bytes, n: nat): (r: Bytes)
    ensures |r| == n
  {
    if |b| >= n then b[..n] else b + seq(n - |b|, _ => 0)
  }

  function EncodeFooter(metaindex: Handle, index: Handle): (r: Bytes)
    ensures |r| == FOOTER_LENGTH
  {
    Resize(EncodeHandle(metaindex) + EncodeHandle(index), 2 * MAX_HANDLE_LENGTH) + Magic()
  }

  datatype Footer = BadFooter | Footer(metaindex: Handle, index: Handle)

  function DecodeFooter(input: Bytes): (r: Footer)
    requires |input| >= FOOTER_LENGTH
  {
    var magic := input[FOOTER_LENGTH - 8..];
    if DecodeFixed32(magic) != MAGIC_LOW || DecodeFixed32(magic[4..]) != MAGIC_HIGH then BadFooter
    else
      var a := DecodeHandle(input);
      if a.Malformed? then BadFooter
      else
        var b := DecodeHandle(a.rest);
        if b.Malformed? then BadFooter else Footer(a.value, b.value)
  }

  lemma {:induction false} DecodeUndoesFooter(metaindex: Handle, index: Handle)
    requires HandleFits(metaindex) && HandleFits(index)
    ensures DecodeFooter(EncodeFooter(metaindex, index)) == Footer(metaindex, index)
  {
    hide EncodeHandle;
    hide DecodeHandle;
    hide EncodeFixed32;
    hide DecodeFixed32;
    HandleLength(metaindex);
    HandleLength(index);
    var a, b, footer := EncodeHandle(metaindex), EncodeHandle(index), EncodeFooter(metaindex, index);
    var pad: Bytes := seq(2 * MAX_HANDLE_LENGTH - |a + b|, _ => 0);
    assert Resize(a + b, 2 * MAX_HANDLE_LENGTH) == a + b + pad;
    assert footer == a + (b + (pad + Magic()));
    DecodeUndoesHandle(metaindex, b + (pad + Magic()));
    DecodeUndoesHandle(index, pad + Magic());
    assert footer[FOOTER_LENGTH - 8..] == Magic() && Magic()[4..] == EncodeFixed32(MAGIC_HIGH) + [];
    DecodeUndoesEncode(MAGIC_LOW, EncodeFixed32(MAGIC_HIGH));
    DecodeUndoesEncode(MAGIC_HIGH, []);
  }

  // ----- blocks in a file -----

  const NO_COMPRESSION: Byte := 0
  const SNAPPY_COMPRESSION: Byte := 1
  const TRAILER_SIZE := 5

  /** What the reader and the writer share: the checksum, and a compressor that may be missing. */
  datatype Format = Format(checksum: Checksum, compress: Bytes -> Option<Bytes>, uncompress: Bytes -> Option<Bytes>) {
    ghost predicate Valid() {
      forall raw | compress(raw).Some? :: uncompress(compress(raw).value) == Some(raw)
    }
  }

  function BlockTrailer(format: Format, kind: Byte, contents: Bytes): (r: Bytes)
    ensures |r| == TRAILER_SIZE
  {
    [kind] + EncodeFixed32(Mask(format.checksum(contents + [kind])))
  }

  /** The contents of the block, or that it is truncated, damaged, of an unknown type or badly compressed. */
  function ReadBlock(format: Format, verify: bool, file: Bytes, h: Handle): (r: Option<Bytes>) {
    var n := h.size;
    if h.offset + n + TRAILER_SIZE > |file| then None
    else
      var data := file[h.offset..h.offset + n + TRAILER_SIZE];
      if verify && format.checksum(data[..n + 1]) != Unmask(DecodeFixed32(data[n + 1..])) then None
      else if data[n] == NO_COMPRESSION then Some(data[..n])
      else if data[n] == SNAPPY_COMPRESSION then format.uncompress(data[..n])
      else None
  }

  /** The block is there, whether checksums are verified or not. */
  ghost predicate HasBlock(format: Format, file: Bytes, h: Handle, contents: Bytes) {
    && h.offset + h.size + TRAILER_SIZE <= |file|
    && forall verify: bool :: ReadBlock(format, verify, file, h) == Some(contents)
  }

  /** A block that was appended is read back, compressed or not. */
  lemma {:induction false} AppendedIsRead(format: Format, before: Bytes, stored: Bytes, kind: Byte, contents: Bytes)
    requires kind == NO_COMPRESSION ==> stored == contents
    requires kind == SNAPPY_COMPRESSION ==> format.uncompress(stored) == Some(contents)
    requires kind == NO_COMPRESSION || kind == SNAPPY_COMPRESSION
    ensures HasBlock(format, before + stored + BlockTrailer(format, kind, stored), Handle(|before|, |stored|), contents)
  {
    hide EncodeFixed32;
    hide DecodeFixed32;
    hide Mask;
    hide Unmask;
    var n, crc := |stored|, format.checksum(stored + [kind]);
    var file := before + stored + BlockTrailer(format, kind, stored);
    var data := file[|before|..|before| + n + TRAILER_SIZE];
    assert data == stored + [kind] + EncodeFixed32(Mask(crc));
    assert data[..n + 1] == stored + [kind] && data[..n] == stored && data[n] == kind;
    assert data[n + 1..] == EncodeFixed32(Mask(crc)) + [];
    DecodeUndoesEncode(Mask(crc), []);
    UnmaskUndoesMask(crc);
  }

  /** Whatever is appended to the file, the block stays readable. */
  lemma {:induction false} BlockSurvives(format: Format, file: Bytes, longer: Bytes, h: Handle, contents: Bytes)
    requires file <= longer && HasBlock(format, file, h, contents)
    ensures HasBlock(format, longer, h, contents)
  {
    hide DecodeFixed32;
    hide Unmask;
    var end := h.offset + h.size + TRAILER_SIZE;
    assert longer[h.offset..end] == file[h.offset..end];
    forall verify: bool ensures ReadBlock(format, verify, longer, h) == ReadBlock(format, verify, file, h) {}
  }

  lemma {:induction false} MaskUndoesUnmask(masked: Word)
    ensures Mask(Unmask(masked)) == masked
  {
    var rot := (masked - MASK_DELTA) % WORD_LIMIT;
    var hi, lo := rot / 0x2_0000, rot % 0x2_0000;
    var crc := hi + lo * 0x8000;
    assert crc / 0x8000 == lo && crc % 0x8000 == hi;
    assert (rot + MASK_DELTA) % WORD_LIMIT == masked;
  }

  /** What is stored stands for the contents. */
  predicate StandsFor(format: Format, kind: Byte, stored: Bytes, contents: Bytes) {
    if kind == NO_COMPRESSION then stored == contents
    else kind == SNAPPY_COMPRESSION && format.uncompress(stored) == Some(contents)
  }

  lemma TrailerFits(format: Format, kind: Byte, stored: Bytes, masked: Bytes)
    requires |masked| == 4
    ensures BlockTrailer(format, kind, stored) == [kind] + masked
      <==> format.checksum(stored + [kind]) == Unmask(DecodeFixed32(masked))
  {
    hide EncodeFixed32;
    hide DecodeFixed32;
    hide Mask;
    hide Unmask;
    var crc := format.checksum(stored + [kind]);
    assert BlockTrailer(format, kind, stored)[1..] == EncodeFixed32(Mask(crc)) && ([kind] + masked)[1..] == masked;
    MaskUndoesUnmask(DecodeFixed32(masked));
    EncodeUndoesDecode(masked);
    DecodeUndoesEncode(Mask(crc), []);
    assert EncodeFixed32(Mask(crc)) + [] == EncodeFixed32(Mask(crc));
    UnmaskUndoesMask(crc);
  }

  /**
   Of any file, a block is read exactly if it lies in it, has one of the two types, stands for the contents, and, with
   checksums verified, has the trailer that a writer would put behind it.
   */
  lemma {:induction false} ReadBlockIff(format: Format, verify: bool, file: Bytes, h: Handle, contents: Bytes)
    ensures var end := h.offset + h.size;
      ReadBlock(format, verify, file, h) == Some(contents) <==>
        && end + TRAILER_SIZE <= |file| && StandsFor(format, file[end], file[h.offset..end], contents)
        && (verify ==> file[end..end + TRAILER_SIZE] == BlockTrailer(format, file[end], file[h.offset..end]))
  {
    hide EncodeFixed32;
    hide DecodeFixed32;
    hide Mask;
    hide Unmask;
    var n := h.size;
    var end := h.offset + n;
    if end + TRAILER_SIZE <= |file| {
      var data := file[h.offset..end + TRAILER_SIZE];
      var masked := file[end + 1..end + TRAILER_SIZE];
      assert data[..n + 1] == file[h.offset..end] + [file[end]] && data[..n] == file[h.offset..end];
      assert data[n + 1..] == masked && data[n] == file[end];
      assert file[end..end + TRAILER_SIZE] == [file[end]] + masked;
      TrailerFits(format, file[end], file[h.offset..end], masked);
    }
  }
}
