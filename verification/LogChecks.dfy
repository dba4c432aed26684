/**
 What the log reader hands on of any file, damaged in any way (log_reader.cc): only fragments whose checksums fit, in
 whole records, one fragment right behind the other; and every byte of data that it does not hand on it reports.
 */
module LogChecks {
  import opened InternalKeys
  import opened Coding
  import opened LogFormat
  import opened LogReaders
  import TableFormat

  /** Where the next header is looked for: behind the trailer of a block. */
  function HeaderAt(at: nat): (r: nat) {
    if Leftover(at) < HEADER_SIZE then at + Leftover(at) else at
  }

  /** What the header at `at` says about type and length. */
  function TypeAt(file: Bytes, at: nat): (r: Byte)
    requires at + HEADER_SIZE <= |file|
  {
    file[at + 6]
  }

  function LengthAt(file: Bytes, at: nat): (r: nat)
    requires at + HEADER_SIZE <= |file|
    ensures r < 0x1_0000
  {
    (file[at + 4] as int) + 256 * (file[at + 5] as int)
  }

  /** A header in the block that `at` lies in, and as many bytes behind it as it says. */
  predicate CompleteAt(file: Bytes, at: nat) {
    at + HEADER_SIZE <= |file| && at + HEADER_SIZE <= BlockEnd(file, at)
      && at + HEADER_SIZE + LengthAt(file, at) <= BlockEnd(file, at)
  }

  function PayloadAt(file: Bytes, at: nat): (r: Bytes)
    requires CompleteAt(file, at)
    ensures |r| == LengthAt(file, at)
  {
    file[at + HEADER_SIZE..at + HEADER_SIZE + LengthAt(file, at)]
  }

  /** The fragment is what a writer would have put there: its checksum is that of its type and its bytes. */
  ghost predicate Genuine(checksum: Checksum, file: Bytes, at: nat)
    requires CompleteAt(file, at)
  {
    HasAt(file, at, Physical(checksum, TypeAt(file, at), PayloadAt(file, at)))
  }

  /** A header of zeros, as in the unused part of a file that was allocated in advance. */
  predicate ZeroAt(file: Bytes, at: nat)
    requires CompleteAt(file, at)
  {
    TypeAt(file, at) == ZERO_TYPE && LengthAt(file, at) == 0
  }

  lemma {:induction false} FitsIffGenuine(checksum: Checksum, file: Bytes, at: nat)
    requires CompleteAt(file, at)
    ensures var n := HEADER_SIZE + LengthAt(file, at);
      Genuine(checksum, file, at) <==>
        checksum(file[at + 6..at + n]) == Unmask(DecodeFixed32(file[at..at + n]))
  {
    var n := HEADER_SIZE + LengthAt(file, at);
    var piece, kind, payload := file[at..at + n], TypeAt(file, at), PayloadAt(file, at);
    var crc := checksum([kind] + payload);
    var written := Physical(checksum, kind, payload);
    assert file[at + 6..at + n] == [kind] + payload;
    assert piece == piece[..4] + [file[at + 4], file[at + 5], kind] + payload;
    var stored := EncodeFixed32(Mask(crc));
    LengthBytes(LengthAt(file, at), file[at + 4], file[at + 5]);
    assert written == stored + [file[at + 4], file[at + 5], kind] + payload;
    assert piece == written <==> piece[..4] == stored by {
      if piece == written { assert piece[..4] == written[..4] == stored; }
    }
    assert DecodeFixed32(piece) == DecodeFixed32(piece[..4]);
    TableFormat.MaskUndoesUnmask(DecodeFixed32(piece[..4]));
    EncodeUndoesDecode(piece[..4]);
    UnmaskUndoesMask(crc);
    DecodeUndoesEncode(Mask(crc), []);
    assert stored + [] == stored;
  }

  lemma LengthBytes(length: nat, lo: Byte, hi: Byte)
    requires length == (lo as int) + 256 * (hi as int)
    ensures length % 256 == lo && length / 256 == hi
  {
  }

  /** What the reader makes of what is at `at`, if there is room for a header in the block. */
  lemma {:induction false} PieceIs(checksum: Checksum, file: Bytes, at: nat)
    requires at <= |file| && at + HEADER_SIZE <= BlockEnd(file, at)
    ensures var end := BlockEnd(file, at);
      PieceAt(checksum, file, at) ==
        if !CompleteAt(file, at) then
          if ShortBlock(file, at) then Piece(EOF_TYPE, [], end, [])
          else Piece(BAD_RECORD, [], end, [Report(end - at, BadRecordLength)])
        else if ZeroAt(file, at) then Piece(BAD_RECORD, [], end, [])
        else if !Genuine(checksum, file, at) then Piece(BAD_RECORD, [], end, [Report(end - at, ChecksumMismatch)])
        else Piece(TypeAt(file, at), PayloadAt(file, at), at + HEADER_SIZE + LengthAt(file, at), [])
  {
    var end := BlockEnd(file, at);
    var buffer := file[at..end];
    assert buffer[4] == file[at + 4] && buffer[5] == file[at + 5] && buffer[6] == file[at + 6];
    if CompleteAt(file, at) {
      var n := HEADER_SIZE + LengthAt(file, at);
      assert buffer[6..n] == file[at + 6..at + n] && buffer[HEADER_SIZE..n] == file[at + HEADER_SIZE..at + n];
      assert DecodeFixed32(buffer) == DecodeFixed32(file[at..at + n]);
      FitsIffGenuine(checksum, file, at);
    }
  }

  /** Without room for a header the next block is next, or the file is at its end. */
  lemma {:induction false} PieceBehindTrailer(checksum: Checksum, file: Bytes, at: nat)
    requires at <= |file| && BlockEnd(file, at) < at + HEADER_SIZE
    ensures PieceAt(checksum, file, at) ==
      if ShortBlock(file, at) then Piece(EOF_TYPE, [], |file|, []) else PieceAt(checksum, file, HeaderAt(at))
    ensures !ShortBlock(file, at) ==> at < HeaderAt(at) <= |file| && HeaderAt(HeaderAt(at)) == HeaderAt(at)
  {
    LeftoverEndsBlock(at);
  }

  // ----- fragments of a record -----

  /** A fragment in the file. */
  datatype Found = Found(at: nat, kind: Byte, payload: Bytes)

  function EndOf(f: Found): (r: nat) {
    f.at + HEADER_SIZE + |f.payload|
  }

  ghost predicate Intact(checksum: Checksum, file: Bytes, f: Found) {
    && CompleteAt(file, f.at) && TypeAt(file, f.at) == f.kind && PayloadAt(file, f.at) == f.payload
    && HasAt(file, f.at, Physical(checksum, f.kind, f.payload))
  }

  /** Fragment `i` is right behind the one before, or a trailer lies between them. */
  ghost predicate Follows(fs: seq<Found>, i: nat)
    requires 0 < i < |fs|
  {
    fs[i].at == HeaderAt(EndOf(fs[i - 1]))
  }

  /** Genuine fragments, each right behind the one before, with no more than a trailer between them. */
  ghost predicate InRow(checksum: Checksum, file: Bytes, fs: seq<Found>) {
    && (forall i | 0 <= i < |fs| :: Intact(checksum, file, fs[i]))
    && forall i | 0 < i < |fs| :: Follows(fs, i)
  }

  /** The first fragments of a record that is not at its end. */
  ghost predicate Unfinished(fs: seq<Found>) {
    fs != [] && fs[0].kind == FIRST_TYPE && forall i | 0 < i < |fs| :: fs[i].kind == MIDDLE_TYPE
  }

  /** All fragments of a record. */
  ghost predicate Finished(fs: seq<Found>) {
    var n := |fs| - 1;
    fs != [] && if n == 0 then fs[0].kind == FULL_TYPE else Unfinished(fs[..n]) && fs[n].kind == LAST_TYPE
  }

  function Payloads(fs: seq<Found>): (r: Bytes) {
    if fs == [] then [] else Payloads(fs[..|fs| - 1]) + fs[|fs| - 1].payload
  }

  ghost predicate IsGenuinePiece(checksum: Checksum, file: Bytes, at: nat, p: Piece) {
    && p.kind < 256 && p.reports == [] && HeaderAt(at) + HEADER_SIZE + |p.payload| == p.next
    && Intact(checksum, file, Found(HeaderAt(at), p.kind, p.payload))
  }

  /** A piece with a type of its own is a genuine fragment, and at most a trailer lies in front of it. */
  lemma {:induction false} PieceIsGenuine(checksum: Checksum, file: Bytes, at: nat)
    requires at <= |file|
    ensures var p := PieceAt(checksum, file, at);
      p.kind < EOF_TYPE ==> IsGenuinePiece(checksum, file, at, p)
    decreases |file| - at
  {
    hide PieceAt;
    hide Physical;
    if at + HEADER_SIZE <= BlockEnd(file, at) {
      PieceIs(checksum, file, at);
    } else {
      PieceBehindTrailer(checksum, file, at);
      if !ShortBlock(file, at) { PieceIsGenuine(checksum, file, HeaderAt(at)); }
    }
  }

  /** What has been put together so far lies in the file, up to `at`. */
  ghost predicate InHand(checksum: Checksum, file: Bytes, at: nat, scratch: Bytes, fragmented: bool, fs: seq<Found>) {
    fragmented ==> InRow(checksum, file, fs) && Unfinished(fs) && Payloads(fs) == scratch && EndOf(fs[|fs| - 1]) == at
  }

  ghost predicate IsRecordIn(checksum: Checksum, file: Bytes, record: Bytes, next: nat, fs: seq<Found>) {
    InRow(checksum, file, fs) && Finished(fs) && Payloads(fs) == record && EndOf(fs[|fs| - 1]) == next
  }

  lemma MoreFragments(checksum: Checksum, file: Bytes, fs: seq<Found>, f: Found)
    requires InRow(checksum, file, fs) && Intact(checksum, file, f)
    requires fs != [] ==> f.at == HeaderAt(EndOf(fs[|fs| - 1]))
    ensures InRow(checksum, file, fs + [f]) && Payloads(fs + [f]) == Payloads(fs) + f.payload
  {
    hide Intact;
    hide HeaderAt;
    hide EndOf;
    assert (fs + [f])[..|fs|] == fs;
    forall i | 0 < i < |fs + [f]| ensures Follows(fs + [f], i) {
      if i < |fs| { assert Follows(fs, i); }
    }
  }

  /** One piece: the record is finished, or what is in hand still lies in the file. */
  lemma PieceConsumed(checksum: Checksum, file: Bytes, at: nat, scratch: Bytes, fragmented: bool, fs: seq<Found>)
    returns (fs': seq<Found>)
    requires at <= |file| && InHand(checksum, file, at, scratch, fragmented, fs)
    ensures var p := PieceAt(checksum, file, at);
      match Consume(p.kind, p.payload, scratch, fragmented)
      case Done(record, _) => record.Some? ==> IsRecordIn(checksum, file, record.value, p.next, fs')
      case More(scratch', fragmented', _) => InHand(checksum, file, p.next, scratch', fragmented', fs')
  {
    hide PieceAt;
    hide Intact;
    hide InRow;
    var p := PieceAt(checksum, file, at);
    fs' := [];
    if p.kind < EOF_TYPE {
      PieceIsGenuine(checksum, file, at);
      var f := Found(HeaderAt(at), p.kind, p.payload);
      fs' := if p.kind == FULL_TYPE || p.kind == FIRST_TYPE || !fragmented then [f] else fs + [f];
      if p.kind == FULL_TYPE || p.kind == FIRST_TYPE {
        NoFragments(checksum, file);
        MoreFragments(checksum, file, [], f);
        assert [] + [f] == [f];
      } else if fragmented {
        MoreFragments(checksum, file, fs, f);
        assert (fs + [f])[..|fs|] == fs;
      }
    }
  }

  lemma NoFragments(checksum: Checksum, file: Bytes)
    ensures InRow(checksum, file, []) && Payloads([]) == []
  {
  }

  /** Every record returned, from any file, is the payloads of genuine fragments in a row. */
  lemma {:induction false} RecordIsGenuine(checksum: Checksum, file: Bytes, at: nat, scratch: Bytes, fragmented: bool,
      fs: seq<Found>)
    returns (fs': seq<Found>)
    requires at <= |file| && InHand(checksum, file, at, scratch, fragmented, fs)
    ensures var o := RecordAt(checksum, file, at, scratch, fragmented);
      o.record.Some? ==> IsRecordIn(checksum, file, o.record.value, o.next, fs')
    decreases |file| - at
  {
    hide PieceAt;
    hide IsRecordIn;
    hide InHand;
    var p := PieceAt(checksum, file, at);
    var t := Consume(p.kind, p.payload, scratch, fragmented);
    fs' := PieceConsumed(checksum, file, at, scratch, fragmented, fs);
    if t.More? { fs' := RecordIsGenuine(checksum, file, p.next, t.scratch, t.fragmented, fs'); }
  }

  /** A complete fragment that is not genuine is reported, and nothing of its block is returned. */
  lemma {:induction false} DamageIsReported(checksum: Checksum, file: Bytes, at: nat, scratch: Bytes, fragmented: bool)
    requires at <= |file| && CompleteAt(file, at) && !ZeroAt(file, at) && !Genuine(checksum, file, at)
    ensures var end, o := BlockEnd(file, at), RecordAt(checksum, file, at, scratch, fragmented);
      o == Reporting([Report(end - at, ChecksumMismatch)]
          + if fragmented then [Report(|scratch|, ErrorInMiddle)] else [],
        RecordAt(checksum, file, end, if fragmented then [] else scratch, false))
  {
    hide PieceAt;
    PieceIs(checksum, file, at);
  }

  /** A header that asks for more than its block has is reported too, but at the end of the file. */
  lemma {:induction false} BadLengthIsReported(checksum: Checksum, file: Bytes, at: nat, scratch: Bytes,
      fragmented: bool)
    requires at <= |file| && at + HEADER_SIZE <= BlockEnd(file, at) && !CompleteAt(file, at)
    ensures var end, o := BlockEnd(file, at), RecordAt(checksum, file, at, scratch, fragmented);
      o == if ShortBlock(file, at) then Outcome(None, end, [])
        else Reporting([Report(end - at, BadRecordLength)]
            + if fragmented then [Report(|scratch|, ErrorInMiddle)] else [],
          RecordAt(checksum, file, end, if fragmented then [] else scratch, false))
  {
    hide PieceAt;
    PieceIs(checksum, file, at);
  }

  // ----- every byte is accounted for -----

  function Reported(reports: seq<Report>): (r: nat) {
    if reports == [] then 0 else Reported(reports[..|reports| - 1]) + reports[|reports| - 1].bytes
  }

  lemma {:induction false} ReportedTogether(a: seq<Report>, b: seq<Report>)
    ensures Reported(a + b) == Reported(a) + Reported(b)
  {
    if b == [] {
      assert a + b == a;
    } else {
      ReportedTogether(a, b[..|b| - 1]);
      assert (a + b)[..|a + b| - 1] == a + b[..|b| - 1];
    }
  }

  lemma ReportedFew()
    ensures Reported([]) == 0 && forall r: Report :: Reported([r]) == r.bytes
  {
    forall r: Report ensures Reported([r]) == r.bytes {
      assert [r][..0] == [];
    }
  }

  /** Whether a genuine fragment is at `at`. */
  ghost predicate SoundAt(checksum: Checksum, file: Bytes, at: nat) {
    CompleteAt(file, at) && !ZeroAt(file, at) && Genuine(checksum, file, at)
  }

  /**
   How many bytes of the file are data at `at`: the payload of a genuine fragment, or else the rest of the block, of
   which nothing is known.  Zeros, a fragment cut at the end of the file, and the two types that the reader has for
   itself are not data.
   */
  ghost function DataAt(checksum: Checksum, file: Bytes, at: nat): (r: nat)
    requires at <= |file|
  {
    if SoundAt(checksum, file, at) then
      if TypeAt(file, at) == EOF_TYPE || TypeAt(file, at) == BAD_RECORD then 0 else LengthAt(file, at)
    else if ShortBlock(file, at) && !CompleteAt(file, at) then 0
    else if CompleteAt(file, at) && ZeroAt(file, at) then 0
    else BlockEnd(file, at) - at
  }

  /** The data from `at` to `next`, fragment by fragment and block by block. */
  ghost function DataIn(checksum: Checksum, file: Bytes, at: nat, next: nat): (r: nat)
    requires at <= |file|
    decreases |file| - at
  {
    if next <= at || at == |file| then 0
    else if BlockEnd(file, at) < at + HEADER_SIZE then DataIn(checksum, file, BlockEnd(file, at), next)
    else
      var behind := if SoundAt(checksum, file, at) then at + HEADER_SIZE + LengthAt(file, at) else BlockEnd(file, at);
      DataAt(checksum, file, at) + DataIn(checksum, file, behind, next)
  }

  lemma {:induction false} PieceCounts(checksum: Checksum, file: Bytes, at: nat, next: nat)
    requires at <= |file|
    ensures var p := PieceAt(checksum, file, at);
      p.kind != EOF_TYPE && p.next <= next ==>
        DataIn(checksum, file, at, next) == DataIn(checksum, file, p.next, next) + Reported(p.reports)
          + if p.kind == BAD_RECORD then 0 else |p.payload|
    decreases |file| - at
  {
    hide PieceAt;
    hide Genuine;
    if at + HEADER_SIZE <= BlockEnd(file, at) {
      PieceIs(checksum, file, at);
    } else {
      PieceBehindTrailer(checksum, file, at);
      LeftoverEndsBlock(at);
      if !ShortBlock(file, at) { PieceCounts(checksum, file, HeaderAt(at), next); }
    }
  }

  function InHandBytes(scratch: Bytes, fragmented: bool): (r: nat) {
    if fragmented then |scratch| else 0
  }

  /**
   Up to a record that is returned every byte of data is in the record or in a report.  At the end of the file it may
   also be in hand: the start of a record that was never finished.
   */
  lemma {:induction false} BytesAreAccountedFor(checksum: Checksum, file: Bytes, at: nat, scratch: Bytes,
      fragmented: bool)
    requires at <= |file|
    ensures var o := RecordAt(checksum, file, at, scratch, fragmented);
      var data := InHandBytes(scratch, fragmented) + DataIn(checksum, file, at, o.next);
      if o.record.Some? then |o.record.value| + Reported(o.reports) == data else Reported(o.reports) <= data
    decreases |file| - at
  {
    hide PieceAt;
    hide DataIn;
    hide Reported;
    var p := PieceAt(checksum, file, at);
    var t := Consume(p.kind, p.payload, scratch, fragmented);
    var o := RecordAt(checksum, file, at, scratch, fragmented);
    ReportedFew();
    ReportedTogether(p.reports, t.reports);
    PieceCounts(checksum, file, at, o.next);
    if t.More? {
      BytesAreAccountedFor(checksum, file, p.next, t.scratch, t.fragmented);
      ReportedTogether(p.reports + t.reports, RecordAt(checksum, file, p.next, t.scratch, t.fragmented).reports);
    } else {
      NothingIn(checksum, file, p.next);
      EndIsQuiet(checksum, file, at);
    }
  }

  lemma NothingIn(checksum: Checksum, file: Bytes, at: nat)
    requires at <= |file|
    ensures DataIn(checksum, file, at, at) == 0
  {
  }

  lemma {:induction false} EndIsQuiet(checksum: Checksum, file: Bytes, at: nat)
    requires at <= |file|
    ensures var p := PieceAt(checksum, file, at); p.kind == EOF_TYPE ==> p.reports == []
    decreases |file| - at
  {
    hide PieceAt;
    hide Genuine;
    if at + HEADER_SIZE <= BlockEnd(file, at) {
      PieceIs(checksum, file, at);
    } else {
      PieceBehindTrailer(checksum, file, at);
      if !ShortBlock(file, at) { EndIsQuiet(checksum, file, HeaderAt(at)); }
    }
  }
}
