/**
 The log reader (log_reader.cc), and what it reads from a log that a crash has cut anywhere: exactly the records that
 lie wholly in what is left, and no report of corruption.
 */
module LogReaders {
  import opened InternalKeys
  import opened Coding
  import opened LogFormat

  const EOF_TYPE := 5
  const BAD_RECORD := 6

  datatype Reason =
    | BadRecordLength | ChecksumMismatch | PartialWithoutEnd1 | PartialWithoutEnd2
    | MissingStart1 | MissingStart2 | ErrorInMiddle | UnknownType

  /** Something dropped: how many bytes, and why. */
  datatype Report = Report(bytes: nat, reason: Reason)

  function Min(a: nat, b: nat): (r: nat) {
    if a < b then a else b
  }

  // ----- what one call reads, as a function of the file and the offset -----

  /** A physical record or an end marker, the offset behind it, and what was reported. */
  datatype Piece = Piece(kind: nat, payload: Bytes, next: nat, reports: seq<Report>)

  /** The end of the block that `at` lies in, or of the file. */
  function BlockEnd(file: Bytes, at: nat): (r: nat)
    requires at <= |file|
    ensures at <= r <= |file| && (at < |file| ==> at < r)
  {
    Min(at + Leftover(at), |file|)
  }

  /** The last block of a file is short: the read that fetched it hit the end of the file. */
  predicate ShortBlock(file: Bytes, at: nat)
    requires at <= |file|
  {
    |file| < at + Leftover(at)
  }

  /** `buffer` is the rest of a block, with room for a header. */
  function ParseBuffer(checksum: Checksum, buffer: Bytes, at: nat, eof: bool): (r: Piece)
    requires |buffer| >= HEADER_SIZE
    ensures at < r.next <= at + |buffer|
  {
    var length := (buffer[4] as int) + 256 * (buffer[5] as int);
    var kind: nat := buffer[6];
    var end := at + |buffer|;
    if HEADER_SIZE + length > |buffer| then
      if eof then Piece(EOF_TYPE, [], end, []) else Piece(BAD_RECORD, [], end, [Report(|buffer|, BadRecordLength)])
    else if kind == ZERO_TYPE && length == 0 then
      Piece(BAD_RECORD, [], end, [])
    else if checksum(buffer[6..HEADER_SIZE + length]) != Unmask(DecodeFixed32(buffer)) then
      Piece(BAD_RECORD, [], end, [Report(|buffer|, ChecksumMismatch)])
    else
      Piece(kind, buffer[HEADER_SIZE..HEADER_SIZE + length], at + HEADER_SIZE + length, [])
  }

  function PieceAt(checksum: Checksum, file: Bytes, at: nat): (r: Piece)
    requires at <= |file|
    ensures at <= r.next <= |file|
    ensures r.next > at || r.kind == EOF_TYPE
    decreases |file| - at
  {
    var end := BlockEnd(file, at);
    if end - at < HEADER_SIZE then
      if ShortBlock(file, at) then Piece(EOF_TYPE, [], end, []) else PieceAt(checksum, file, end)
    else ParseBuffer(checksum, file[at..end], at, ShortBlock(file, at))
  }

  /** A logical record or None, the offset behind it, and what was reported. */
  datatype Outcome = Outcome(record: Option<Bytes>, next: nat, reports: seq<Report>)

  function Reporting(reports: seq<Report>, o: Outcome): (r: Outcome) {
    o.(reports := reports + o.reports)
  }

  function Partial(fragmented: bool, scratch: Bytes, reason: Reason): (r: seq<Report>) {
    if fragmented && scratch != [] then [Report(|scratch|, reason)] else []
  }

  /** What a physical record does to a record under assembly: finish the call, or go on with other fragments in hand. */
  datatype Turn =
    | Done(record: Option<Bytes>, reports: seq<Report>)
    | More(scratch: Bytes, fragmented: bool, reports: seq<Report>)

  function Consume(kind: nat, payload: Bytes, scratch: Bytes, fragmented: bool): (r: Turn) {
    if kind == EOF_TYPE then Done(None, [])
    else if kind == FULL_TYPE then Done(Some(payload), Partial(fragmented, scratch, PartialWithoutEnd1))
    else if kind == FIRST_TYPE then More(payload, true, Partial(fragmented, scratch, PartialWithoutEnd2))
    else if kind == MIDDLE_TYPE then
      if fragmented then More(scratch + payload, true, [])
      else More(scratch, false, [Report(|payload|, MissingStart1)])
    else if kind == LAST_TYPE then
      if fragmented then Done(Some(scratch + payload), [])
      else More(scratch, false, [Report(|payload|, MissingStart2)])
    else if kind == BAD_RECORD then
      if fragmented then More([], false, [Report(|scratch|, ErrorInMiddle)]) else More(scratch, false, [])
    else More([], false, [Report(|payload| + if fragmented then |scratch| else 0, UnknownType)])
  }

  /** `scratch` holds the fragments of an unfinished record, if `fragmented`. */
  function RecordAt(checksum: Checksum, file: Bytes, at: nat, scratch: Bytes, fragmented: bool): (r: Outcome)
    requires at <= |file|
    ensures at <= r.next <= |file|
    ensures r.record.Some? ==> r.next > at
    decreases |file| - at
  {
    var p := PieceAt(checksum, file, at);
    var t := Consume(p.kind, p.payload, scratch, fragmented);
    if t.Done? then Outcome(t.record, p.next, p.reports + t.reports)
    else Reporting(p.reports + t.reports, RecordAt(checksum, file, p.next, t.scratch, t.fragmented))
  }

  // ----- the reader -----

  class Reader {
    const checksum: Checksum
    const file: Bytes
    /** How much of the file has been read. */
    var filePosition: nat
    var buffer: Bytes
    var eof: bool
    var reports: seq<Report>

    /** The offset of the first byte that has not been consumed. */
    ghost function Offset(): (r: nat)
      requires |buffer| <= filePosition
      reads this
    {
      filePosition - |buffer|
    }

    ghost predicate Valid()
      reads this
    {
      && |buffer| <= filePosition <= |file| && buffer == file[Offset()..filePosition]
      && (eof ==> filePosition == |file| && Offset() >= |file| / BLOCK_SIZE * BLOCK_SIZE)
      && (!eof ==> filePosition % BLOCK_SIZE == 0 && |buffer| <= BLOCK_SIZE)
    }

    constructor (checksum: Checksum, file: Bytes)
      ensures Valid() && this.checksum == checksum && this.file == file
      ensures Offset() == 0 && reports == []
    {
      this.checksum, this.file := checksum, file;
      filePosition, buffer, eof, reports := 0, [], false, [];
    }

    method ReportCorruption(bytes: nat, reason: Reason)
      modifies this
      ensures reports == old(reports) + [Report(bytes, reason)]
      ensures filePosition == old(filePosition) && buffer == old(buffer) && eof == old(eof)
    {
      reports := reports + [Report(bytes, reason)];
    }

    /** Fetches the next block; bytes left in the buffer are a trailer. */
    method ReadBlock()
      requires Valid() && !eof && |buffer| < HEADER_SIZE
      modifies this
      ensures Valid() && reports == old(reports)
      ensures eof || filePosition > old(filePosition)
      ensures PieceAt(checksum, file, Offset()) == PieceAt(checksum, file, old(Offset()))
    {
      BlockOf(file, Offset(), filePosition);
      var end := Min(filePosition + BLOCK_SIZE, |file|);
      buffer := file[filePosition..end];
      if end - filePosition < BLOCK_SIZE {
        eof := true;
        LastBlock(filePosition, end);
      }
      filePosition := end;
    }

    method ReadPhysicalRecord() returns (kind: nat, fragment: Bytes)
      requires Valid()
      modifies this
      ensures Valid()
      ensures var p := PieceAt(checksum, file, old(Offset()));
        kind == p.kind && fragment == p.payload && Offset() == p.next && reports == old(reports) + p.reports
    {
      while |buffer| < HEADER_SIZE
        invariant Valid() && reports == old(reports)
        invariant PieceAt(checksum, file, Offset()) == PieceAt(checksum, file, old(Offset()))
        decreases !eof, |file| - filePosition
      {
        if !eof {
          ReadBlock();
        } else {
          EndOfFile(checksum, file, Offset());
          buffer := [];
          return EOF_TYPE, [];
        }
      }
      kind, fragment := TakeFromBuffer();
    }

    method TakeFromBuffer() returns (kind: nat, fragment: Bytes)
      requires Valid() && |buffer| >= HEADER_SIZE
      modifies this
      ensures Valid()
      ensures var p := PieceAt(checksum, file, old(Offset()));
        kind == p.kind && fragment == p.payload && Offset() == p.next && reports == old(reports) + p.reports
    {
      BufferIsBlockRest(file, Offset(), filePosition, eof);
      var header := buffer;
      var length := (header[4] as int) + 256 * (header[5] as int);
      kind := header[6];
      if HEADER_SIZE + length > |buffer| {
        buffer := [];
        if !eof {
          ReportCorruption(|header|, BadRecordLength);
          return BAD_RECORD, [];
        }
        return EOF_TYPE, [];
      }
      if kind == ZERO_TYPE && length == 0 {
        buffer := [];
        return BAD_RECORD, [];
      }
      if checksum(header[6..HEADER_SIZE + length]) != Unmask(DecodeFixed32(header)) {
        buffer := [];
        ReportCorruption(|header|, ChecksumMismatch);
        return BAD_RECORD, [];
      }
      buffer := buffer[HEADER_SIZE + length..];
      fragment := header[HEADER_SIZE..HEADER_SIZE + length];
    }

    method ReadRecord() returns (record: Option<Bytes>)
      requires Valid()
      modifies this
      ensures Valid()
      ensures var o := RecordAt(checksum, file, old(Offset()), [], false);
        record == o.record && Offset() == o.next && reports == old(reports) + o.reports
    {
      var scratch := [];
      var fragmented := false;
      ghost var goal := Reporting(reports, RecordAt(checksum, file, Offset(), [], false));
      while true
        invariant Valid()
        invariant goal == Reporting(reports, RecordAt(checksum, file, Offset(), scratch, fragmented))
        decreases |file| - Offset()
      {
        ghost var was, at, old_scratch, old_fragmented := reports, Offset(), scratch, fragmented;
        var kind, fragment := ReadPhysicalRecord();
        var done;
        done, record, scratch, fragmented := ConsumeFragment(kind, fragment, scratch, fragmented);
        RecordUnfolds(checksum, file, at, old_scratch, old_fragmented, was);
        if done {
          return;
        }
      }
    }

    /** The switch of ReadRecord. */
    method ConsumeFragment(kind: nat, fragment: Bytes, scratch: Bytes, fragmented: bool)
      returns (done: bool, record: Option<Bytes>, scratch': Bytes, fragmented': bool)
      modifies this
      ensures filePosition == old(filePosition) && buffer == old(buffer) && eof == old(eof)
      ensures var t := Consume(kind, fragment, scratch, fragmented);
        && done == t.Done? && reports == old(reports) + t.reports
        && (if done then record == t.record else scratch' == t.scratch && fragmented' == t.fragmented)
    {
      done, record, scratch', fragmented' := false, None, scratch, fragmented;
      if kind == FULL_TYPE {
        if fragmented && scratch != [] {
          ReportCorruption(|scratch|, PartialWithoutEnd1);
        }
        done, record := true, Some(fragment);
      } else if kind == FIRST_TYPE {
        if fragmented && scratch != [] {
          ReportCorruption(|scratch|, PartialWithoutEnd2);
        }
        scratch', fragmented' := fragment, true;
      } else if kind == MIDDLE_TYPE {
        if !fragmented {
          ReportCorruption(|fragment|, MissingStart1);
        } else {
          scratch' := scratch + fragment;
        }
      } else if kind == LAST_TYPE {
        if !fragmented {
          ReportCorruption(|fragment|, MissingStart2);
        } else {
          done, record := true, Some(scratch + fragment);
        }
      } else if kind == EOF_TYPE {
        done := true;
      } else if kind == BAD_RECORD {
        if fragmented {
          ReportCorruption(|scratch|, ErrorInMiddle);
          scratch', fragmented' := [], false;
        }
      } else {
        ReportCorruption(|fragment| + if fragmented then |scratch| else 0, UnknownType);
        scratch', fragmented' := [], false;
      }
    }
  }

  lemma {:induction false} RecordUnfolds(checksum: Checksum, file: Bytes, at: nat, scratch: Bytes, fragmented: bool,
      reports: seq<Report>)
    requires at <= |file|
    ensures var p := PieceAt(checksum, file, at);
      var t := Consume(p.kind, p.payload, scratch, fragmented);
      Reporting(reports, RecordAt(checksum, file, at, scratch, fragmented)) ==
      if t.Done? then Outcome(t.record, p.next, reports + p.reports + t.reports)
      else Reporting(reports + p.reports + t.reports, RecordAt(checksum, file, p.next, t.scratch, t.fragmented))
  {
    var p := PieceAt(checksum, file, at);
    var t := Consume(p.kind, p.payload, scratch, fragmented);
    assert reports + (p.reports + t.reports) == reports + p.reports + t.reports;
    if t.More? {
      var o := RecordAt(checksum, file, p.next, t.scratch, t.fragmented);
      assert reports + ((p.reports + t.reports) + o.reports) == (reports + p.reports + t.reports) + o.reports;
    }
  }

  // ----- where blocks lie -----

  lemma {:induction false} BlockOf(file: Bytes, at: nat, position: nat)
    requires at <= position <= |file| && position % BLOCK_SIZE == 0 && position - at < BLOCK_SIZE
    ensures at < position ==> BlockEnd(file, at) == position && !ShortBlock(file, at)
  {
    if at < position {
      var q := position / BLOCK_SIZE;
      assert position == q * BLOCK_SIZE;
      assert at / BLOCK_SIZE == q - 1;
    }
  }

  lemma {:induction false} LastBlock(start: nat, end: nat)
    requires start % BLOCK_SIZE == 0 && start <= end < start + BLOCK_SIZE
    ensures end / BLOCK_SIZE * BLOCK_SIZE == start
  {
    var q := start / BLOCK_SIZE;
    assert start == q * BLOCK_SIZE;
    assert end / BLOCK_SIZE == q;
  }

  lemma {:induction false} BufferIsBlockRest(file: Bytes, at: nat, position: nat, eof: bool)
    requires at < position <= |file|
    requires eof ==> position == |file| && at >= |file| / BLOCK_SIZE * BLOCK_SIZE
    requires !eof ==> position % BLOCK_SIZE == 0 && position - at <= BLOCK_SIZE
    ensures BlockEnd(file, at) == position && (ShortBlock(file, at) <==> eof)
  {
    var q := if eof then |file| / BLOCK_SIZE else position / BLOCK_SIZE - 1;
    assert q * BLOCK_SIZE <= at < (q + 1) * BLOCK_SIZE;
    assert at / BLOCK_SIZE == q;
  }

  lemma {:induction false} EndOfFile(checksum: Checksum, file: Bytes, at: nat)
    requires |file| / BLOCK_SIZE * BLOCK_SIZE <= at <= |file| && |file| - at < HEADER_SIZE
    ensures PieceAt(checksum, file, at) == Piece(EOF_TYPE, [], |file|, [])
  {
    assert at / BLOCK_SIZE == |file| / BLOCK_SIZE;
  }

  // ----- reading what was written -----

  /** The file goes on at `at` with `bytes`, all of them. */
  ghost predicate HasAt(file: Bytes, at: nat, bytes: Bytes) {
    at + |bytes| <= |file| && file[at..at + |bytes|] == bytes
  }

  /** The file ends inside `bytes`, which would have gone on at `at`. */
  ghost predicate TornAt(file: Bytes, at: nat, bytes: Bytes) {
    at <= |file| < at + |bytes| && file[at..] == bytes[..|file| - at]
  }

  lemma {:induction false} HasParts(file: Bytes, at: nat, a: Bytes, b: Bytes)
    ensures HasAt(file, at, a + b) ==> HasAt(file, at, a) && HasAt(file, at + |a|, b)
    ensures TornAt(file, at, a + b) ==> TornAt(file, at, a) || (HasAt(file, at, a) && TornAt(file, at + |a|, b))
  {
    if HasAt(file, at, a + b) {
      assert file[at..at + |a|] == (a + b)[..|a|] == a;
      assert file[at + |a|..at + |a| + |b|] == (a + b)[|a|..] == b;
    }
    if TornAt(file, at, a + b) && |file| - at < |a| {
      assert (a + b)[..|file| - at] == a[..|file| - at];
    } else if TornAt(file, at, a + b) {
      assert file[at..at + |a|] == (a + b)[..|file| - at][..|a|] == a;
      assert file[at + |a|..] == (a + b)[..|file| - at][|a|..] == b[..|file| - at - |a|];
    }
  }

  lemma {:induction false} ParseIntact(checksum: Checksum, buffer: Bytes, at: nat, eof: bool, kind: Byte,
      payload: Bytes)
    requires |payload| < 0x1_0000 && kind != ZERO_TYPE && HasAt(buffer, 0, Physical(checksum, kind, payload))
    ensures ParseBuffer(checksum, buffer, at, eof) == Piece(kind, payload, at + HEADER_SIZE + |payload|, [])
  {
    var crc := checksum([kind] + payload);
    var written := Physical(checksum, kind, payload);
    var n := |written|;
    assert buffer[0..n] == written;
    assert written[6..] == [kind] + payload && written[HEADER_SIZE..] == payload;
    assert buffer[6..n] == buffer[0..n][6..] && buffer[HEADER_SIZE..n] == buffer[0..n][HEADER_SIZE..];
    assert buffer[4] == written[4] && buffer[5] == written[5] && buffer[6] == written[6];
    var stored := EncodeFixed32(Mask(crc));
    assert buffer[0] == written[0] == stored[0] && buffer[1] == written[1] == stored[1];
    assert buffer[2] == written[2] == stored[2] && buffer[3] == written[3] == stored[3];
    DecodeUndoesEncode(Mask(crc), []);
    assert stored + [] == stored;
    assert DecodeFixed32(buffer) == DecodeFixed32(stored);
    UnmaskUndoesMask(crc);
  }

  lemma {:induction false} ParseTorn(checksum: Checksum, buffer: Bytes, at: nat, kind: Byte, payload: Bytes)
    requires |payload| < 0x1_0000 && |buffer| >= HEADER_SIZE && TornAt(buffer, 0, Physical(checksum, kind, payload))
    ensures ParseBuffer(checksum, buffer, at, true) == Piece(EOF_TYPE, [], at + |buffer|, [])
  {
    var written := Physical(checksum, kind, payload);
    assert buffer == buffer[0..] == written[..|buffer|];
    assert buffer[4] == written[4] && buffer[5] == written[5];
  }

  /** A whole fragment is read back, wherever it lies; one cut short reads as the end of the file. */
  lemma {:induction false} FragmentIsRead(checksum: Checksum, file: Bytes, at: nat, kind: Byte, payload: Bytes)
    requires kind != ZERO_TYPE && HEADER_SIZE + |payload| <= Leftover(at)
    ensures HasAt(file, at, Physical(checksum, kind, payload))
      ==> PieceAt(checksum, file, at) == Piece(kind, payload, at + HEADER_SIZE + |payload|, [])
    ensures TornAt(file, at, Physical(checksum, kind, payload)) ==>
      PieceAt(checksum, file, at) == Piece(EOF_TYPE, [], |file|, [])
  {
    var written := Physical(checksum, kind, payload);
    if at <= |file| {
      var end := BlockEnd(file, at);
      var buffer := file[at..end];
      if HasAt(file, at, written) {
        assert buffer[0..|written|] == file[at..at + |written|];
        ParseIntact(checksum, buffer, at, ShortBlock(file, at), kind, payload);
      }
      if TornAt(file, at, written) && |buffer| >= HEADER_SIZE {
        assert buffer[0..] == file[at..];
        ParseTorn(checksum, buffer, at, kind, payload);
      }
    }
  }

  lemma {:induction false} TrailerIsSkipped(checksum: Checksum, file: Bytes, at: nat)
    requires at <= |file|
    ensures HasAt(file, at, Trailer(at)) ==> PieceAt(checksum, file, at) == PieceAt(checksum, file, at + |Trailer(at)|)
    ensures HasAt(file, at, Trailer(at)) && Trailer(at) != [] ==> Leftover(at + |Trailer(at)|) == BLOCK_SIZE
    ensures TornAt(file, at, Trailer(at)) ==> PieceAt(checksum, file, at) == Piece(EOF_TYPE, [], |file|, [])
  {
    LeftoverEndsBlock(at);
  }

  lemma {:induction false} PieceIsRead(checksum: Checksum, file: Bytes, at: nat, kind: Byte, payload: Bytes)
    requires kind != ZERO_TYPE && |payload| <= Available(at) && at <= |file|
    ensures HasAt(file, at, Fragment(checksum, at, kind, payload))
      ==> PieceAt(checksum, file, at) == Piece(kind, payload, at + |Fragment(checksum, at, kind, payload)|, [])
    ensures TornAt(file, at, Fragment(checksum, at, kind, payload)) ==>
      PieceAt(checksum, file, at) == Piece(EOF_TYPE, [], |file|, [])
  {
    hide PieceAt;
    hide Physical;
    hide HasAt;
    hide TornAt;
    hide Leftover;
    var written := Physical(checksum, kind, payload);
    HasParts(file, at, Trailer(at), written);
    TrailerIsSkipped(checksum, file, at);
    if HasAt(file, at, Trailer(at)) {
      FragmentIsRead(checksum, file, at + |Trailer(at)|, kind, payload);
    }
  }

  /** A first or middle fragment is kept in hand. */
  lemma {:induction false} FragmentIsKept(checksum: Checksum, file: Bytes, at: nat, scratch: Bytes, begin: bool,
      payload: Bytes, next: nat)
    requires at <= |file| && (begin ==> scratch == [])
    requires PieceAt(checksum, file, at) == Piece(FragmentType(begin, false), payload, next, [])
    ensures RecordAt(checksum, file, at, scratch, !begin) == RecordAt(checksum, file, next, scratch + payload, true)
  {
    assert [] + payload == payload;
    var o := RecordAt(checksum, file, next, scratch + payload, true);
    assert [] + [] + o.reports == o.reports;
  }

  lemma {:induction false} FragmentEnds(checksum: Checksum, file: Bytes, at: nat, scratch: Bytes, begin: bool,
      payload: Bytes, next: nat)
    requires at <= |file| && (begin ==> scratch == [])
    requires PieceAt(checksum, file, at) == Piece(FragmentType(begin, true), payload, next, [])
    ensures RecordAt(checksum, file, at, scratch, !begin) == Outcome(Some(scratch + payload), next, [])
  {
    assert [] + payload == payload;
  }

  lemma {:induction false} RestParts(checksum: Checksum, file: Bytes, at: nat, data: Bytes, begin: bool)
    requires HasAt(file, at, EncodeRest(checksum, at, data, begin))
    ensures var n, first := FragmentLength(at, data), NextFragment(checksum, at, data, begin);
      && HasAt(file, at, first)
      && (n < |data| ==>
        Available(at + |first|) > 0 && HasAt(file, at + |first|, EncodeRest(checksum, at + |first|, data[n..], false)))
  {
    var n, first := FragmentLength(at, data), NextFragment(checksum, at, data, begin);
    if n < |data| {
      FullBlockFollows(checksum, at, data, begin);
      HasParts(file, at, first, EncodeRest(checksum, at + |first|, data[n..], false));
    }
  }

  lemma {:induction false} LastIsRead(checksum: Checksum, file: Bytes, at: nat, data: Bytes, scratch: Bytes,
      begin: bool)
    requires at <= |file| && (begin ==> scratch == []) && FragmentLength(at, data) == |data|
    requires HasAt(file, at, NextFragment(checksum, at, data, begin))
    ensures RecordAt(checksum, file, at, scratch, !begin) ==
      Outcome(Some(scratch + data), at + |NextFragment(checksum, at, data, begin)|, [])
  {
    hide RecordAt;
    hide PieceAt;
    hide Physical;
    assert data[..|data|] == data;
    PieceIsRead(checksum, file, at, FragmentType(begin, true), data);
    FragmentEnds(checksum, file, at, scratch, begin, data, at + |NextFragment(checksum, at, data, begin)|);
  }

  lemma {:induction false} MoreIsRead(checksum: Checksum, file: Bytes, at: nat, data: Bytes, scratch: Bytes,
      begin: bool, n: nat)
    requires at <= |file| && (begin ==> scratch == []) && n == FragmentLength(at, data) < |data|
    requires HasAt(file, at, NextFragment(checksum, at, data, begin))
    ensures RecordAt(checksum, file, at, scratch, !begin) ==
      RecordAt(checksum, file, at + |NextFragment(checksum, at, data, begin)|, scratch + data[..n], true)
  {
    hide RecordAt;
    hide PieceAt;
    hide Physical;
    PieceIsRead(checksum, file, at, FragmentType(begin, false), data[..n]);
    FragmentIsKept(checksum, file, at, scratch, begin, data[..n], at + |NextFragment(checksum, at, data, begin)|);
  }

  /** The rest of a record, its first fragments in hand, is read to its end. */
  lemma {:induction false} RestIsRead(checksum: Checksum, file: Bytes, at: nat, data: Bytes, scratch: Bytes,
      begin: bool)
    requires (begin ==> scratch == []) && HasAt(file, at, EncodeRest(checksum, at, data, begin))
    ensures RecordAt(checksum, file, at, scratch, !begin) ==
      Outcome(Some(scratch + data), at + |EncodeRest(checksum, at, data, begin)|, [])
    decreases |data|, if Available(at) == 0 then 1 else 0
  {
    hide RecordAt;
    hide NextFragment;
    hide HasAt;
    var n := FragmentLength(at, data);
    RestParts(checksum, file, at, data, begin);
    if n == |data| {
      LastIsRead(checksum, file, at, data, scratch, begin);
    } else {
      MoreIsRead(checksum, file, at, data, scratch, begin, n);
      RestIsRead(checksum, file, at + |NextFragment(checksum, at, data, begin)|, data[n..], scratch + data[..n], false);
      assert (scratch + data[..n]) + data[n..] == scratch + data;
    }
  }

  lemma {:induction false} TornParts(checksum: Checksum, file: Bytes, at: nat, data: Bytes, begin: bool)
    requires TornAt(file, at, EncodeRest(checksum, at, data, begin))
    ensures var n, first := FragmentLength(at, data), NextFragment(checksum, at, data, begin);
      || TornAt(file, at, first)
      || (n < |data| && HasAt(file, at, first) && Available(at + |first|) > 0
          && TornAt(file, at + |first|, EncodeRest(checksum, at + |first|, data[n..], false)))
  {
    var n, first := FragmentLength(at, data), NextFragment(checksum, at, data, begin);
    if n < |data| {
      FullBlockFollows(checksum, at, data, begin);
      HasParts(file, at, first, EncodeRest(checksum, at + |first|, data[n..], false));
    }
  }

  lemma {:induction false} TornFragmentIsEof(checksum: Checksum, file: Bytes, at: nat, data: Bytes, scratch: Bytes,
      begin: bool)
    requires TornAt(file, at, NextFragment(checksum, at, data, begin))
    ensures RecordAt(checksum, file, at, scratch, !begin) == Outcome(None, |file|, [])
  {
    hide PieceAt;
    hide Physical;
    var n := FragmentLength(at, data);
    PieceIsRead(checksum, file, at, FragmentType(begin, n == |data|), data[..n]);
  }

  /** If the file ends inside it, that reads as the end of the file, and nothing is reported. */
  lemma {:induction false} TornRestIsEof(checksum: Checksum, file: Bytes, at: nat, data: Bytes, scratch: Bytes,
      begin: bool)
    requires (begin ==> scratch == []) && TornAt(file, at, EncodeRest(checksum, at, data, begin))
    ensures RecordAt(checksum, file, at, scratch, !begin) == Outcome(None, |file|, [])
    decreases |data|, if Available(at) == 0 then 1 else 0
  {
    hide RecordAt;
    hide NextFragment;
    var n := FragmentLength(at, data);
    var first := NextFragment(checksum, at, data, begin);
    TornParts(checksum, file, at, data, begin);
    if TornAt(file, at, first) {
      TornFragmentIsEof(checksum, file, at, data, scratch, begin);
    } else {
      MoreIsRead(checksum, file, at, data, scratch, begin, n);
      TornRestIsEof(checksum, file, at + |first|, data[n..], scratch + data[..n], false);
    }
  }

  /**
   A record is read back if it lies wholly in the file; a torn one, or none, is the end of the file without a report.
   */
  lemma {:induction false} RecordIsRead(checksum: Checksum, file: Bytes, at: nat, record: Bytes)
    requires at <= |file|
    ensures HasAt(file, at, EncodeRecord(checksum, at, record))
      ==>
        RecordAt(checksum, file, at, [], false) == Outcome(Some(record), at + |EncodeRecord(checksum, at, record)|, [])
    ensures TornAt(file, at, EncodeRecord(checksum, at, record)) ==>
      RecordAt(checksum, file, at, [], false) == Outcome(None, |file|, [])
  {
    assert [] + record == record;
    if HasAt(file, at, EncodeRecord(checksum, at, record)) {
      RestIsRead(checksum, file, at, record, [], true);
    }
    if TornAt(file, at, EncodeRecord(checksum, at, record)) {
      TornRestIsEof(checksum, file, at, record, [], true);
    }
  }

  // ----- whole logs -----

  /** How many of the records lie wholly in the first `length` bytes of their log. */
  function Whole(checksum: Checksum, records: seq<Bytes>, length: nat): (k: nat)
    ensures k <= |records|
    ensures var whole := k; |EncodeLog(checksum, records[..whole])| <= length
  {
    if |EncodeLog(checksum, records)| <= length then
      assert records[..|records|] == records;
      |records|
    else
      var n := |records| - 1;
      var k := Whole(checksum, records[..n], length);
      assert records[..n][..k] == records[..k];
      k
  }

  lemma {:induction false} LogPrefix(checksum: Checksum, records: seq<Bytes>, k: nat)
    requires k <= |records|
    ensures EncodeLog(checksum, records[..k]) <= EncodeLog(checksum, records)
    ensures k < |records| ==>
      var front := EncodeLog(checksum, records[..k]);
      front + EncodeRecord(checksum, |front|, records[k]) <= EncodeLog(checksum, records)
    decreases |records| - k
  {
    if k == |records| {
      assert records[..k] == records;
    } else {
      LogPrefix(checksum, records, k + 1);
      assert records[..k + 1][..k] == records[..k];
    }
  }

  /** The record after the `k` whole ones is the first that is torn, or there is none. */
  lemma {:induction false} WholeIsMaximal(checksum: Checksum, records: seq<Bytes>, length: nat)
    ensures var k := Whole(checksum, records, length); k < |records| ==>
      |EncodeLog(checksum, records[..k + 1])| > length
  {
    hide EncodeRecord;
    if |EncodeLog(checksum, records)| > length {
      var n := |records| - 1;
      WholeIsMaximal(checksum, records[..n], length);
      var k := Whole(checksum, records[..n], length);
      if k < n {
        assert records[..n][..k + 1] == records[..k + 1];
      } else {
        assert records[..k + 1] == records;
      }
    }
  }

  /** Behind the first `k` records comes record `k`, or as much of it as is left. */
  lemma {:induction false} CutLogGoesOn(checksum: Checksum, records: seq<Bytes>, length: nat, k: nat)
    requires k < |records| && |EncodeLog(checksum, records[..k])| <= length <= |EncodeLog(checksum, records)|
    ensures var file, front := EncodeLog(checksum, records)[..length], EncodeLog(checksum, records[..k]);
      var next := EncodeRecord(checksum, |front|, records[k]);
      && EncodeLog(checksum, records[..k + 1]) == front + next
      && if |front| + |next| <= length then HasAt(file, |front|, next) else TornAt(file, |front|, next)
  {
    hide EncodeRecord;
    var log := EncodeLog(checksum, records);
    var file := log[..length];
    var front := EncodeLog(checksum, records[..k]);
    var next := EncodeRecord(checksum, |front|, records[k]);
    LogPrefix(checksum, records, k);
    assert records[..k + 1][..k] == records[..k];
    assert log[|front|..|front| + |next|] == (front + next)[|front|..] == next;
    if |front| + |next| <= length {
      assert file[|front|..|front| + |next|] == next;
    } else {
      assert file[|front|..] == log[|front|..|front| + |next|][..length - |front|];
    }
  }

  /** What a read finds behind the first `k` records of a log cut to `length` bytes. */
  lemma {:induction false} NextOfCutLog(checksum: Checksum, records: seq<Bytes>, length: nat, k: nat)
    requires length <= |EncodeLog(checksum, records)| && k <= Whole(checksum, records, length)
    ensures var file, at := EncodeLog(checksum, records)[..length], |EncodeLog(checksum, records[..k])|;
      && at <= length
      && RecordAt(checksum, file, at, [], false) ==
         if k < Whole(checksum, records, length)
           then Outcome(Some(records[k]), |EncodeLog(checksum, records[..k + 1])|, [])
         else Outcome(None, length, [])
  {
    hide EncodeRecord;
    var file := EncodeLog(checksum, records)[..length];
    var w := Whole(checksum, records, length);
    LogMonotone(checksum, records, k, w);
    if k == |records| {
      assert records[..k] == records;
      NothingLeft(checksum, file);
    } else {
      CutLogGoesOn(checksum, records, length, k);
      RecordIsRead(checksum, file, |EncodeLog(checksum, records[..k])|, records[k]);
      if k < w { LogMonotone(checksum, records, k + 1, w); } else { WholeIsMaximal(checksum, records, length); }
    }
  }

  lemma {:induction false} LogMonotone(checksum: Checksum, records: seq<Bytes>, j: nat, k: nat)
    requires j <= k <= |records|
    ensures |EncodeLog(checksum, records[..j])| <= |EncodeLog(checksum, records[..k])|
  {
    LogPrefix(checksum, records[..k], j);
    assert records[..k][..j] == records[..j];
  }

  lemma {:induction false} NothingLeft(checksum: Checksum, file: Bytes)
    ensures RecordAt(checksum, file, |file|, [], false) == Outcome(None, |file|, [])
  {
    assert Leftover(|file|) > 0;
  }

  /**
   Replays a log that a crash has cut anywhere, as recovery does: read until there is no more.  It gets exactly the
   records that are wholly there, and no corruption is reported.
   */
  method Replay(checksum: Checksum, file: Bytes, ghost records: seq<Bytes>)
      returns (read: seq<Bytes>, reports: seq<Report>)
    requires file <= EncodeLog(checksum, records)
    ensures read == records[..Whole(checksum, records, |file|)] && reports == []
  {
    hide RecordAt;
    hide EncodeLog;
    var reader := new Reader(checksum, file);
    read := [];
    ghost var w := Whole(checksum, records, |file|);
    assert file == EncodeLog(checksum, records)[..|file|];
    assert EncodeLog(checksum, records[..0]) == [] by { EmptyLog(checksum, records); }
    while true
      invariant reader.Valid() && reader.checksum == checksum && reader.file == file
      invariant reader.reports == []
      invariant |read| <= w && read == records[..|read|] && reader.Offset() == |EncodeLog(checksum, records[..|read|])|
      decreases w - |read|
    {
      NextOfCutLog(checksum, records, |file|, |read|);
      var record := reader.ReadRecord();
      if record.None? {
        break;
      }
      read := read + [record.value];
    }
    reports := reader.reports;
  }

  lemma {:induction false} EmptyLog(checksum: Checksum, records: seq<Bytes>)
    ensures EncodeLog(checksum, records[..0]) == []
  {
  }

  /** Every number of records that fit the first `length` bytes is at most the number of whole ones. */
  lemma {:induction false} WholeIsGreatest(checksum: Checksum, records: seq<Bytes>, length: nat)
    ensures forall j | 0 <= j <= |records| && |EncodeLog(checksum, records[..j])| <= length ::
      j <= Whole(checksum, records, length)
  {
    hide EncodeLog;
    var k := Whole(checksum, records, length);
    WholeIsMaximal(checksum, records, length);
    forall j | k < j <= |records| ensures |EncodeLog(checksum, records[..j])| > length {
      LogMonotone(checksum, records, k + 1, j);
    }
  }
}
