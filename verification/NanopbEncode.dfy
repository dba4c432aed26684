/**
 The nanopb encoder (pb_encode.c).  A submessage or a packed array is encoded twice: once into a stream that only
 counts, for its length, and once into the real stream.
 */
module NanopbEncode {
  import opened InternalKeys
  import opened Coding
  import opened NanopbTypes

  // ----- the encoding -----

  const WT_VARINT := 0
  const WT_64BIT := 1
  const WT_STRING := 2
  const WT_32BIT := 5

  function WireType(t: LType): (r: nat)
    ensures r < 8
  {
    match t
    case Bool => WT_VARINT
    case Signed(_) => WT_VARINT
    case Unsigned(_) => WT_VARINT
    case ZigZag(_) => WT_VARINT
    case Fixed32 => WT_32BIT
    case Fixed64 => WT_64BIT
    case _ => WT_STRING
  }

  predicate Packable(t: LType) {
    !(t.ByteField? || t.StringField? || t.Submessage? || t.FixedLengthBytes?)
  }

  function TagBytes(tag: nat, wireType: nat): (r: Bytes) {
    Varint(8 * tag + wireType)
  }

  /** A negative number is written as the 64-bit number it is congruent to. */
  function ToUnsigned(n: int): (r: nat) {
    n % LONG_LIMIT
  }

  function ZigZagged(n: int): (r: nat) {
    if n < 0 then -2 * n - 1 else 2 * n
  }

  function WithLength(bytes: Bytes): (r: Bytes) {
    Varint(|bytes|) + bytes
  }

  function Join(a: Option<Bytes>, b: Option<Bytes>): (r: Option<Bytes>) {
    if a.Some? && b.Some? then Some(a.value + b.value) else None
  }

  /** One value without its tag, unless the descriptor or the value is unusable. */
  function EncodeValue(t: LType, v: Value): (r: Option<Bytes>)
    requires Typed(v, t)
    decreases t, 0
  {
    match t
    case Bool => Some(Varint(v.n))
    case Signed(w) => if IsWidth(w) then Some(Varint(ToUnsigned(v.n))) else None
    case Unsigned(w) => if IsWidth(w) then Some(Varint(v.n)) else None
    case ZigZag(w) => if IsWidth(w) then Some(Varint(ZigZagged(v.n))) else None
    case Fixed32 => Some(EncodeFixed32(v.n))
    case Fixed64 => Some(EncodeFixed64(v.n))
    case ByteField(d) => if |v.bytes| + SIZE_BYTES > d then None else Some(WithLength(v.bytes))
    case StringField(_) => Some(WithLength(v.bytes))
    case FixedLengthBytes(_) => Some(WithLength(v.bytes))
    case Submessage(fields) =>
      var body := EncodeFields(fields, v.slots, |fields|);
      if body.Some? then Some(WithLength(body.value)) else None
  }

  function EncodeTagged(tag: nat, t: LType, v: Value): (r: Option<Bytes>)
    requires Typed(v, t)
    decreases t, 1
  {
    Join(Some(TagBytes(tag, WireType(t))), EncodeValue(t, v))
  }

  /** The first `n` items one after the other, without tags. */
  function EncodePacked(t: LType, items: seq<Value>, n: nat): (r: Option<Bytes>)
    requires n <= |items| && forall i | 0 <= i < |items| :: Typed(items[i], t)
    decreases t, 2, n
  {
    if n == 0 then Some([]) else Join(EncodePacked(t, items, n - 1), EncodeValue(t, items[n - 1]))
  }

  /** The first `n` items, each under its tag. */
  function EncodeUnpacked(tag: nat, t: LType, items: seq<Value>, n: nat): (r: Option<Bytes>)
    requires n <= |items| && forall i | 0 <= i < |items| :: Typed(items[i], t)
    decreases t, 2, n
  {
    if n == 0 then Some([]) else Join(EncodeUnpacked(tag, t, items, n - 1), EncodeTagged(tag, t, items[n - 1]))
  }

  function EncodeArray(f: Field, items: seq<Value>): (r: Option<Bytes>)
    requires f.htype.Repeated? && forall i | 0 <= i < |items| :: Typed(items[i], f.ltype)
    decreases f, 0
  {
    if items == [] then Some([])
    else if |items| > f.htype.arraySize then None
    else if Packable(f.ltype) then
      var body := EncodePacked(f.ltype, items, |items|);
      if body.Some? then Some(TagBytes(f.tag, WT_STRING) + WithLength(body.value)) else None
    else EncodeUnpacked(f.tag, f.ltype, items, |items|)
  }

  function EncodeField(f: Field, slot: Slot): (r: Option<Bytes>)
    requires SlotTyped(slot, f)
    decreases f, 1
  {
    match slot
    case One(v) => EncodeTagged(f.tag, f.ltype, v)
    case Maybe(has, v) => if has then EncodeTagged(f.tag, f.ltype, v) else Some([])
    case Many(items) => EncodeArray(f, items)
  }

  /** The first `n` fields. */
  function EncodeFields(fields: seq<Field>, slots: seq<Slot>, n: nat): (r: Option<Bytes>)
    requires AllTyped(slots, fields) && n <= |fields|
    decreases fields, n
  {
    if n == 0 then Some([]) else Join(EncodeFields(fields, slots, n - 1), EncodeField(fields[n - 1], slots[n - 1]))
  }

  function EncodeMessage(fields: seq<Field>, slots: seq<Slot>): (r: Option<Bytes>)
    requires AllTyped(slots, fields)
  {
    EncodeFields(fields, slots, |fields|)
  }

  // ----- streams -----

  datatype Status = Ok | StreamFull | SizeChanged | BadMessage

  /** A stream that only counts has no output. */
  datatype Out = Out(sizing: bool, output: Bytes, maxSize: nat, bytesWritten: nat)

  function Emit(o: Out, bytes: Bytes): (r: Option<Out>) {
    if o.sizing then Some(o.(bytesWritten := o.bytesWritten + |bytes|))
    else if bytes != [] && o.bytesWritten + |bytes| > o.maxSize then None
    else Some(o.(output := o.output + bytes, bytesWritten := o.bytesWritten + |bytes|))
  }

  /**
   The stream got the bytes, if there are any to give it and they fit.  "submsg size changed" is no possible outcome.
   */
  predicate Emitted(before: Out, bytes: Option<Bytes>, after: Out, status: Status) {
    && !status.SizeChanged?
    && if bytes.None? then !status.Ok?
       else
         var o := Emit(before, bytes.value);
         if o.Some? then status.Ok? && after == o.value else status.StreamFull?
  }

  /** Two steps in sequence. */
  lemma ThenEmitted(before: Out, a: Option<Bytes>, mid: Out, b: Option<Bytes>, after: Out, status: Status)
    requires Emitted(before, a, mid, Ok) && Emitted(mid, b, after, status)
    ensures Emitted(before, Join(a, b), after, status)
  {
    if b.Some? {
      assert before.output + (a.value + b.value) == before.output + a.value + b.value;
    }
  }

  /** A step that fails ends the sequence. */
  lemma FailEmitted(before: Out, a: Option<Bytes>, mid: Out, status: Status, b: Option<Bytes>)
    requires Emitted(before, a, mid, status) && !status.Ok?
    ensures Emitted(before, Join(a, b), mid, status)
  {
  }

  class OStream {
    const sizing: bool
    var output: Bytes
    const maxSize: nat
    var bytesWritten: nat

    ghost function Contents(): (r: Out)
      reads this
    {
      Out(sizing, output, maxSize, bytesWritten)
    }

    constructor Sizing()
      ensures Contents() == Out(true, [], 0, 0)
    {
      sizing, output, maxSize, bytesWritten := true, [], 0, 0;
    }

    /** Writes on behind `output`. */
    constructor (output: Bytes, maxSize: nat)
      ensures Contents() == Out(false, output, maxSize, 0)
    {
      sizing, this.output, this.maxSize, bytesWritten := false, output, maxSize, 0;
    }

    method Write(bytes: Bytes) returns (status: Status)
      modifies this
      ensures Emitted(old(Contents()), Some(bytes), Contents(), status)
    {
      if |bytes| > 0 && !sizing {
        if bytesWritten + |bytes| > maxSize {
          return StreamFull;
        }
        output := output + bytes;
      }
      bytesWritten := bytesWritten + |bytes|;
      status := Ok;
    }

    /** pb_write without data, on a stream that only counts. */
    method Count(count: nat)
      requires sizing
      modifies this
      ensures Contents() == old(Contents()).(bytesWritten := old(bytesWritten) + count)
    {
      bytesWritten := bytesWritten + count;
    }

    /** pb_encode_varint; a single byte is written right away. */
    method Varint(value: nat) returns (status: Status)
      modifies this
      ensures Emitted(old(Contents()), Some(Coding.Varint(value)), Contents(), status)
    {
      if value <= 0x7F {
        status := Write([value]);
        return;
      }
      var buffer: Bytes := [];
      var v := value;
      while v != 0
        invariant v == 0 ==> buffer != [] && buffer[|buffer| - 1] >= 128
        invariant Coding.Varint(value) ==
          if v == 0 then buffer[..|buffer| - 1] + [buffer[|buffer| - 1] - 128] else buffer + Coding.Varint(v)
      {
        assert buffer + ([v % 128 + 128] + Coding.Varint(v / 128)) ==
          (buffer + [v % 128 + 128]) + Coding.Varint(v / 128);
        assert (buffer + [v % 128 + 128])[..|buffer|] == buffer;
        buffer := buffer + [v % 128 + 128];
        v := v / 128;
      }
      buffer := buffer[..|buffer| - 1] + [buffer[|buffer| - 1] - 128];
      status := Write(buffer);
    }

    /** pb_encode_string */
    method String(bytes: Bytes) returns (status: Status)
      modifies this
      ensures Emitted(old(Contents()), Some(WithLength(bytes)), Contents(), status)
    {
      hide Emitted;
      ghost var before := Contents();
      status := Varint(|bytes|);
      if !status.Ok? {
        FailEmitted(before, Some(Coding.Varint(|bytes|)), Contents(), status, Some(bytes));
        return;
      }
      ghost var mid := Contents();
      status := Write(bytes);
      ThenEmitted(before, Some(Coding.Varint(|bytes|)), mid, Some(bytes), Contents(), status);
    }
  }

  // ----- the encoder -----

  method PbEncodeTag(stream: OStream, tag: nat, wireType: nat) returns (status: Status)
    modifies stream
    ensures Emitted(old(stream.Contents()), Some(TagBytes(tag, wireType)), stream.Contents(), status)
  {
    status := stream.Varint(8 * tag + wireType);
  }

  /** One of the field encoders. */
  method PbEncodeValue(stream: OStream, t: LType, v: Value) returns (status: Status)
    requires Typed(v, t)
    modifies stream
    ensures Emitted(old(stream.Contents()), EncodeValue(t, v), stream.Contents(), status)
    decreases t, 0
  {
    hide Emit;
    match t
    case Bool => status := stream.Varint(v.n);
    case Signed(w) =>
      if !IsWidth(w) {
        return BadMessage;
      }
      status := stream.Varint(v.n % LONG_LIMIT);
    case Unsigned(w) =>
      if !IsWidth(w) {
        return BadMessage;
      }
      status := stream.Varint(v.n);
    case ZigZag(w) =>
      if !IsWidth(w) {
        return BadMessage;
      }
      status := stream.Varint(if v.n < 0 then -2 * v.n - 1 else 2 * v.n);
    case Fixed32 => status := stream.Write(EncodeFixed32(v.n));
    case Fixed64 => status := stream.Write(EncodeFixed64(v.n));
    case ByteField(d) =>
      if |v.bytes| + SIZE_BYTES > d {
        return BadMessage;
      }
      status := stream.String(v.bytes);
    case StringField(_) => status := stream.String(v.bytes);
    case FixedLengthBytes(_) => status := stream.String(v.bytes);
    case Submessage(fields) => status := PbEncodeSubmessage(stream, fields, v.slots);
  }

  method PbEncodeTagged(stream: OStream, tag: nat, t: LType, v: Value) returns (status: Status)
    requires Typed(v, t)
    modifies stream
    ensures Emitted(old(stream.Contents()), EncodeTagged(tag, t, v), stream.Contents(), status)
    decreases t, 1
  {
    hide Emitted;
    hide TagBytes;
    ghost var before := stream.Contents();
    status := PbEncodeTag(stream, tag, WireType(t));
    if !status.Ok? {
      FailEmitted(before, Some(TagBytes(tag, WireType(t))), stream.Contents(), status, EncodeValue(t, v));
      return;
    }
    ghost var mid := stream.Contents();
    status := PbEncodeValue(stream, t, v);
    ThenEmitted(before, Some(TagBytes(tag, WireType(t))), mid, EncodeValue(t, v), stream.Contents(), status);
  }

  /** The counting pass over a submessage gives the very length that the writing pass needs. */
  method PbEncodeSubmessage(stream: OStream, fields: seq<Field>, slots: seq<Slot>) returns (status: Status)
    requires AllTyped(slots, fields)
    modifies stream
    ensures var body := EncodeMessage(fields, slots);
      Emitted(old(stream.Contents()), if body.Some? then Some(WithLength(body.value)) else None, stream.Contents(),
        status)
    decreases fields, 1
  {
    hide EncodeFields;
    ghost var before, body := stream.Contents(), EncodeMessage(fields, slots);
    var sizes := new OStream.Sizing();
    status := PbEncode(sizes, fields, slots);
    if !status.Ok? {
      return;
    }
    var size := sizes.bytesWritten;
    assert size == |body.value|;
    status := stream.Varint(size);
    ghost var mid := stream.Contents();
    if !status.Ok? {
      FailEmitted(before, Some(Varint(size)), mid, status, body);
      return;
    }
    if stream.sizing {
      stream.Count(size);
      ThenEmitted(before, Some(Varint(size)), mid, body, stream.Contents(), status);
      return;
    }
    if stream.bytesWritten + size > stream.maxSize {
      status := StreamFull;
      TooLong(before, mid, Varint(size), body.value);
      return;
    }
    var substream := new OStream(stream.output, size);
    status := PbEncode(substream, fields, slots);
    stream.bytesWritten := stream.bytesWritten + substream.bytesWritten;
    stream.output := substream.output;
    if substream.bytesWritten != size {
      return SizeChanged;
    }
    ThenEmitted(before, Some(Varint(size)), mid, body, stream.Contents(), status);
  }

  lemma TooLong(before: Out, mid: Out, a: Bytes, b: Bytes)
    requires Emitted(before, Some(a), mid, Ok) && !before.sizing && a != []
    requires mid.bytesWritten + |b| > mid.maxSize
    ensures Emit(before, a + b) == None
  {
  }

  method PbEncode(stream: OStream, fields: seq<Field>, slots: seq<Slot>) returns (status: Status)
    requires AllTyped(slots, fields)
    modifies stream
    ensures Emitted(old(stream.Contents()), EncodeMessage(fields, slots), stream.Contents(), status)
    decreases fields, 0
  {
    hide Emitted;
    ghost var before := stream.Contents();
    NothingEmitted(before);
    if fields == [] {
      return Ok;
    }
    var iter := new FieldIter(fields);
    var more := true;
    status := Ok;
    ghost var i := 0;
    while more
      invariant iter.Valid() && iter.fields == fields && i <= |fields|
      invariant if more then iter.pos == i < |fields| else i == |fields|
      invariant status.Ok? && Emitted(before, EncodeFields(fields, slots, i), stream.Contents(), status)
      decreases |fields| - i
    {
      ghost var mid := stream.Contents();
      status := PbEncodeField(stream, fields[iter.pos], slots[iter.pos]);
      if !status.Ok? {
        FailedField(before, fields, slots, i, mid, stream.Contents(), status);
        return;
      }
      ThenEmitted(before, EncodeFields(fields, slots, i), mid, EncodeField(fields[i], slots[i]), stream.Contents(),
        status);
      i := i + 1;
      more := iter.Next();
    }
  }

  lemma NothingEmitted(before: Out)
    ensures Emitted(before, Some([]), before, Ok)
  {
  }

  /** A field that fails makes the message fail. */
  lemma {:induction false} FailedField(before: Out, fields: seq<Field>, slots: seq<Slot>, i: nat, mid: Out, after: Out,
      status: Status)
    requires AllTyped(slots, fields) && i < |fields| && !status.Ok?
    requires Emitted(before, EncodeFields(fields, slots, i), mid, Ok)
    requires Emitted(mid, EncodeField(fields[i], slots[i]), after, status)
    ensures Emitted(before, EncodeMessage(fields, slots), after, status)
  {
    hide Emitted;
    hide EncodeField;
    ThenEmitted(before, EncodeFields(fields, slots, i), mid, EncodeField(fields[i], slots[i]), after, status);
    StaysFailed(before, fields, slots, i + 1, |fields|, after, status);
  }

  lemma {:induction false} StaysFailed(before: Out, fields: seq<Field>, slots: seq<Slot>, k: nat, n: nat, after: Out,
      status: Status)
    requires AllTyped(slots, fields) && k <= n <= |fields| && !status.Ok?
    requires Emitted(before, EncodeFields(fields, slots, k), after, status)
    ensures Emitted(before, EncodeFields(fields, slots, n), after, status)
    decreases n
  {
    hide Emitted;
    hide EncodeField;
    if k < n {
      StaysFailed(before, fields, slots, k, n - 1, after, status);
      FailEmitted(before, EncodeFields(fields, slots, n - 1), after, status, EncodeField(fields[n - 1], slots[n - 1]));
    }
  }

  method PbEncodeField(stream: OStream, f: Field, slot: Slot) returns (status: Status)
    requires SlotTyped(slot, f)
    modifies stream
    ensures Emitted(old(stream.Contents()), EncodeField(f, slot), stream.Contents(), status)
    decreases f, 1
  {
    hide Emitted;
    NothingEmitted(stream.Contents());
    match f.htype
    case Required => status := PbEncodeTagged(stream, f.tag, f.ltype, slot.value);
    case Optional =>
      status := Ok;
      if slot.has {
        status := PbEncodeTagged(stream, f.tag, f.ltype, slot.value);
      }
    case Repeated(_) => status := PbEncodeArray(stream, f, slot.items);
  }

  method PbEncodeArray(stream: OStream, f: Field, items: seq<Value>) returns (status: Status)
    requires f.htype.Repeated? && forall i | 0 <= i < |items| :: Typed(items[i], f.ltype)
    modifies stream
    ensures Emitted(old(stream.Contents()), EncodeArray(f, items), stream.Contents(), status)
    decreases f, 0
  {
    hide EncodePacked;
    hide EncodeUnpacked;
    hide Emit;
    NothingEmitted(stream.Contents());
    if |items| == 0 {
      return Ok;
    }
    if |items| > f.htype.arraySize {
      return BadMessage;
    }
    if Packable(f.ltype) {
      status := PbEncodePackedField(stream, f, items);
    } else {
      status := PbEncodeUnpackedField(stream, f, items);
    }
  }

  /** The number of bytes the packed items take. */
  method PackedSize(t: LType, items: seq<Value>) returns (size: nat, status: Status)
    requires Packable(t) && forall i | 0 <= i < |items| :: Typed(items[i], t)
    ensures !status.SizeChanged?
    ensures if EncodePacked(t, items, |items|).Some? then status.Ok? && size == |EncodePacked(t, items, |items|).value|
      else !status.Ok?
    decreases t, 2
  {
    size, status := 0, Ok;
    if t.Fixed32? {
      FixedPacked(t, items, |items|);
      return 4 * |items|, Ok;
    }
    if t.Fixed64? {
      FixedPacked(t, items, |items|);
      return 8 * |items|, Ok;
    }
    var sizes := new OStream.Sizing();
    status := PbEncodeItems(sizes, t, items);
    size := sizes.bytesWritten;
  }

  lemma {:induction false} FixedPacked(t: LType, items: seq<Value>, n: nat)
    requires (t.Fixed32? || t.Fixed64?) && n <= |items| && forall i | 0 <= i < |items| :: Typed(items[i], t)
    ensures EncodePacked(t, items, n).Some? && |EncodePacked(t, items, n).value| == n * if t.Fixed32? then 4 else 8
  {
    hide EncodeFixed32;
    hide EncodeFixed64;
    if n > 0 { FixedPacked(t, items, n - 1); }
  }

  method PbEncodeItems(stream: OStream, t: LType, items: seq<Value>) returns (status: Status)
    requires forall i | 0 <= i < |items| :: Typed(items[i], t)
    modifies stream
    ensures Emitted(old(stream.Contents()), EncodePacked(t, items, |items|), stream.Contents(), status)
    decreases t, 1
  {
    hide Emitted;
    hide EncodeValue;
    ghost var before := stream.Contents();
    NothingEmitted(before);
    status := Ok;
    for i := 0 to |items|
      invariant status.Ok? && Emitted(before, EncodePacked(t, items, i), stream.Contents(), status)
    {
      ghost var mid := stream.Contents();
      status := PbEncodeValue(stream, t, items[i]);
      ThenEmitted(before, EncodePacked(t, items, i), mid, EncodeValue(t, items[i]), stream.Contents(), status);
      if !status.Ok? {
        PackedStaysFailed(before, t, items, i + 1, |items|, stream.Contents(), status);
        return;
      }
    }
  }

  lemma {:induction false} PackedStaysFailed(before: Out, t: LType, items: seq<Value>, k: nat, n: nat, after: Out,
      status: Status)
    requires k <= n <= |items| && (forall i | 0 <= i < |items| :: Typed(items[i], t))
    requires !status.Ok? && Emitted(before, EncodePacked(t, items, k), after, status)
    ensures Emitted(before, EncodePacked(t, items, n), after, status)
    decreases n
  {
    hide Emitted;
    hide EncodeValue;
    if k < n {
      PackedStaysFailed(before, t, items, k, n - 1, after, status);
      FailEmitted(before, EncodePacked(t, items, n - 1), after, status, EncodeValue(t, items[n - 1]));
    }
  }

  method PbEncodePackedField(stream: OStream, f: Field, items: seq<Value>) returns (status: Status)
    requires f.htype.Repeated? && Packable(f.ltype) && items != []
    requires |items| <= f.htype.arraySize && forall i | 0 <= i < |items| :: Typed(items[i], f.ltype)
    modifies stream
    ensures Emitted(old(stream.Contents()), EncodeArray(f, items), stream.Contents(), status)
    decreases f.ltype, 3
  {
    hide EncodePacked;
    hide TagBytes;
    ghost var before, body := stream.Contents(), EncodePacked(f.ltype, items, |items|);
    ghost var tag := Some(TagBytes(f.tag, WT_STRING));
    status := PbEncodeTag(stream, f.tag, WT_STRING);
    ghost var mid := stream.Contents();
    if !status.Ok? {
      FailEmitted(before, tag, mid, status, if body.Some? then Some(WithLength(body.value)) else None);
      return;
    }
    var size;
    size, status := PackedSize(f.ltype, items);
    if !status.Ok? {
      return;
    }
    status := stream.Varint(size);
    ghost var late := stream.Contents();
    if !status.Ok? {
      FailEmitted(mid, Some(Varint(size)), late, status, body);
      ThenEmitted(before, tag, mid, Some(WithLength(body.value)), late, status);
      return;
    }
    if stream.sizing {
      stream.Count(size);
      ThenEmitted(mid, Some(Varint(size)), late, body, stream.Contents(), status);
      ThenEmitted(before, tag, mid, Some(WithLength(body.value)), stream.Contents(), status);
      return;
    }
    status := PbEncodeItems(stream, f.ltype, items);
    ThenEmitted(mid, Some(Varint(size)), late, body, stream.Contents(), status);
    ThenEmitted(before, tag, mid, Some(WithLength(body.value)), stream.Contents(), status);
  }

  method PbEncodeUnpackedField(stream: OStream, f: Field, items: seq<Value>) returns (status: Status)
    requires f.htype.Repeated? && !Packable(f.ltype) && items != []
    requires |items| <= f.htype.arraySize && forall i | 0 <= i < |items| :: Typed(items[i], f.ltype)
    modifies stream
    ensures Emitted(old(stream.Contents()), EncodeArray(f, items), stream.Contents(), status)
    decreases f.ltype, 3
  {
    hide Emitted;
    hide EncodeTagged;
    ghost var before := stream.Contents();
    NothingEmitted(before);
    status := Ok;
    for i := 0 to |items|
      invariant status.Ok? && Emitted(before, EncodeUnpacked(f.tag, f.ltype, items, i), stream.Contents(), status)
    {
      ghost var mid := stream.Contents();
      status := PbEncodeTagged(stream, f.tag, f.ltype, items[i]);
      ThenEmitted(before, EncodeUnpacked(f.tag, f.ltype, items, i), mid, EncodeTagged(f.tag, f.ltype, items[i]),
        stream.Contents(), status);
      if !status.Ok? {
        UnpackedStaysFailed(before, f.tag, f.ltype, items, i + 1, |items|, stream.Contents(), status);
        return;
      }
    }
  }

  lemma {:induction false} UnpackedStaysFailed(before: Out, tag: nat, t: LType, items: seq<Value>, k: nat, n: nat,
      after: Out, status: Status)
    requires k <= n <= |items| && (forall i | 0 <= i < |items| :: Typed(items[i], t))
    requires !status.Ok? && Emitted(before, EncodeUnpacked(tag, t, items, k), after, status)
    ensures Emitted(before, EncodeUnpacked(tag, t, items, n), after, status)
    decreases n
  {
    hide Emitted;
    hide EncodeTagged;
    if k < n {
      UnpackedStaysFailed(before, tag, t, items, k, n - 1, after, status);
      FailEmitted(before, EncodeUnpacked(tag, t, items, n - 1), after, status, EncodeTagged(tag, t, items[n - 1]));
    }
  }

  /** pb_get_encoded_size: exactly the number of bytes that encoding the message into a stream writes. */
  method PbGetEncodedSize(fields: seq<Field>, slots: seq<Slot>) returns (size: Option<nat>)
    requires AllTyped(slots, fields)
    ensures size.Some? <==> EncodeMessage(fields, slots).Some?
    ensures size.Some? ==> size.value == |EncodeMessage(fields, slots).value|
  {
    hide EncodeFields;
    var stream := new OStream.Sizing();
    var status := PbEncode(stream, fields, slots);
    size := if status.Ok? then Some(stream.bytesWritten) else None;
  }
}
