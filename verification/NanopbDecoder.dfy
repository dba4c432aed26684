/** The decoder itself: streams, substreams, and the loops of pb_decode.c, proved against what NanopbDecode says. */
module NanopbDecoder {
  import opened InternalKeys
  import opened Coding
  import opened NanopbTypes
  import opened NanopbEncode
  import opened NanopbDecode
  import opened NanopbRoundTrip

  class IStream {
    /** The bytes that are left. */
    var bytes: Bytes

    constructor (bytes: Bytes)
      ensures this.bytes == bytes
    {
      this.bytes := bytes;
    }

    method Read(count: nat) returns (ok: bool, data: Bytes)
      modifies this
      ensures ok == (count <= |old(bytes)|)
      ensures if ok then data == old(bytes)[..count] && bytes == old(bytes)[count..] else bytes == old(bytes)
    {
      data := [];
      if count == 0 {
        return true, [];
      }
      if |bytes| < count {
        return false, [];
      }
      data := bytes[..count];
      bytes := bytes[count..];
      ok := true;
    }

    method ReadByte() returns (ok: bool, byte: Byte)
      modifies this
      ensures ok == (old(bytes) != [])
      ensures if ok then byte == old(bytes)[0] && bytes == old(bytes)[1..] else bytes == old(bytes)
    {
      if |bytes| == 0 {
        return false, 0;
      }
      byte := bytes[0];
      bytes := bytes[1..];
      ok := true;
    }

    /** pb_decode_varint32: a quick case for one byte, then a loop. */
    method DecodeVarint32() returns (ok: bool, dest: Word)
      modifies this
      ensures var r := ReadVarint32(old(bytes));
        if r.Parsed? then ok && dest == r.value && bytes == r.rest else !ok
    {
      var byte;
      dest := 0;
      ok, byte := ReadByte();
      if !ok {
        return;
      }
      if byte < 128 {
        return true, byte;
      }
      var bitpos: nat, weight: nat := 7, 0x80;
      var result: Word := byte % 128;
      ghost var goal := ReadVarint32(old(bytes));
      while true
        invariant goal == Varint32From(bytes, bitpos, weight, result) && (bitpos < 32 ==> WeightOf(bitpos, weight))
        decreases |bytes|
      {
        ghost var before, was := bytes, result;
        ok, byte := ReadByte();
        if !ok {
          return;
        }
        if bitpos >= 32 {
          var signExtension := if bitpos < 63 then 0xFF else 0x01;
          if byte % 128 != 0 && (result / 0x8000_0000 == 0 || byte != signExtension) {
            return false, 0;
          }
        } else {
          result := (result + byte % 128 * weight) % WORD_LIMIT;
        }
        bitpos, weight := bitpos + 7, weight * 128;
        if byte < 128 {
          break;
        }
      }
      if bitpos == 35 && byte >= 16 {
        return false, 0;
      }
      return true, result;
    }

    /** pb_decode_varint */
    method DecodeVarint() returns (ok: bool, dest: nat)
      modifies this
      ensures var r := DecodeVarint64(old(bytes));
        if r.Parsed? then ok && dest == r.value && bytes == r.rest else !ok
    {
      dest := 0;
      var result: nat, weight: nat, k: nat := 0, 1, 0;
      while true
        invariant result < LONG_LIMIT
        invariant DecodeVarint64(old(bytes)) == VarintFrom(bytes, k, weight, result, 10, LONG_LIMIT)
        decreases |bytes|
      {
        if 7 * k >= 64 {
          return false, 0;
        }
        var byte;
        ok, byte := ReadByte();
        if !ok {
          return;
        }
        result := (result + byte % 128 * weight % LONG_LIMIT) % LONG_LIMIT;
        k, weight := k + 1, weight * 128;
        if byte < 128 {
          return true, result;
        }
      }
    }

    /** pb_make_string_substream and pb_close_string_substream: the bytes behind a length. */
    method TakeString() returns (ok: bool, data: Bytes)
      modifies this
      ensures var r := ReadString(old(bytes));
        if r.Parsed? then ok && data == r.value && bytes == r.rest else !ok
    {
      var size;
      ok, size := DecodeVarint32();
      data := [];
      if !ok {
        return;
      }
      ok, data := Read(size);
    }

    method SkipVarint() returns (ok: bool)
      modifies this
      ensures var r := NanopbDecode.SkipVarint(old(bytes));
        if r.Some? then ok && bytes == r.value else !ok
    {
      while true
        invariant NanopbDecode.SkipVarint(old(bytes)) == NanopbDecode.SkipVarint(bytes)
        decreases |bytes|
      {
        var byte;
        ok, byte := ReadByte();
        if !ok || byte < 128 {
          return;
        }
      }
    }

    method SkipField(wireType: nat) returns (ok: bool)
      modifies this
      ensures var r := NanopbDecode.SkipField(wireType, old(bytes));
        if r.Some? then ok && bytes == r.value else !ok
    {
      var data;
      if wireType == WT_VARINT {
        ok := SkipVarint();
      } else if wireType == WT_64BIT {
        ok, data := Read(8);
      } else if wireType == WT_STRING {
        ok, data := TakeString();
      } else if wireType == WT_32BIT {
        ok, data := Read(4);
      } else {
        ok := false;
      }
    }

    /** The decoders of everything but submessages. */
    method DecodeScalar(t: LType) returns (ok: bool, v: Value)
      requires !t.Submessage?
      modifies this
      ensures var r := ReadScalar(t, old(bytes));
        if r.Parsed? then ok && v == r.value && bytes == r.rest else !ok
    {
      hide ReadVarint32;
      hide DecodeVarint64;
      hide ReadString;
      hide UpToNul;
      hide AsSigned;
      hide UnZigZag;
      hide DecodeFixed32;
      hide DecodeFixed64;
      v := Number(0);
      match t
      case Bool =>
        var n;
        ok, n := DecodeVarint32();
        v := Number(if n != 0 then 1 else 0);
      case Signed(w) =>
        var n;
        ok, n := DecodeVarint();
        if !ok || !IsWidth(w) {
          return false, v;
        }
        var s := AsSigned(n, if w == 8 then 8 else 4);
        if s + Half(w) < 0 || s >= Half(w) {
          return false, v;
        }
        v := Number(s);
      case Unsigned(w) =>
        var n;
        ok, n := DecodeVarint();
        if !ok || !IsWidth(w) || n >= 2 * Half(w) {
          return false, v;
        }
        v := Number(n);
      case ZigZag(w) =>
        var n;
        ok, n := DecodeVarint();
        if !ok || !IsWidth(w) {
          return false, v;
        }
        var s := UnZigZag(n);
        if s + Half(w) < 0 || s >= Half(w) {
          return false, v;
        }
        v := Number(s);
      case Fixed32 =>
        var data;
        ghost var was := bytes;
        ok, data := Read(4);
        if ok {
          v := Number(DecodeFixed32(data));
          FixedPrefix(was);
        }
      case Fixed64 =>
        var data;
        ghost var was := bytes;
        ok, data := Read(8);
        if ok {
          v := Number(DecodeFixed64(data));
          FixedPrefix(was);
        }
      case ByteField(d) =>
        var data;
        ok, data := TakeString();
        ok := ok && |data| + SIZE_BYTES <= d;
        v := Text(data);
      case StringField(d) =>
        var data;
        ok, data := TakeString();
        ok := ok && |data| + 1 <= d;
        v := Text(UpToNul(data));
      case FixedLengthBytes(d) =>
        var data;
        ok, data := TakeString();
        if ok && |data| == 0 {
          return true, Text(Zeros(d));
        }
        ok := ok && |data| == d;
        v := Text(data);
    }
  }

  lemma FixedPrefix(b: Bytes)
    ensures |b| >= 4 ==> DecodeFixed32(b[..4]) == DecodeFixed32(b)
    ensures |b| >= 8 ==> DecodeFixed64(b[..8]) == DecodeFixed64(b)
  {
  }

  /** pb_dec_submessage, or the decoder of the type; a repeated submessage starts from its defaults. */
  method PbDecodeValue(stream: IStream, t: LType, was: Value) returns (ok: bool, v: Value)
    requires TypeOk(t) && Typed(was, t)
    modifies stream
    ensures var r := ReadValue(t, was, old(stream.bytes));
      if r.Parsed? then ok && v == r.value && stream.bytes == r.rest else !ok
    decreases t, 0
  {
    hide ReadScalar;
    hide ReadString;
    hide ReadMessage;
    if t.Submessage? {
      var data;
      ok, data := stream.TakeString();
      v := was;
      if !ok {
        return;
      }
      var substream := new IStream(data);
      var slots;
      ok, slots := PbDecodeNoinit(substream, t.fields, was.slots);
      v := Message(slots);
    } else {
      ok, v := stream.DecodeScalar(t);
    }
  }

  /** The packed array in a substream, behind the items there are already. */
  method PbDecodePacked(data: Bytes, t: LType, items: seq<Value>, arraySize: nat) returns (ok: bool, items': seq<Value>)
    requires !t.Submessage? && forall i | 0 <= i < |items| :: Typed(items[i], t)
    ensures var r := ReadPacked(t, items, arraySize, data);
      if r.Some? then ok && items' == r.value else !ok
  {
    hide ReadScalar;
    var substream := new IStream(data);
    items' := items;
    ok := true;
    while |substream.bytes| > 0 && |items'| < arraySize
      invariant (forall i | 0 <= i < |items'| :: Typed(items'[i], t)) && fresh(substream)
      invariant ReadPacked(t, items, arraySize, data) == ReadPacked(t, items', arraySize, substream.bytes)
      decreases |substream.bytes|
    {
      var v;
      ok, v := substream.DecodeScalar(t);
      if !ok {
        return;
      }
      items' := items' + [v];
    }
    ok := |substream.bytes| == 0;
  }

  /** decode_static_field */
  method PbDecodeField(stream: IStream, f: Field, slot: Slot, wireType: nat) returns (ok: bool, slot': Slot)
    requires FieldOk(f) && SlotTyped(slot, f)
    modifies stream
    ensures var r := ReadSlot(f, slot, wireType, old(stream.bytes));
      if r.Parsed? then ok && slot' == r.value && stream.bytes == r.rest else !ok
    decreases f, 0
  {
    hide ReadValue;
    hide ReadPacked;
    hide ReadString;
    var v;
    slot' := slot;
    match slot
    case One(was) =>
      ok, v := PbDecodeValue(stream, f.ltype, was);
      slot' := One(v);
    case Maybe(_, was) =>
      ok, v := PbDecodeValue(stream, f.ltype, was);
      slot' := Maybe(true, v);
    case Many(items) =>
      if wireType == WT_STRING && Packable(f.ltype) {
        var data;
        ok, data := stream.TakeString();
        if !ok {
          return;
        }
        var more;
        ok, more := PbDecodePacked(data, f.ltype, items, f.htype.arraySize);
        slot' := Many(more);
      } else {
        if |items| >= f.htype.arraySize {
          return false, slot;
        }
        DefaultTyped(f);
        ok, v := PbDecodeValue(stream, f.ltype, DefaultValue(f));
        slot' := Many(items + [v]);
      }
  }

  /** Every required field that is tracked has been seen. */
  method CheckRequired(fields: seq<Field>, seen: set<nat>) returns (ok: bool)
    ensures ok == AllSeen(fields, seen)
  {
    if fields == [] {
      return true;
    }
    var iter := new FieldIter(fields);
    var count, last := 0, fields[0];
    var more := true;
    while more
      invariant iter.Valid() && iter.fields == fields && fresh(iter)
      invariant !more ==> count == RequiredBefore(fields, |fields| - 1) && last == fields[|fields| - 1]
      decreases if more then |fields| - iter.pos else 0
    {
      count, last := iter.requiredFieldIndex, fields[iter.pos];
      more := iter.Next();
    }
    if last.htype.Required? {
      count := count + 1;
    }
    if count > MAX_REQUIRED_FIELDS {
      count := MAX_REQUIRED_FIELDS;
    }
    for k := 0 to count
      invariant forall i: nat | i < k :: i in seen
    {
      if k !in seen {
        return false;
      }
    }
    ok := true;
  }

  method PbDecodeNoinit(stream: IStream, fields: seq<Field>, slots: seq<Slot>) returns (ok: bool, slots': seq<Slot>)
    requires WellFormed(fields) && AllTyped(slots, fields)
    modifies stream
    ensures var r := ReadMessage(fields, slots, old(stream.bytes));
      if r.Some? then ok && slots' == r.value else !ok
    decreases fields, 1
  {
    hide ReadSlot;
    hide AllSeen;
    hide ReadVarint32;
    hide Seeing;
    slots' := slots;
    var seen: set<nat> := {};
    var iter: FieldIter? := null;
    if fields != [] {
      iter := new FieldIter(fields);
    }
    ghost var goal := ReadFields(fields, slots, {}, stream.bytes);
    while |stream.bytes| > 0
      invariant AllTyped(slots', fields) && goal == ReadFields(fields, slots', seen, stream.bytes)
      invariant if fields == [] then iter == null
        else iter != null && fresh(iter) && iter.Valid() && iter.fields == fields
      decreases |stream.bytes|
    {
      ghost var before := stream.bytes;
      var key;
      ok, key := stream.DecodeVarint32();
      if !ok {
        return;
      }
      if key == 0 {
        break;
      }
      var found := false;
      if iter != null {
        found := iter.Find(key / 8);
      }
      if !found {
        ok := stream.SkipField(key % 8);
        if !ok {
          return;
        }
      } else {
        var i := iter.pos;
        assert HasTag(fields, key / 8) && i == IndexOf(fields, key / 8);
        assert FieldOk(fields[i]) && SlotTyped(slots'[i], fields[i]);
        var slot;
        seen, ok, slot := DecodeFound(stream, fields, slots'[i], seen, i, iter.requiredFieldIndex, key % 8);
        if !ok {
          return;
        }
        slots' := slots'[i := slot];
      }
    }
    ok := CheckRequired(fields, seen);
  }

  /** The body of the loop once the field has been found. */
  method DecodeFound(stream: IStream, fields: seq<Field>, slot: Slot, seen: set<nat>, i: nat, requiredFieldIndex: nat,
      wireType: nat)
    returns (seen': set<nat>, ok: bool, slot': Slot)
    requires i < |fields| && FieldOk(fields[i]) && SlotTyped(slot, fields[i])
    requires requiredFieldIndex == RequiredBefore(fields, i)
    modifies stream
    ensures seen' == Seeing(fields, seen, i)
    ensures var r := ReadSlot(fields[i], slot, wireType, old(stream.bytes));
      if r.Parsed? then ok && slot' == r.value && stream.bytes == r.rest else !ok
    decreases fields, 0
  {
    hide ReadSlot;
    seen' := seen;
    if fields[i].htype.Required? && requiredFieldIndex < MAX_REQUIRED_FIELDS {
      seen' := seen + {requiredFieldIndex};
    }
    ok, slot' := PbDecodeField(stream, fields[i], slot, wireType);
  }

  /** pb_decode */
  method PbDecode(stream: IStream, fields: seq<Field>) returns (ok: bool, slots: seq<Slot>)
    requires WellFormed(fields)
    modifies stream
    ensures var r := Decode(fields, old(stream.bytes));
      if r.Some? then ok && slots == r.value else !ok
  {
    hide ReadMessage;
    DefaultsTyped(fields);
    ok, slots := PbDecodeNoinit(stream, fields, Defaults(fields));
  }

  /**
   A message is encoded into a buffer of the size computed beforehand and decoded again: the encoding never runs out of
   room, and the message comes back exactly when its strings leave room for their NULs.
   */
  method RoundTrip(fields: seq<Field>, slots: seq<Slot>) returns (encoded: bool, decoded: bool, slots': seq<Slot>)
    requires WellFormed(fields) && AllTyped(slots, fields)
    requires EncodeMessage(fields, slots).Some? ==> |EncodeMessage(fields, slots).value| < WORD_LIMIT
    ensures encoded == EncodeMessage(fields, slots).Some?
    ensures decoded == (encoded && AllTerminated(fields, slots, |fields|))
    ensures decoded ==> slots' == SentSlots(fields, slots)
  {
    hide EncodeFields;
    hide AllTerminated;
    hide SentSlots;
    slots' := slots;
    var size := PbGetEncodedSize(fields, slots);
    if size.None? {
      return false, false, slots;
    }
    var out := new OStream([], size.value);
    var status := PbEncode(out, fields, slots);
    assert out.output == [] + EncodeMessage(fields, slots).value == EncodeMessage(fields, slots).value;
    encoded := status.Ok?;
    var input := new IStream(out.output);
    MessageIsRead(fields, slots);
    decoded, slots' := PbDecode(input, fields);
  }
}
