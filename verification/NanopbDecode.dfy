/**
 The nanopb decoder (pb_decode.c): what it makes of any input, as functions of the bytes left in the stream.
 */
module NanopbDecode {
  import opened InternalKeys
  import opened Coding
  import opened NanopbTypes
  import opened NanopbEncode

  /** Required fields beyond this many are not checked. */
  const MAX_REQUIRED_FIELDS := 64

  // ----- numbers -----

  /**
   pb_decode_varint32 from bit position `bitpos` on, with `weight` two to that power.  Bits beyond the 32nd must be
   zeros, or ones that extend a negative number.
   */
  function Varint32From(input: Bytes, bitpos: nat, weight: nat, result: Word): (r: Parsed<Word>)
    ensures r.Parsed? ==> |r.rest| < |input|
    decreases |input|
  {
    if input == [] then Malformed
    else
      var byte := input[0];
      if bitpos >= 32 then
        if byte % 128 != 0 && (result < 0x8000_0000 || byte != (if bitpos < 63 then 0xFF else 0x01)) then Malformed
        else if byte >= 128 then Varint32From(input[1..], bitpos + 7, weight * 128, result)
          else Parsed(result, input[1..])
      else
        var result' := (result + byte % 128 * weight) % WORD_LIMIT;
        if byte >= 128 then Varint32From(input[1..], bitpos + 7, weight * 128, result')
        else if bitpos == 28 && byte >= 16 then Malformed
        else Parsed(result', input[1..])
  }

  function ReadVarint32(input: Bytes): (r: Parsed<Word>)
    ensures r.Parsed? ==> |r.rest| < |input|
  {
    Varint32From(input, 0, 1, 0)
  }

  /** The signed number that has these 32 or 64 bits. */
  function AsSigned(n: nat, width: nat): (r: int)
    requires IsWidth(width)
  {
    var m := n % (2 * Half(width));
    if m < Half(width) then m else m - 2 * Half(width)
  }

  function UnZigZag(n: nat): (r: int) {
    if n % 2 == 1 then -(n / 2) - 1 else n / 2
  }

  /** Bytes behind their length. */
  function ReadString(input: Bytes): (r: Parsed<Bytes>)
    ensures r.Parsed? ==> |r.rest| < |input| && |r.value| < |input|
  {
    var n := ReadVarint32(input);
    if n.Parsed? && |n.rest| >= n.value then Parsed(n.rest[..n.value], n.rest[n.value..]) else Malformed
  }

  /** A C string ends at its first NUL. */
  function UpToNul(bytes: Bytes): (r: Bytes)
    ensures 0 !in r && |r| <= |bytes|
    ensures 0 !in bytes ==> r == bytes
  {
    if bytes == [] || bytes[0] == 0 then [] else [bytes[0]] + UpToNul(bytes[1..])
  }

  function Zeros(n: nat): (r: Bytes)
    ensures |r| == n
  {
    seq(n, _ => 0)
  }

  // ----- values -----

  ghost predicate TypeOk(t: LType) {
    t.Submessage? ==> WellFormed(t.fields)
  }

  lemma DefaultsTyped(fields: seq<Field>)
    requires WellFormed(fields)
    ensures AllTyped(Defaults(fields), fields)
    decreases fields, 1
  {
    forall i | 0 <= i < |fields| ensures SlotTyped(Defaults(fields)[i], fields[i]) {
      assert FieldOk(fields[i]);
      DefaultTyped(fields[i]);
    }
  }

  lemma DefaultTyped(f: Field)
    requires FieldOk(f)
    ensures Typed(DefaultValue(f), f.ltype) && SlotTyped(DefaultSlot(f), f)
    decreases f, 0
  {
    if f.ltype.Submessage? { DefaultsTyped(f.ltype.fields); }
  }

  /** A value that is not a submessage. */
  function ReadScalar(t: LType, input: Bytes): (r: Parsed<Value>)
    requires !t.Submessage?
    ensures r.Parsed? ==> |r.rest| < |input| && Typed(r.value, t)
  {
    match t
    case Bool =>
      var n := ReadVarint32(input);
      if n.Malformed? then Malformed else Parsed(Number(if n.value != 0 then 1 else 0), n.rest)
    case Signed(w) =>
      var n := DecodeVarint64(input);
      if n.Malformed? || !IsWidth(w) then Malformed
      else
        var s := AsSigned(n.value, if w == 8 then 8 else 4);
        if s + Half(w) >= 0 && s < Half(w) then Parsed(Number(s), n.rest) else Malformed
    case Unsigned(w) =>
      var n := DecodeVarint64(input);
      if n.Malformed? || !IsWidth(w) || n.value >= 2 * Half(w) then Malformed else Parsed(Number(n.value), n.rest)
    case ZigZag(w) =>
      var n := DecodeVarint64(input);
      if n.Malformed? || !IsWidth(w) then Malformed
      else
        var s := UnZigZag(n.value);
        if s + Half(w) >= 0 && s < Half(w) then Parsed(Number(s), n.rest) else Malformed
    case Fixed32 => if |input| < 4 then Malformed else Parsed(Number(DecodeFixed32(input)), input[4..])
    case Fixed64 => if |input| < 8 then Malformed else Parsed(Number(DecodeFixed64(input)), input[8..])
    case ByteField(d) =>
      var s := ReadString(input);
      if s.Malformed? || |s.value| + SIZE_BYTES > d then Malformed else Parsed(Text(s.value), s.rest)
    case StringField(d) =>
      var s := ReadString(input);
      if s.Malformed? || |s.value| + 1 > d then Malformed else Parsed(Text(UpToNul(s.value)), s.rest)
    case FixedLengthBytes(d) =>
      var s := ReadString(input);
      if s.Malformed? || (|s.value| != 0 && |s.value| != d) then Malformed
      else Parsed(Text(if |s.value| == 0 then Zeros(d) else s.value), s.rest)
  }

  /** One value; a submessage is merged into what is there. */
  ghost function ReadValue(t: LType, was: Value, input: Bytes): (r: Parsed<Value>)
    requires TypeOk(t) && Typed(was, t)
    ensures r.Parsed? ==> |r.rest| < |input| && Typed(r.value, t)
    decreases t, 0
  {
    if t.Submessage? then
      var s := ReadString(input);
      if s.Malformed? then Malformed
      else
        var slots := ReadMessage(t.fields, was.slots, s.value);
        if slots.Some? then Parsed(Message(slots.value), s.rest) else Malformed
    else ReadScalar(t, input)
  }

  /** Packed items, up to the end of their bytes. */
  ghost function ReadPacked(t: LType, items: seq<Value>, arraySize: nat, input: Bytes): (r: Option<seq<Value>>)
    requires !t.Submessage? && forall i | 0 <= i < |items| :: Typed(items[i], t)
    ensures r.Some? ==> forall i | 0 <= i < |r.value| :: Typed(r.value[i], t)
    decreases |input|
  {
    if input == [] then Some(items)
    else if |items| >= arraySize then None
    else
      var v := ReadScalar(t, input);
      if v.Malformed? then None else ReadPacked(t, items + [v.value], arraySize, v.rest)
  }

  /** decode_static_field */
  ghost function ReadSlot(f: Field, slot: Slot, wireType: nat, input: Bytes): (r: Parsed<Slot>)
    requires FieldOk(f) && SlotTyped(slot, f)
    ensures r.Parsed? ==> |r.rest| < |input| && SlotTyped(r.value, f)
    decreases f, 0
  {
    match slot
    case One(was) =>
      var v := ReadValue(f.ltype, was, input);
      if v.Malformed? then Malformed else Parsed(One(v.value), v.rest)
    case Maybe(_, was) =>
      var v := ReadValue(f.ltype, was, input);
      if v.Malformed? then Malformed else Parsed(Maybe(true, v.value), v.rest)
    case Many(items) =>
      if wireType == WT_STRING && Packable(f.ltype) then
        var s := ReadString(input);
        if s.Malformed? then Malformed
        else
          var more := ReadPacked(f.ltype, items, f.htype.arraySize, s.value);
          if more.Some? then Parsed(Many(more.value), s.rest) else Malformed
      else if |items| >= f.htype.arraySize then Malformed
      else
        assert Typed(DefaultValue(f), f.ltype) by { DefaultTyped(f); }
        var v := ReadValue(f.ltype, DefaultValue(f), input);
        if v.Malformed? then Malformed else Parsed(Many(items + [v.value]), v.rest)
  }

  // ----- messages -----

  function SkipVarint(input: Bytes): (r: Option<Bytes>)
    ensures r.Some? ==> |r.value| < |input|
  {
    if input == [] then None else if input[0] >= 128 then SkipVarint(input[1..]) else Some(input[1..])
  }

  /** pb_skip_field */
  function SkipField(wireType: nat, input: Bytes): (r: Option<Bytes>)
    ensures r.Some? ==> |r.value| <= |input|
  {
    if wireType == WT_VARINT then SkipVarint(input)
    else if wireType == WT_64BIT then if |input| < 8 then None else Some(input[8..])
    else if wireType == WT_STRING then
      var s := ReadString(input);
      if s.Malformed? then None else Some(s.rest)
    else if wireType == WT_32BIT then if |input| < 4 then None else Some(input[4..])
    else None
  }

  ghost predicate HasTag(fields: seq<Field>, tag: nat) {
    exists i :: 0 <= i < |fields| && fields[i].tag == tag
  }

  ghost function IndexOf(fields: seq<Field>, tag: nat): (i: nat)
    requires HasTag(fields, tag)
    ensures i < |fields| && fields[i].tag == tag
  {
    var i :| 0 <= i < |fields| && fields[i].tag == tag;
    i
  }

  /** The required fields seen so far, by their number among the required ones. */
  function Seeing(fields: seq<Field>, seen: set<nat>, i: nat): (r: set<nat>)
    requires i < |fields|
  {
    var k := RequiredBefore(fields, i);
    if fields[i].htype.Required? && k < MAX_REQUIRED_FIELDS then seen + {k} else seen
  }

  /** The loop of pb_decode_noinit; a zero ends the message early. */
  ghost function ReadFields(fields: seq<Field>, slots: seq<Slot>, seen: set<nat>,
      input: Bytes): (r: Option<(seq<Slot>, set<nat>)>)
    requires WellFormed(fields) && AllTyped(slots, fields)
    ensures r.Some? ==> AllTyped(r.value.0, fields)
    decreases fields, 0, |input|
  {
    if input == [] then Some((slots, seen))
    else
      var key := ReadVarint32(input);
      if key.Malformed? then None
      else if key.value == 0 then Some((slots, seen))
      else if !HasTag(fields, key.value / 8) then
        var rest := SkipField(key.value % 8, key.rest);
        if rest.Some? then ReadFields(fields, slots, seen, rest.value) else None
      else
        var i := IndexOf(fields, key.value / 8);
        var slot := ReadSlot(fields[i], slots[i], key.value % 8, key.rest);
        if slot.Malformed? then None
        else ReadFields(fields, slots[i := slot.value], Seeing(fields, seen, i), slot.rest)
  }

  ghost predicate AllSeen(fields: seq<Field>, seen: set<nat>) {
    forall k: nat | k < RequiredBefore(fields, |fields|) && k < MAX_REQUIRED_FIELDS :: k in seen
  }

  /** pb_decode_noinit: into a structure that holds `slots`. */
  ghost function ReadMessage(fields: seq<Field>, slots: seq<Slot>, input: Bytes): (r: Option<seq<Slot>>)
    requires WellFormed(fields) && AllTyped(slots, fields)
    ensures r.Some? ==> AllTyped(r.value, fields)
    decreases fields, 1
  {
    var r := ReadFields(fields, slots, {}, input);
    if r.Some? && AllSeen(fields, r.value.1) then Some(r.value.0) else None
  }

  /** pb_decode: into a structure set to its defaults. */
  ghost function Decode(fields: seq<Field>, input: Bytes): (r: Option<seq<Slot>>)
    requires WellFormed(fields)
    ensures r.Some? ==> AllTyped(r.value, fields)
  {
    DefaultsTyped(fields);
    ReadMessage(fields, Defaults(fields), input)
  }
}
