/**
 The nanopb decoder stays inside the structure that it fills, whatever the input (pb_decode.c): no array gets more items
 than it has room for, no byte field more bytes, and every string keeps room for its NUL.
 */
module NanopbBounds {
  import opened InternalKeys
  import opened Coding
  import opened NanopbTypes
  import opened NanopbEncode
  import opened NanopbDecode

  /** The bytes, with their size or their NUL, have room in the field. */
  ghost predicate Fits(t: LType, v: Value)
    requires Typed(v, t)
    decreases t
  {
    match t
    case ByteField(d) => |v.bytes| + SIZE_BYTES <= d
    case StringField(d) => |v.bytes| + 1 <= d
    case Submessage(fields) => AllFit(fields, v.slots)
    case _ => true
  }

  ghost predicate SlotFits(f: Field, slot: Slot)
    requires SlotTyped(slot, f)
    decreases f
  {
    match slot
    case One(v) => Fits(f.ltype, v)
    case Maybe(_, v) => Fits(f.ltype, v)
    case Many(items) => |items| <= f.htype.arraySize && forall i | 0 <= i < |items| :: Fits(f.ltype, items[i])
  }

  ghost predicate AllFit(fields: seq<Field>, slots: seq<Slot>)
    requires AllTyped(slots, fields)
    decreases fields
  {
    forall i | 0 <= i < |fields| :: SlotFits(fields[i], slots[i])
  }

  /** So do the defaults. */
  ghost predicate DefaultsFit(fields: seq<Field>)
    decreases fields
  {
    forall i | 0 <= i < |fields| :: DefaultFits(fields[i])
  }

  ghost predicate DefaultFits(f: Field)
    decreases f
  {
    if f.ltype.Submessage? then DefaultsFit(f.ltype.fields) else Typed(f.default, f.ltype) && Fits(f.ltype, f.default)
  }

  ghost predicate TypeFits(t: LType) {
    t.Submessage? ==> DefaultsFit(t.fields)
  }

  lemma DefaultsHaveRoom(fields: seq<Field>)
    requires WellFormed(fields) && DefaultsFit(fields)
    ensures AllTyped(Defaults(fields), fields) && AllFit(fields, Defaults(fields))
    decreases fields, 1
  {
    DefaultsTyped(fields);
    forall i | 0 <= i < |fields| ensures SlotFits(fields[i], Defaults(fields)[i]) {
      assert FieldOk(fields[i]) && DefaultFits(fields[i]);
      DefaultHasRoom(fields[i]);
    }
  }

  lemma DefaultHasRoom(f: Field)
    requires FieldOk(f) && DefaultFits(f)
    ensures Typed(DefaultValue(f), f.ltype) && Fits(f.ltype, DefaultValue(f))
    ensures SlotTyped(DefaultSlot(f), f) && SlotFits(f, DefaultSlot(f))
    decreases f, 0
  {
    DefaultTyped(f);
    if f.ltype.Submessage? { DefaultsHaveRoom(f.ltype.fields); }
  }

  lemma ScalarFits(t: LType, input: Bytes)
    requires !t.Submessage?
    ensures var r := ReadScalar(t, input); r.Parsed? ==> Fits(t, r.value)
  {
    hide ReadVarint32;
    hide DecodeVarint64;
    hide ReadString;
    hide DecodeFixed32;
    hide DecodeFixed64;
    hide AsSigned;
    hide UnZigZag;
    hide UpToNul;
  }

  lemma ValueFits(t: LType, was: Value, input: Bytes)
    requires TypeOk(t) && TypeFits(t) && Typed(was, t) && Fits(t, was)
    ensures var r := ReadValue(t, was, input); r.Parsed? ==> Fits(t, r.value)
    decreases t, 0
  {
    hide ReadScalar;
    hide ReadString;
    hide ReadMessage;
    if t.Submessage? {
      var s := ReadString(input);
      if s.Parsed? { MessageFits(t.fields, was.slots, s.value); }
    } else {
      ScalarFits(t, input);
    }
  }

  lemma {:induction false} PackedFits(t: LType, items: seq<Value>, arraySize: nat, input: Bytes)
    requires !t.Submessage? && |items| <= arraySize
    requires forall i | 0 <= i < |items| :: Typed(items[i], t) && Fits(t, items[i])
    ensures var r := ReadPacked(t, items, arraySize, input);
      r.Some? ==> |r.value| <= arraySize && forall i | 0 <= i < |r.value| :: Fits(t, r.value[i])
    decreases |input|
  {
    hide ReadScalar;
    if input != [] && |items| < arraySize {
      var v := ReadScalar(t, input);
      ScalarFits(t, input);
      if v.Parsed? { PackedFits(t, items + [v.value], arraySize, v.rest); }
    }
  }

  lemma SlotStaysFit(f: Field, slot: Slot, wireType: nat, input: Bytes)
    requires FieldOk(f) && DefaultFits(f) && SlotTyped(slot, f) && SlotFits(f, slot)
    ensures var r := ReadSlot(f, slot, wireType, input); r.Parsed? ==> SlotFits(f, r.value)
    decreases f, 0
  {
    hide ReadValue;
    hide ReadString;
    hide ReadPacked;
    match slot
    case One(was) => ValueFits(f.ltype, was, input);
    case Maybe(_, was) => ValueFits(f.ltype, was, input);
    case Many(items) =>
      if wireType == WT_STRING && Packable(f.ltype) {
        var s := ReadString(input);
        if s.Parsed? { PackedFits(f.ltype, items, f.htype.arraySize, s.value); }
      } else {
        DefaultHasRoom(f);
        ValueFits(f.ltype, DefaultValue(f), input);
      }
  }

  lemma {:induction false} FieldsFit(fields: seq<Field>, slots: seq<Slot>, seen: set<nat>, input: Bytes)
    requires WellFormed(fields) && DefaultsFit(fields) && AllTyped(slots, fields) && AllFit(fields, slots)
    ensures var r := ReadFields(fields, slots, seen, input); r.Some? ==> AllFit(fields, r.value.0)
    decreases fields, 0, |input|
  {
    hide ReadSlot;
    hide SkipField;
    hide Seeing;
    hide SlotFits;
    hide SlotTyped;
    hide FieldOk;
    hide DefaultFits;
    var key := ReadVarint32(input);
    if input != [] && key.Parsed? && key.value != 0 {
      if HasTag(fields, key.value / 8) {
        var i := IndexOf(fields, key.value / 8);
        var slot := ReadSlot(fields[i], slots[i], key.value % 8, key.rest);
        SlotStaysFit(fields[i], slots[i], key.value % 8, key.rest);
        if slot.Parsed? { FieldsFit(fields, slots[i := slot.value], Seeing(fields, seen, i), slot.rest); }
      } else {
        var rest := SkipField(key.value % 8, key.rest);
        if rest.Some? { FieldsFit(fields, slots, seen, rest.value); }
      }
    }
  }

  /** Whatever the input, what is decoded fits the structure if what was there did. */
  lemma MessageFits(fields: seq<Field>, slots: seq<Slot>, input: Bytes)
    requires WellFormed(fields) && DefaultsFit(fields) && AllTyped(slots, fields) && AllFit(fields, slots)
    ensures var r := ReadMessage(fields, slots, input); r.Some? ==> AllFit(fields, r.value)
    decreases fields, 1
  {
    hide ReadFields;
    FieldsFit(fields, slots, {}, input);
  }

  lemma DecodedFits(fields: seq<Field>, input: Bytes)
    requires WellFormed(fields) && DefaultsFit(fields)
    ensures var r := Decode(fields, input); r.Some? ==> AllFit(fields, r.value)
  {
    hide ReadMessage;
    DefaultsHaveRoom(fields);
    MessageFits(fields, Defaults(fields), input);
  }
}
