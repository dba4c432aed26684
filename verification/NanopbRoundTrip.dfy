/** Decoding what the nanopb encoder has written gives the message back. */
module NanopbRoundTrip {
  import opened InternalKeys
  import opened Coding
  import opened NanopbTypes
  import opened NanopbEncode
  import opened NanopbDecode

  // ----- numbers -----

  /** One turn of the loop below the 32nd bit that loses no bits. */
  lemma {:induction false} ByteIsRead(byte: Byte, more: Bytes, bitpos: nat, weight: nat, result: Word, bits: nat)
    requires bitpos < 32 && bits == byte % 128 * weight && result + bits < WORD_LIMIT
    requires bitpos == 28 ==> byte < 16
    ensures Varint32From([byte] + more, bitpos, weight, result) ==
      if byte >= 128 then Varint32From(more, bitpos + 7, weight * 128, result + bits) else Parsed(result + bits, more)
  {
    assert ([byte] + more)[1..] == more;
    SmallMod(result + bits, WORD_LIMIT);
  }

  /** The weights of the bits that a byte may carry. */
  predicate WeightOf(bitpos: nat, weight: nat) {
    || (bitpos == 0 && weight == 1) || (bitpos == 7 && weight == 0x80) || (bitpos == 14 && weight == 0x4000)
    || (bitpos == 21 && weight == 0x20_0000) || (bitpos == 28 && weight == 0x1000_0000)
  }

  lemma {:induction false} RoomFor(v: nat, bitpos: nat, weight: nat)
    requires WeightOf(bitpos, weight) && v * weight < WORD_LIMIT
    ensures bitpos == 28 ==> v < 16
    ensures v >= 128 ==> WeightOf(bitpos + 7, weight * 128)
  {
  }

  /** Every 32-bit number is read back. */
  lemma {:induction false} VarintIsRead(v: nat, rest: Bytes, bitpos: nat, weight: nat, result: Word)
    requires WeightOf(bitpos, weight) && result + v * weight < WORD_LIMIT
    ensures Varint32From(Varint(v) + rest, bitpos, weight, result) == Parsed(result + v * weight, rest)
    decreases v
  {
    hide Varint32From;
    WeightSplits(v, weight, result, WORD_LIMIT);
    assert v * weight < WORD_LIMIT;
    RoomFor(v, bitpos, weight);
    if v < 128 {
      ByteIsRead(v, rest, bitpos, weight, result, v % 128 * weight);
    } else {
      assert Varint(v) + rest == [v % 128 + 128] + (Varint(v / 128) + rest);
      assert v / 128 * (weight * 128) >= 0;
      ByteIsRead(v % 128 + 128, Varint(v / 128) + rest, bitpos, weight, result, v % 128 * weight);
      VarintIsRead(v / 128, rest, bitpos + 7, weight * 128, result + v % 128 * weight);
    }
  }

  lemma Varint32IsRead(v: Word, rest: Bytes)
    ensures ReadVarint32(Varint(v) + rest) == Parsed(v, rest)
  {
    VarintIsRead(v, rest, 0, 1, 0);
  }

  lemma StringIsRead(bytes: Bytes, rest: Bytes)
    requires |bytes| < WORD_LIMIT
    ensures ReadString(WithLength(bytes) + rest) == Parsed(bytes, rest)
  {
    hide Varint;
    hide ReadVarint32;
    assert WithLength(bytes) + rest == Varint(|bytes|) + (bytes + rest);
    Varint32IsRead(|bytes|, bytes + rest);
  }

  lemma {:induction false} WrapsTo64(n: int)
    requires -0x8000_0000_0000_0000 <= n < 0x8000_0000_0000_0000
    ensures ToUnsigned(n) == if n < 0 then n + LONG_LIMIT else n
  {
  }

  lemma {:induction false} LowWord(n: int)
    requires -0x8000_0000 <= n < 0
    ensures (n + LONG_LIMIT) % WORD_LIMIT == n + WORD_LIMIT
  {
    assert n + LONG_LIMIT == WORD_LIMIT * (WORD_LIMIT - 1) + (n + WORD_LIMIT);
  }

  lemma {:induction false} SignedIsRead(n: int, w: nat)
    requires IsWidth(w) && n + Half(w) >= 0 && n < Half(w)
    ensures ToUnsigned(n) < LONG_LIMIT && AsSigned(ToUnsigned(n), if w == 8 then 8 else 4) == n
  {
    hide ToUnsigned;
    WrapsTo64(n);
    if w != 8 && n < 0 {
      LowWord(n);
    }
  }

  lemma {:induction false} ZigZagIsRead(n: int, w: nat)
    requires IsWidth(w) && n + Half(w) >= 0 && n < Half(w)
    ensures ZigZagged(n) < LONG_LIMIT && UnZigZag(ZigZagged(n)) == n
  {
  }

  // ----- what a message is after the round trip -----

  /** Every string that is sent leaves room for its NUL. */
  ghost predicate Terminated(t: LType, v: Value)
    requires Typed(v, t)
    decreases t, 0
  {
    match t
    case StringField(d) => |v.bytes| < d
    case Submessage(fields) => AllTerminated(fields, v.slots, |fields|)
    case _ => true
  }

  ghost predicate SlotTerminated(f: Field, slot: Slot)
    requires SlotTyped(slot, f)
    decreases f, 0
  {
    match slot
    case One(v) => Terminated(f.ltype, v)
    case Maybe(has, v) => has ==> Terminated(f.ltype, v)
    case Many(items) => forall i | 0 <= i < |items| :: Terminated(f.ltype, items[i])
  }

  /** In fields `i` and up. */
  ghost predicate AllTerminated(fields: seq<Field>, slots: seq<Slot>, n: nat)
    requires AllTyped(slots, fields) && n <= |fields|
    decreases fields, 1
  {
    forall i | 0 <= i < n :: SlotTerminated(fields[i], slots[i])
  }

  /** The same message with its absent fields set to their defaults: they are not sent. */
  ghost function Sent(t: LType, v: Value): (r: Value)
    requires Typed(v, t)
    decreases t, 0
  {
    if t.Submessage? then Message(SentSlots(t.fields, v.slots)) else v
  }

  ghost function SentSlot(f: Field, slot: Slot): (r: Slot)
    requires SlotTyped(slot, f)
    decreases f, 0
  {
    match slot
    case One(v) => One(Sent(f.ltype, v))
    case Maybe(has, v) => if has then Maybe(true, Sent(f.ltype, v)) else Maybe(false, DefaultValue(f))
    case Many(items) => Many(SentItems(f.ltype, items))
  }

  ghost function SentItems(t: LType, items: seq<Value>): (r: seq<Value>)
    requires forall i | 0 <= i < |items| :: Typed(items[i], t)
    ensures |r| == |items|
    decreases t, 1
  {
    seq(|items|, i requires 0 <= i < |items| => Sent(t, items[i]))
  }

  ghost function SentSlots(fields: seq<Field>, slots: seq<Slot>): (r: seq<Slot>)
    requires AllTyped(slots, fields)
    ensures |r| == |fields|
    decreases fields, 1
  {
    seq(|fields|, i requires 0 <= i < |fields| => SentSlot(fields[i], slots[i]))
  }

  // ----- values -----

  lemma {:induction false} ScalarIsRead(t: LType, v: Value, rest: Bytes)
    requires !t.Submessage? && Typed(v, t) && EncodeValue(t, v).Some?
    requires |EncodeValue(t, v).value| < WORD_LIMIT
    ensures ReadScalar(t, EncodeValue(t, v).value + rest) == if Terminated(t, v) then Parsed(v, rest) else Malformed
  {
    hide Varint;
    hide ReadVarint32;
    hide DecodeVarint64;
    hide EncodeFixed32;
    hide EncodeFixed64;
    hide DecodeFixed32;
    hide DecodeFixed64;
    hide ReadString;
    hide UpToNul;
    hide AsSigned;
    hide UnZigZag;
    hide ZigZagged;
    hide ToUnsigned;
    match t
    case Bool => Varint32IsRead(v.n, rest);
    case Signed(w) =>
      SignedIsRead(v.n, w);
      DecodeUndoesVarint64(ToUnsigned(v.n), rest);
    case Unsigned(w) => DecodeUndoesVarint64(v.n, rest);
    case ZigZag(w) =>
      ZigZagIsRead(v.n, w);
      DecodeUndoesVarint64(ZigZagged(v.n), rest);
    case Fixed32 =>
      DecodeUndoesEncode(v.n, rest);
      assert (EncodeFixed32(v.n) + rest)[4..] == rest;
    case Fixed64 =>
      Decode64UndoesEncode(v.n, rest);
      assert (EncodeFixed64(v.n) + rest)[8..] == rest;
    case ByteField(_) => StringIsRead(v.bytes, rest);
    case StringField(_) => StringIsRead(v.bytes, rest);
    case FixedLengthBytes(_) => StringIsRead(v.bytes, rest);
    case _ =>
  }

  /** Packed items are read to the end of their bytes. */
  lemma {:induction false} PackedIsRead(t: LType, items: seq<Value>, n: nat, arraySize: nat)
    requires Packable(t) && n <= |items| <= arraySize && (forall i | 0 <= i < |items| :: Typed(items[i], t))
    requires EncodePacked(t, items, |items|).Some? && |EncodePacked(t, items, |items|).value| < WORD_LIMIT
    ensures EncodePacked(t, items, n).Some? && EncodePacked(t, items, n).value <= EncodePacked(t, items, |items|).value
    ensures ReadPacked(t, items[..n], arraySize,
      EncodePacked(t, items, |items|).value[|EncodePacked(t, items, n).value|..]) == Some(items)
    decreases |items| - n
  {
    hide EncodeValue;
    hide ReadScalar;
    var all := EncodePacked(t, items, |items|).value;
    if n == |items| {
      assert items[..n] == items;
    } else {
      PackedIsRead(t, items, n + 1, arraySize);
      var front, item := EncodePacked(t, items, n).value, EncodeValue(t, items[n]).value;
      var rest := all[|front + item|..];
      assert all[|front|..] == item + rest;
      assert EncodeValue(t, items[n]).Some? && |item| <= |all|;
      ScalarIsRead(t, items[n], rest);
      ItemIsLong(t, items[n]);
      assert items[..n] + [items[n]] == items[..n + 1];
    }
  }

  lemma ItemIsLong(t: LType, v: Value)
    requires Typed(v, t) && EncodeValue(t, v).Some?
    ensures EncodeValue(t, v).value != []
  {
    hide EncodeFields;
  }

  // ----- fields -----

  lemma SentTyped(t: LType, v: Value)
    requires Typed(v, t) && TypeOk(t)
    ensures Typed(Sent(t, v), t)
    decreases t, 0
  {
    if t.Submessage? { SentAllTyped(t.fields, v.slots); }
  }

  lemma SentSlotTyped(f: Field, slot: Slot)
    requires SlotTyped(slot, f) && FieldOk(f)
    ensures SlotTyped(SentSlot(f, slot), f)
    decreases f, 0
  {
    DefaultTyped(f);
    match slot
    case One(v) => SentTyped(f.ltype, v);
    case Maybe(_, v) => SentTyped(f.ltype, v);
    case Many(items) =>
      forall k | 0 <= k < |items| ensures Typed(SentItems(f.ltype, items)[k], f.ltype) {
        SentTyped(f.ltype, items[k]);
      }
  }

  lemma SentAllTyped(fields: seq<Field>, slots: seq<Slot>)
    requires WellFormed(fields) && AllTyped(slots, fields)
    ensures AllTyped(SentSlots(fields, slots), fields)
    decreases fields, 0
  {
    forall i | 0 <= i < |fields| ensures SlotTyped(SentSlots(fields, slots)[i], fields[i]) {
      SentSlotTyped(fields[i], slots[i]);
    }
  }

  /** The structure once the first `j` fields have been read. */
  ghost function Mixed(fields: seq<Field>, slots: seq<Slot>, j: nat): (r: seq<Slot>)
    requires AllTyped(slots, fields) && j <= |fields|
    ensures |r| == |fields|
  {
    SentSlots(fields, slots)[..j] + Defaults(fields)[j..]
  }

  lemma MixedTyped(fields: seq<Field>, slots: seq<Slot>, j: nat)
    requires WellFormed(fields) && AllTyped(slots, fields) && j <= |fields|
    ensures AllTyped(Mixed(fields, slots, j), fields)
    ensures j < |fields| ==> Mixed(fields, slots, j)[j] == DefaultSlot(fields[j])
    ensures j < |fields| ==> Mixed(fields, slots, j + 1) == Mixed(fields, slots, j)[j := SentSlot(fields[j], slots[j])]
  {
    SentAllTyped(fields, slots);
    DefaultsTyped(fields);
  }

  function SeenBefore(fields: seq<Field>, j: nat): (r: set<nat>)
    requires j <= |fields|
  {
    if j == 0 then {} else Seeing(fields, SeenBefore(fields, j - 1), j - 1)
  }

  lemma {:induction false} SeenAll(fields: seq<Field>, j: nat)
    requires j <= |fields|
    ensures forall k: nat | k < RequiredBefore(fields, j) && k < MAX_REQUIRED_FIELDS :: k in SeenBefore(fields, j)
  {
    if j > 0 { SeenAll(fields, j - 1); }
  }

  /** A tag leads to its field. */
  lemma {:induction false} KeyIsRead(fields: seq<Field>, cur: seq<Slot>, seen: set<nat>, j: nat, wireType: nat,
      rest: Bytes)
    requires WellFormed(fields) && AllTyped(cur, fields) && j < |fields|
    requires wireType < 8
    ensures FieldOk(fields[j]) && SlotTyped(cur[j], fields[j])
    ensures var slot := ReadSlot(fields[j], cur[j], wireType, rest);
      ReadFields(fields, cur, seen, TagBytes(fields[j].tag, wireType) + rest) ==
        if slot.Malformed? then None else ReadFields(fields, cur[j := slot.value], Seeing(fields, seen, j), slot.rest)
  {
    hide Varint;
    hide ReadVarint32;
    hide ReadSlot;
    assert FieldOk(fields[j]);
    var key := 8 * fields[j].tag + wireType;
    Varint32IsRead(key, rest);
    assert key / 8 == fields[j].tag && key % 8 == wireType;
    assert HasTag(fields, key / 8) && IndexOf(fields, key / 8) == j;
  }

  /** The value of a field that the structure does not hold yet. */
  lemma {:induction false} ValueIsRead(f: Field, v: Value, rest: Bytes)
    requires FieldOk(f) && Typed(v, f.ltype) && Typed(DefaultValue(f), f.ltype)
    requires EncodeValue(f.ltype, v).Some? && |EncodeValue(f.ltype, v).value| < WORD_LIMIT
    ensures ReadValue(f.ltype, DefaultValue(f), EncodeValue(f.ltype, v).value + rest) ==
      if Terminated(f.ltype, v) then Parsed(Sent(f.ltype, v), rest) else Malformed
    decreases f, 1
  {
    hide EncodeFields;
    hide ReadString;
    hide ReadScalar;
    hide ReadMessage;
    hide AllTerminated;
    hide SentSlots;
    if f.ltype.Submessage? {
      var fields := f.ltype.fields;
      var body := EncodeMessage(fields, v.slots).value;
      StringIsRead(body, rest);
      MessageIsRead(fields, v.slots);
    } else {
      ScalarIsRead(f.ltype, v, rest);
    }
  }

  /** One tagged value, into a structure in which its field is still at its default. */
  lemma {:induction false} TaggedIsRead(fields: seq<Field>, cur: seq<Slot>, seen: set<nat>, j: nat, v: Value,
      rest: Bytes)
    requires WellFormed(fields) && AllTyped(cur, fields) && j < |fields|
    requires Typed(v, fields[j].ltype)
    requires !Packable(fields[j].ltype) || !fields[j].htype.Repeated?
    requires if cur[j].Many? then fields[j].htype.Repeated? && |cur[j].items| < fields[j].htype.arraySize
      else cur[j] == DefaultSlot(fields[j])
    requires EncodeTagged(fields[j].tag, fields[j].ltype, v).Some?
    requires |EncodeTagged(fields[j].tag, fields[j].ltype, v).value| < WORD_LIMIT
    ensures Typed(Sent(fields[j].ltype, v), fields[j].ltype)
    ensures var got := Sent(fields[j].ltype, v);
      var slot := if cur[j].One? then One(got) else if cur[j].Maybe? then Maybe(true, got)
        else Many(cur[j].items + [got]);
      && AllTyped(cur[j := slot], fields)
      && ReadFields(fields, cur, seen, EncodeTagged(fields[j].tag, fields[j].ltype, v).value + rest) ==
         if Terminated(fields[j].ltype, v) then ReadFields(fields, cur[j := slot], Seeing(fields, seen, j), rest)
           else None
    decreases fields, 0
  {
    hide ReadFields;
    hide ReadValue;
    hide EncodeValue;
    hide TagBytes;
    hide Terminated;
    hide Sent;
    var f := fields[j];
    var bytes := EncodeValue(f.ltype, v).value;
    assert FieldOk(f);
    DefaultTyped(f);
    SentTyped(f.ltype, v);
    assert TagBytes(f.tag, WireType(f.ltype)) + bytes + rest == TagBytes(f.tag, WireType(f.ltype)) + (bytes + rest);
    KeyIsRead(fields, cur, seen, j, WireType(f.ltype), bytes + rest);
    ValueIsRead(f, v, rest);
  }

  // ----- messages -----

  /** The items of an unpacked array from the `k`-th on. */
  lemma {:induction false} UnpackedIsRead(fields: seq<Field>, cur: seq<Slot>, seen: set<nat>, j: nat, items: seq<Value>,
      k: nat, rest: Bytes)
    requires WellFormed(fields) && AllTyped(cur, fields) && j < |fields|
    requires fields[j].htype.Repeated? && !Packable(fields[j].ltype)
    requires |items| <= fields[j].htype.arraySize && forall i | 0 <= i < |items| :: Typed(items[i], fields[j].ltype)
    requires k <= |items| && cur[j] == Many(SentItems(fields[j].ltype, items)[..k])
    requires EncodeUnpacked(fields[j].tag, fields[j].ltype, items, |items|).Some?
    requires |EncodeUnpacked(fields[j].tag, fields[j].ltype, items, |items|).value| < WORD_LIMIT
    ensures AllTyped(cur[j := Many(SentItems(fields[j].ltype, items))], fields)
    ensures var all := EncodeUnpacked(fields[j].tag, fields[j].ltype, items, |items|).value;
      var front := EncodeUnpacked(fields[j].tag, fields[j].ltype, items, k);
      && front.Some? && front.value <= all
      && ReadFields(fields, cur, seen, all[|front.value|..] + rest) ==
         if forall i | k <= i < |items| :: Terminated(fields[j].ltype, items[i]) then
           ReadFields(fields, cur[j := Many(SentItems(fields[j].ltype, items))], seen, rest)
         else None
    decreases fields, 1, |items| - k
  {
    hide ReadFields;
    hide EncodeTagged;
    hide Terminated;
    hide Sent;
    var f := fields[j];
    var got := SentItems(f.ltype, items);
    var all := EncodeUnpacked(f.tag, f.ltype, items, |items|).value;
    if k == |items| {
      assert got[..k] == got && all[|all|..] + rest == rest;
      assert cur[j := Many(got)] == cur;
    } else {
      UnpackedPrefix(f.tag, f.ltype, items, k + 1);
      var front, item := EncodeUnpacked(f.tag, f.ltype, items, k).value, EncodeTagged(f.tag, f.ltype, items[k]).value;
      var more := all[|front + item|..] + rest;
      assert all[|front|..] + rest == item + more;
      TaggedIsRead(fields, cur, seen, j, items[k], more);
      var next := cur[j := Many(cur[j].items + [Sent(f.ltype, items[k])])];
      assert got[..k] + [Sent(f.ltype, items[k])] == got[..k + 1];
      UnpackedIsRead(fields, next, seen, j, items, k + 1, rest);
      assert next[j := Many(got)] == cur[j := Many(got)];
    }
  }

  lemma {:induction false} UnpackedPrefix(tag: nat, t: LType, items: seq<Value>, k: nat)
    requires k <= |items| && forall i | 0 <= i < |items| :: Typed(items[i], t)
    requires EncodeUnpacked(tag, t, items, |items|).Some?
    ensures EncodeUnpacked(tag, t, items, k).Some?
    ensures EncodeUnpacked(tag, t, items, k).value <= EncodeUnpacked(tag, t, items, |items|).value
    decreases |items| - k
  {
    hide EncodeTagged;
    if k < |items| { UnpackedPrefix(tag, t, items, k + 1); }
  }

  /** One field, whatever it holds. */
  lemma {:induction false} FieldIsRead(fields: seq<Field>, slots: seq<Slot>, j: nat, rest: Bytes)
    requires WellFormed(fields) && AllTyped(slots, fields) && j < |fields|
    requires EncodeField(fields[j], slots[j]).Some? && |EncodeField(fields[j], slots[j]).value| < WORD_LIMIT
    ensures AllTyped(Mixed(fields, slots, j), fields) && AllTyped(Mixed(fields, slots, j + 1), fields)
    ensures ReadFields(fields, Mixed(fields, slots, j), SeenBefore(fields, j),
      EncodeField(fields[j], slots[j]).value + rest) ==
      if SlotTerminated(fields[j], slots[j]) then ReadFields(fields, Mixed(fields, slots, j + 1),
        SeenBefore(fields, j + 1), rest) else None
    decreases fields, 2
  {
    hide ReadFields;
    hide EncodeTagged;
    hide EncodePacked;
    hide EncodeUnpacked;
    hide Terminated;
    hide Sent;
    hide Mixed;
    var f, slot, cur, seen := fields[j], slots[j], Mixed(fields, slots, j), SeenBefore(fields, j);
    MixedTyped(fields, slots, j);
    MixedTyped(fields, slots, j + 1);
    assert FieldOk(f);
    match slot
    case One(v) => TaggedIsRead(fields, cur, seen, j, v, rest);
    case Maybe(has, v) =>
      if has {
        TaggedIsRead(fields, cur, seen, j, v, rest);
      } else {
        assert [] + rest == rest;
        assert cur[j := DefaultSlot(f)] == cur;
      }
    case Many(items) => ArrayIsRead(fields, cur, seen, j, items, rest);
  }

  lemma {:induction false} ArrayIsRead(fields: seq<Field>, cur: seq<Slot>, seen: set<nat>, j: nat, items: seq<Value>,
      rest: Bytes)
    requires WellFormed(fields) && AllTyped(cur, fields) && j < |fields|
    requires fields[j].htype.Repeated? && cur[j] == Many([])
    requires forall i | 0 <= i < |items| :: Typed(items[i], fields[j].ltype)
    requires EncodeArray(fields[j], items).Some? && |EncodeArray(fields[j], items).value| < WORD_LIMIT
    ensures AllTyped(cur[j := Many(SentItems(fields[j].ltype, items))], fields)
    ensures ReadFields(fields, cur, seen, EncodeArray(fields[j], items).value + rest) ==
      if forall i | 0 <= i < |items| :: Terminated(fields[j].ltype, items[i]) then
        ReadFields(fields, cur[j := Many(SentItems(fields[j].ltype, items))], seen, rest)
      else None
    decreases fields, 1, |items| + 1
  {
    hide ReadFields;
    hide EncodePacked;
    hide EncodeUnpacked;
    hide ReadPacked;
    hide TagBytes;
    var f := fields[j];
    var got := SentItems(f.ltype, items);
    if items == [] {
      assert got == [] && [] + rest == rest;
      assert cur[j := Many([])] == cur;
    } else if Packable(f.ltype) {
      PackedFieldIsRead(fields, cur, seen, j, items, rest);
    } else {
      assert got[..0] == [] && EncodeUnpacked(f.tag, f.ltype, items, 0) == Some([]) by {
        UnpackedNone(f.tag, f.ltype, items);
      }
      var all := EncodeUnpacked(f.tag, f.ltype, items, |items|).value;
      assert all[0..] + rest == all + rest;
      UnpackedIsRead(fields, cur, seen, j, items, 0, rest);
    }
  }

  lemma UnpackedNone(tag: nat, t: LType, items: seq<Value>)
    requires forall i | 0 <= i < |items| :: Typed(items[i], t)
    ensures EncodeUnpacked(tag, t, items, 0) == Some([])
    ensures EncodePacked(t, items, 0) == Some([])
  {
  }

  lemma {:induction false} PackedFieldIsRead(fields: seq<Field>, cur: seq<Slot>, seen: set<nat>, j: nat,
      items: seq<Value>, rest: Bytes)
    requires WellFormed(fields) && AllTyped(cur, fields) && j < |fields|
    requires fields[j].htype.Repeated? && cur[j] == Many([])
    requires items != [] && Packable(fields[j].ltype) && forall i | 0 <= i < |items| :: Typed(items[i], fields[j].ltype)
    requires EncodeArray(fields[j], items).Some? && |EncodeArray(fields[j], items).value| < WORD_LIMIT
    ensures SentItems(fields[j].ltype, items) == items
    ensures forall i | 0 <= i < |items| :: Terminated(fields[j].ltype, items[i])
    ensures ReadFields(fields, cur, seen, EncodeArray(fields[j], items).value + rest) ==
      ReadFields(fields, cur[j := Many(items)], seen, rest)
  {
    hide ReadFields;
    hide EncodePacked;
    hide ReadPacked;
    hide TagBytes;
    hide ReadString;
    hide Varint;
    var f := fields[j];
    var body := EncodePacked(f.ltype, items, |items|).value;
    assert FieldOk(f);
    assert TagBytes(f.tag, WT_STRING) + WithLength(body) + rest ==
      TagBytes(f.tag, WT_STRING) + (WithLength(body) + rest);
    KeyIsRead(fields, cur, seen, j, WT_STRING, WithLength(body) + rest);
    StringIsRead(body, rest);
    UnpackedNone(f.tag, f.ltype, items);
    PackedIsRead(f.ltype, items, 0, f.htype.arraySize);
    assert body[0..] == body && items[..0] == [];
  }

  lemma {:induction false} FieldsPrefix(fields: seq<Field>, slots: seq<Slot>, k: nat)
    requires AllTyped(slots, fields) && k <= |fields| && EncodeMessage(fields, slots).Some?
    ensures EncodeFields(fields, slots, k).Some?
    ensures EncodeFields(fields, slots, k).value <= EncodeMessage(fields, slots).value
    decreases |fields| - k
  {
    hide EncodeField;
    if k < |fields| { FieldsPrefix(fields, slots, k + 1); }
  }

  /** After the last field there is nothing to read. */
  lemma {:induction false} NoFieldsLeft(fields: seq<Field>, slots: seq<Slot>)
    requires WellFormed(fields) && AllTyped(slots, fields) && EncodeMessage(fields, slots).Some?
    ensures var n := |fields|;
      && AllTyped(Mixed(fields, slots, n), fields) && AllTyped(SentSlots(fields, slots), fields)
      && EncodeFields(fields, slots, n) == EncodeMessage(fields, slots)
      && ReadFields(fields, Mixed(fields, slots, n), SeenBefore(fields, n), []) ==
        Some((SentSlots(fields, slots), SeenBefore(fields, n)))
  {
    hide EncodeField;
    hide SlotTyped;
    MixedTyped(fields, slots, |fields|);
    SentAllTyped(fields, slots);
    assert Mixed(fields, slots, |fields|) == SentSlots(fields, slots);
  }

  /** The fields from the `j`-th on. */
  lemma {:induction false} FieldsAreRead(fields: seq<Field>, slots: seq<Slot>, j: nat)
    requires WellFormed(fields) && AllTyped(slots, fields) && j <= |fields|
    requires EncodeMessage(fields, slots).Some? && |EncodeMessage(fields, slots).value| < WORD_LIMIT
    ensures AllTyped(Mixed(fields, slots, j), fields) && AllTyped(SentSlots(fields, slots), fields)
    ensures EncodeFields(fields, slots, j).Some?
    ensures EncodeFields(fields, slots, j).value <= EncodeMessage(fields, slots).value
    ensures ReadFields(fields, Mixed(fields, slots, j), SeenBefore(fields, j),
      EncodeMessage(fields, slots).value[|EncodeFields(fields, slots, j).value|..]) ==
      if forall i | j <= i < |fields| :: SlotTerminated(fields[i], slots[i])
        then Some((SentSlots(fields, slots), SeenBefore(fields, |fields|))) else None
    decreases fields, 3, |fields| - j
  {
    hide EncodeField;
    hide SlotTerminated;
    hide ReadFields;
    hide Mixed;
    hide SentSlots;
    MixedTyped(fields, slots, j);
    SentAllTyped(fields, slots);
    FieldsPrefix(fields, slots, j);
    var all := EncodeMessage(fields, slots).value;
    if j == |fields| {
      NoFieldsLeft(fields, slots);
      assert all[|all|..] == [];
    } else {
      FieldsPrefix(fields, slots, j + 1);
      var front, bytes := EncodeFields(fields, slots, j).value, EncodeField(fields[j], slots[j]).value;
      var rest := all[|front + bytes|..];
      assert all[|front|..] == bytes + rest;
      FieldIsRead(fields, slots, j, rest);
      FieldsAreRead(fields, slots, j + 1);
    }
  }

  /**
   A message that encodes is decoded exactly when every string in it leaves room for its NUL, and then it comes back as
   it was sent; the fields that were absent are at their defaults.
   */
  lemma {:induction false} MessageIsRead(fields: seq<Field>, slots: seq<Slot>)
    requires WellFormed(fields) && AllTyped(slots, fields)
    requires EncodeMessage(fields, slots).Some? && |EncodeMessage(fields, slots).value| < WORD_LIMIT
    ensures Decode(fields, EncodeMessage(fields, slots).value) ==
      if AllTerminated(fields, slots, |fields|) then Some(SentSlots(fields, slots)) else None
    decreases fields, 4
  {
    hide EncodeFields;
    hide ReadFields;
    hide SlotTerminated;
    hide EncodeMessage;
    hide Mixed;
    hide SentSlots;
    hide Defaults;
    hide SlotTyped;
    hide FieldOk;
    FieldsAreRead(fields, slots, 0);
    DefaultsTyped(fields);
    MixedStart(fields, slots);
    SeenAll(fields, |fields|);
    NoFields(fields, slots);
    assert EncodeMessage(fields, slots).value[0..] == EncodeMessage(fields, slots).value;
  }

  lemma MixedStart(fields: seq<Field>, slots: seq<Slot>)
    requires AllTyped(slots, fields)
    ensures Mixed(fields, slots, 0) == Defaults(fields)
  {
    hide SentSlots;
    hide DefaultSlot;
  }

  lemma NoFields(fields: seq<Field>, slots: seq<Slot>)
    requires AllTyped(slots, fields)
    ensures EncodeFields(fields, slots, 0) == Some([])
  {
  }

  // ----- nothing that is sent is lost -----

  lemma {:induction false} SentEncodesAlike(t: LType, v: Value)
    requires Typed(v, t) && TypeOk(t)
    ensures Typed(Sent(t, v), t) && EncodeValue(t, Sent(t, v)) == EncodeValue(t, v)
    decreases t, 0
  {
    hide EncodeFields;
    SentTyped(t, v);
    if t.Submessage? { SentMessageEncodesAlike(t.fields, v.slots, |t.fields|); }
  }

  lemma {:induction false} SentSlotEncodesAlike(f: Field, slot: Slot)
    requires SlotTyped(slot, f) && FieldOk(f)
    ensures SlotTyped(SentSlot(f, slot), f) && EncodeField(f, SentSlot(f, slot)) == EncodeField(f, slot)
    decreases f, 0
  {
    hide EncodeValue;
    SentSlotTyped(f, slot);
    match slot
    case One(v) => SentEncodesAlike(f.ltype, v);
    case Maybe(_, v) => SentEncodesAlike(f.ltype, v);
    case Many(items) =>
      var got := SentItems(f.ltype, items);
      assert got == [] <==> items == [];
      forall i | 0 <= i < |items|
        ensures Typed(got[i], f.ltype) && EncodeValue(f.ltype, got[i]) == EncodeValue(f.ltype, items[i])
      {
        SentEncodesAlike(f.ltype, items[i]);
      }
      ItemsEncodeAlike(f.tag, f.ltype, items, got, |items|);
  }

  lemma {:induction false} ItemsEncodeAlike(tag: nat, t: LType, a: seq<Value>, b: seq<Value>, n: nat)
    requires n <= |a| == |b|
    requires forall i | 0 <= i < |a| :: Typed(a[i], t) && Typed(b[i], t) && EncodeValue(t, a[i]) == EncodeValue(t, b[i])
    ensures EncodePacked(t, a, n) == EncodePacked(t, b, n)
    ensures EncodeUnpacked(tag, t, a, n) == EncodeUnpacked(tag, t, b, n)
    decreases n
  {
    hide EncodeValue;
    if n > 0 { ItemsEncodeAlike(tag, t, a, b, n - 1); }
  }

  /** Encoding the message that has come back gives the same bytes again. */
  lemma {:induction false} SentMessageEncodesAlike(fields: seq<Field>, slots: seq<Slot>, n: nat)
    requires WellFormed(fields) && AllTyped(slots, fields) && n <= |fields|
    ensures AllTyped(SentSlots(fields, slots), fields)
    ensures EncodeFields(fields, SentSlots(fields, slots), n) == EncodeFields(fields, slots, n)
    decreases fields, 0, n
  {
    hide EncodeField;
    hide SentSlot;
    SentAllTyped(fields, slots);
    if n > 0 {
      SentMessageEncodesAlike(fields, slots, n - 1);
      assert FieldOk(fields[n - 1]);
      SentSlotEncodesAlike(fields[n - 1], slots[n - 1]);
    }
  }
}
