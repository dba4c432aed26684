/**
 Messages of the nanopb codec (pb.h, pb_common.c): field descriptors and the values a message structure holds.  Only
 statically allocated fields: required, optional with a `has_` flag, and repeated with a count.
 */
module NanopbTypes {
  import opened InternalKeys
  import opened Coding

  /** PB_LTYPE; the number of a varint type, and that of a byte field, is its `data_size`. */
  datatype LType =
    | Bool
    | Signed(width: nat)
    | Unsigned(width: nat)
    | ZigZag(width: nat)
    | Fixed32
    | Fixed64
    | ByteField(dataSize: nat)
    | StringField(dataSize: nat)
    | Submessage(fields: seq<Field>)
    | FixedLengthBytes(dataSize: nat)

  /** PB_HTYPE, and the `array_size` of a repeated field. */
  datatype HType = Required | Optional | Repeated(arraySize: nat)

  /** `default` is what `ptr` points to, or zeros; a submessage has the defaults of its fields instead. */
  datatype Field = Field(tag: nat, htype: HType, ltype: LType, default: Value)

  /** Numbers, bytes (those of a string without the NUL), or the fields of a submessage. */
  datatype Value = Number(n: int) | Text(bytes: Bytes) | Message(slots: seq<Slot>)

  /** What a structure holds of a field; of a repeated one, the items below its count. */
  datatype Slot = One(value: Value) | Maybe(has: bool, value: Value) | Many(items: seq<Value>)

  /** sizeof(pb_size_t), and so the offset of the bytes in pb_bytes_array_t, with 32-bit field sizes. */
  const SIZE_BYTES := 4

  const TAG_LIMIT := 0x2000_0000

  predicate IsWidth(width: nat) {
    width == 1 || width == 2 || width == 4 || width == 8
  }

  /** Two to the power of `8 * width - 1`. */
  function Half(width: nat): (r: nat)
    requires IsWidth(width)
  {
    if width == 1 then 0x80 else if width == 2 then 0x8000 else if width == 4 then 0x8000_0000
      else 0x8000_0000_0000_0000
  }

  /** What C's types say of a value; a width that no integer has is an error of the descriptor. */
  ghost predicate Typed(v: Value, t: LType)
    decreases t
  {
    match t
    case Bool => v.Number? && 0 <= v.n <= 1
    case Signed(w) => v.Number? && (IsWidth(w) ==> v.n + Half(w) >= 0 && v.n < Half(w))
    case Unsigned(w) => v.Number? && (IsWidth(w) ==> 0 <= v.n < 2 * Half(w))
    case ZigZag(w) => v.Number? && (IsWidth(w) ==> v.n + Half(w) >= 0 && v.n < Half(w))
    case Fixed32 => v.Number? && 0 <= v.n < WORD_LIMIT
    case Fixed64 => v.Number? && 0 <= v.n < LONG_LIMIT
    case ByteField(_) => v.Text?
    case StringField(d) => v.Text? && |v.bytes| <= d && 0 !in v.bytes
    case Submessage(fields) => v.Message? && AllTyped(v.slots, fields)
    case FixedLengthBytes(d) => v.Text? && |v.bytes| == d
  }

  ghost predicate SlotTyped(slot: Slot, f: Field)
    decreases f
  {
    match f.htype
    case Required => slot.One? && Typed(slot.value, f.ltype)
    case Optional => slot.Maybe? && Typed(slot.value, f.ltype)
    case Repeated(_) => slot.Many? && forall i | 0 <= i < |slot.items| :: Typed(slot.items[i], f.ltype)
  }

  ghost predicate AllTyped(slots: seq<Slot>, fields: seq<Field>)
    decreases fields
  {
    |slots| == |fields| && forall i | 0 <= i < |fields| :: SlotTyped(slots[i], fields[i])
  }

  /** Tags are positive, fit 29 bits and differ; defaults have the type of their field. */
  ghost predicate WellFormed(fields: seq<Field>)
    decreases fields
  {
    && (forall i, j | 0 <= i < j < |fields| :: fields[i].tag != fields[j].tag)
    && forall i | 0 <= i < |fields| :: FieldOk(fields[i])
  }

  ghost predicate FieldOk(f: Field)
    decreases f
  {
    0 < f.tag < TAG_LIMIT && if f.ltype.Submessage? then WellFormed(f.ltype.fields) else Typed(f.default, f.ltype)
  }

  // ----- defaults -----

  /** What pb_message_set_to_defaults leaves. */
  function Defaults(fields: seq<Field>): (r: seq<Slot>)
    ensures |r| == |fields|
    decreases fields
  {
    seq(|fields|, i requires 0 <= i < |fields| => DefaultSlot(fields[i]))
  }

  function DefaultSlot(f: Field): (r: Slot)
    decreases f, 1
  {
    match f.htype
    case Required => One(DefaultValue(f))
    case Optional => Maybe(false, DefaultValue(f))
    case Repeated(_) => Many([])
  }

  function DefaultValue(f: Field): (r: Value)
    decreases f, 0
  {
    if f.ltype.Submessage? then Message(Defaults(f.ltype.fields)) else f.default
  }

  // ----- the field iterator -----

  /** How many of the first `n` fields are required. */
  function RequiredBefore(fields: seq<Field>, n: nat): (r: nat)
    requires n <= |fields|
    ensures r <= n
  {
    if n == 0 then 0 else RequiredBefore(fields, n - 1) + if fields[n - 1].htype.Required? then 1 else 0
  }

  /** The index `k` steps behind `start`, around the end. */
  function Around(start: nat, k: nat, n: nat): (r: nat)
    requires start < n && k < n
    ensures r < n
  {
    if start + k < n then start + k else start + k - n
  }

  /** Walks over the fields of a nonempty descriptor, around and around. */
  class FieldIter {
    const fields: seq<Field>
    var pos: nat
    var requiredFieldIndex: nat

    ghost predicate Valid()
      reads this
    {
      pos < |fields| && requiredFieldIndex == RequiredBefore(fields, pos)
    }

    constructor (fields: seq<Field>)
      requires fields != []
      ensures Valid() && this.fields == fields && pos == 0
    {
      this.fields := fields;
      pos, requiredFieldIndex := 0, 0;
    }

    /** False when it comes around to the first field. */
    method Next() returns (more: bool)
      requires Valid()
      modifies this
      ensures Valid() && more == (old(pos) + 1 < |fields|) && pos == if more then old(pos) + 1 else 0
    {
      var prev := fields[pos];
      pos := pos + 1;
      if pos == |fields| {
        pos, requiredFieldIndex := 0, 0;
        return false;
      }
      if prev.htype.Required? {
        requiredFieldIndex := requiredFieldIndex + 1;
      }
      more := true;
    }

    /** Goes to the field with the tag, wherever it stands. */
    method Find(tag: nat) returns (found: bool)
      requires Valid()
      modifies this
      ensures Valid() && found == exists i :: 0 <= i < |fields| && fields[i].tag == tag
      ensures if found then fields[pos].tag == tag else pos == old(pos)
    {
      var start := pos;
      ghost var seen := 0;
      while true
        invariant Valid() && seen < |fields| && pos == Around(start, seen, |fields|)
        invariant forall i {:trigger Around(start, i, |fields|)} | 0 <= i < seen ::
          fields[Around(start, i, |fields|)].tag != tag
        decreases |fields| - seen
      {
        if fields[pos].tag == tag {
          return true;
        }
        var more := Next();
        seen := seen + 1;
        if pos == start {
          break;
        }
      }
      NotAnywhere(fields, start, tag);
      found := false;
    }
  }

  lemma NotAnywhere(fields: seq<Field>, start: nat, tag: nat)
    requires start < |fields|
    requires forall i {:trigger Around(start, i, |fields|)} | 0 <= i < |fields| ::
      fields[Around(start, i, |fields|)].tag != tag
    ensures forall i | 0 <= i < |fields| :: fields[i].tag != tag
  {
    forall i | 0 <= i < |fields| ensures fields[i].tag != tag {
      var k := if i >= start then i - start else i - start + |fields|;
      assert Around(start, k, |fields|) == i;
    }
  }
}
