/**
 What the nanopb decoder accepts (pb_decode.c): field by field, whatever the bytes are.  Required fields that are
 missing, fields that the message does not have, and messages in pieces.
 */
module NanopbParses {
  import opened InternalKeys
  import opened Coding
  import opened NanopbTypes
  import opened NanopbEncode
  import opened NanopbDecode
  import opened NanopbRoundTrip
  import Spellings

  // ----- fields one after the other -----

  /** What the structure holds between two fields, and the bytes from there on. */
  datatype Reading = Reading(slots: seq<Slot>, rest: Bytes)

  /** One field: its key, and behind it a value for the structure, or as many bytes as its wire type says. */
  ghost predicate Step(fields: seq<Field>, a: Reading, b: Reading)
    requires WellFormed(fields) && AllTyped(a.slots, fields)
  {
    var key := ReadVarint32(a.rest);
    && key.Parsed? && key.value != 0
    && if !HasTag(fields, key.value / 8) then b.slots == a.slots && SkipField(key.value % 8, key.rest) == Some(b.rest)
       else
         var i := IndexOf(fields, key.value / 8);
         var slot := ReadSlot(fields[i], a.slots[i], key.value % 8, key.rest);
         slot.Parsed? && b == Reading(a.slots[i := slot.value], slot.rest)
  }

  ghost predicate Steps(fields: seq<Field>, run: seq<Reading>): (r: bool)
    requires WellFormed(fields)
    ensures r ==> run != [] && AllTyped(run[0].slots, fields)
  {
    && run != [] && AllTyped(run[0].slots, fields)
    && (|run| > 1 ==> Step(fields, run[0], run[1]) && Steps(fields, run[1..]))
  }

  /** The message is at its end, or at the zero that ends it early. */
  ghost predicate Ends(input: Bytes) {
    input == [] || (ReadVarint32(input).Parsed? && ReadVarint32(input).value == 0)
  }

  function KeyOf(input: Bytes): (r: nat) {
    var key := ReadVarint32(input);
    if key.Parsed? then key.value else 0
  }

  /** The tag is the key of one of the fields. */
  ghost predicate Names(run: seq<Reading>, tag: nat) {
    exists k :: 0 <= k < |run| - 1 && KeyOf(run[k].rest) / 8 == tag
  }

  /** One of the first required fields, which are the ones looked for. */
  predicate Tracked(fields: seq<Field>, i: nat)
    requires i < |fields|
  {
    fields[i].htype.Required? && RequiredBefore(fields, i) < MAX_REQUIRED_FIELDS
  }

  ghost predicate NamesRequired(fields: seq<Field>, run: seq<Reading>) {
    forall i | 0 <= i < |fields| && Tracked(fields, i) :: Names(run, fields[i].tag)
  }

  function Last(run: seq<Reading>): (r: Reading)
    requires run != []
  {
    run[|run| - 1]
  }

  /** The input is fields to its end, all tracked required ones among them, that lead from `slots` to `out`. */
  ghost predicate Accepts(fields: seq<Field>, slots: seq<Slot>, input: Bytes, run: seq<Reading>, out: seq<Slot>)
    requires WellFormed(fields)
  {
    && Steps(fields, run) && run[0] == Reading(slots, input) && Ends(Last(run).rest) && Last(run).slots == out
    && NamesRequired(fields, run)
  }

  ghost function SeenIn(fields: seq<Field>, seen: set<nat>, run: seq<Reading>): (r: set<nat>)
    decreases |run|
  {
    if |run| <= 1 then seen
    else
      var tag := KeyOf(run[0].rest) / 8;
      SeenIn(fields, if HasTag(fields, tag) then Seeing(fields, seen, IndexOf(fields, tag)) else seen, run[1..])
  }

  /** Fields one after the other are read one after the other. */
  lemma {:induction false} StepsAreRead(fields: seq<Field>, seen: set<nat>, run: seq<Reading>)
    requires WellFormed(fields) && Steps(fields, run)
    ensures AllTyped(Last(run).slots, fields)
    ensures ReadFields(fields, run[0].slots, seen, run[0].rest) ==
      ReadFields(fields, Last(run).slots, SeenIn(fields, seen, run), Last(run).rest)
    decreases |run|
  {
    hide ReadSlot;
    hide SkipField;
    hide Seeing;
    hide AllTyped;
    if |run| > 1 {
      var tag := KeyOf(run[0].rest) / 8;
      var seen' := if HasTag(fields, tag) then Seeing(fields, seen, IndexOf(fields, tag)) else seen;
      StepsAreRead(fields, seen', run[1..]);
    }
  }

  /** And what is read is such fields. */
  lemma {:induction false} ReadIsSteps(fields: seq<Field>, slots: seq<Slot>, seen: set<nat>, input: Bytes)
    returns (run: seq<Reading>)
    requires WellFormed(fields) && AllTyped(slots, fields)
    ensures Steps(fields, run) && run[0] == Reading(slots, input)
    ensures ReadFields(fields, slots, seen, input).Some? ==> Ends(Last(run).rest)
    decreases |input|
  {
    hide ReadSlot;
    hide SkipField;
    hide Seeing;
    hide AllTyped;
    hide ReadVarint32;
    var here := Reading(slots, input);
    run := [here];
    if !Ends(input) && ReadFields(fields, slots, seen, input).Some? {
      var key := ReadVarint32(input);
      if HasTag(fields, key.value / 8) {
        var i := IndexOf(fields, key.value / 8);
        KeepsTypes(fields, slots, i, key.value % 8, key.rest);
        var slot := ReadSlot(fields[i], slots[i], key.value % 8, key.rest);
        run := ReadIsSteps(fields, slots[i := slot.value], Seeing(fields, seen, i), slot.rest);
      } else {
        var rest := SkipField(key.value % 8, key.rest);
        run := ReadIsSteps(fields, slots, seen, rest.value);
      }
      assert ([here] + run)[1..] == run;
      run := [here] + run;
    }
  }

  lemma KeepsTypes(fields: seq<Field>, slots: seq<Slot>, i: nat, wireType: nat, input: Bytes)
    requires WellFormed(fields) && AllTyped(slots, fields) && i < |fields|
    ensures FieldOk(fields[i]) && |slots| == |fields| && SlotTyped(slots[i], fields[i])
    ensures var slot := ReadSlot(fields[i], slots[i], wireType, input);
      slot.Parsed? ==> AllTyped(slots[i := slot.value], fields)
  {
    hide ReadSlot;
    hide SlotTyped;
    hide FieldOk;
  }

  lemma NamesFirst(run: seq<Reading>, tag: nat)
    requires |run| > 1
    ensures Names(run, tag) <==> KeyOf(run[0].rest) / 8 == tag || Names(run[1..], tag)
  {
    hide KeyOf;
    if Names(run, tag) {
      var k :| 0 <= k < |run| - 1 && KeyOf(run[k].rest) / 8 == tag;
      if k > 0 { assert run[1..][k - 1] == run[k]; }
    }
    if Names(run[1..], tag) {
      var k :| 0 <= k < |run[1..]| - 1 && KeyOf(run[1..][k].rest) / 8 == tag;
      assert run[k + 1] == run[1..][k];
    }
  }

  lemma {:induction false} RequiredGrows(fields: seq<Field>, i: nat, j: nat)
    requires i < j <= |fields|
    ensures RequiredBefore(fields, i) + (if fields[i].htype.Required? then 1 else 0) <= RequiredBefore(fields, j)
    decreases j
  {
    if i + 1 < j { RequiredGrows(fields, i, j - 1); }
  }

  lemma {:induction false} SeenIsNamed(fields: seq<Field>, seen: set<nat>, run: seq<Reading>, i: nat)
    requires WellFormed(fields) && i < |fields| && Tracked(fields, i)
    ensures RequiredBefore(fields, i) in SeenIn(fields, seen, run) <==>
      RequiredBefore(fields, i) in seen || Names(run, fields[i].tag)
    decreases |run|
  {
    hide KeyOf;
    hide FieldOk;
    if |run| > 1 {
      var tag := KeyOf(run[0].rest) / 8;
      var seen' := if HasTag(fields, tag) then Seeing(fields, seen, IndexOf(fields, tag)) else seen;
      NamesFirst(run, fields[i].tag);
      SeenIsNamed(fields, seen', run[1..], i);
      if HasTag(fields, tag) {
        var j := IndexOf(fields, tag);
        if i < j { RequiredGrows(fields, i, j); }
        if j < i { RequiredGrows(fields, j, i); }
      }
    }
  }

  /** Every number below that of the required fields is that of one of them. */
  lemma {:induction false} NumberOf(fields: seq<Field>, k: nat, n: nat) returns (i: nat)
    requires n <= |fields| && k < RequiredBefore(fields, n)
    ensures i < n && fields[i].htype.Required? && RequiredBefore(fields, i) == k
    decreases n
  {
    if fields[n - 1].htype.Required? && RequiredBefore(fields, n - 1) == k { i := n - 1; }
    else { i := NumberOf(fields, k, n - 1); }
  }

  lemma AllSeenIffNamed(fields: seq<Field>, run: seq<Reading>)
    requires WellFormed(fields)
    ensures AllSeen(fields, SeenIn(fields, {}, run)) <==> NamesRequired(fields, run)
  {
    hide SeenIn;
    hide FieldOk;
    hide Names;
    var seen := SeenIn(fields, {}, run);
    if AllSeen(fields, seen) {
      forall i | 0 <= i < |fields| && Tracked(fields, i) ensures Names(run, fields[i].tag) {
        RequiredGrows(fields, i, |fields|);
        SeenIsNamed(fields, {}, run, i);
      }
    }
    if NamesRequired(fields, run) {
      forall k: nat | k < RequiredBefore(fields, |fields|) && k < MAX_REQUIRED_FIELDS ensures k in seen {
        var i := NumberOf(fields, k, |fields|);
        SeenIsNamed(fields, {}, run, i);
      }
    }
  }

  lemma EndIsRead(fields: seq<Field>, slots: seq<Slot>, seen: set<nat>, input: Bytes)
    requires WellFormed(fields) && AllTyped(slots, fields) && Ends(input)
    ensures ReadFields(fields, slots, seen, input) == Some((slots, seen))
  {
    hide AllTyped;
  }

  /**
   A message is accepted exactly if it is fields to its end with every one of the first 64 required fields among them;
   and the structure holds what the fields make of it, one after the other.
   */
  lemma {:induction false} AcceptedIff(fields: seq<Field>, slots: seq<Slot>, input: Bytes, out: seq<Slot>)
    requires WellFormed(fields) && AllTyped(slots, fields)
    ensures ReadMessage(fields, slots, input) == Some(out) <==> exists run :: Accepts(fields, slots, input, run, out)
  {
    hide ReadFields;
    hide Steps;
    hide SeenIn;
    hide AllSeen;
    hide NamesRequired;
    hide AllTyped;
    hide Ends;
    if ReadMessage(fields, slots, input) == Some(out) {
      var run := ReadIsSteps(fields, slots, {}, input);
      RunIsRead(fields, run);
      assert Accepts(fields, slots, input, run, out);
    }
    if exists run :: Accepts(fields, slots, input, run, out) {
      var run :| Accepts(fields, slots, input, run, out);
      RunIsRead(fields, run);
    }
  }

  lemma RunIsRead(fields: seq<Field>, run: seq<Reading>)
    requires WellFormed(fields) && Steps(fields, run) && Ends(Last(run).rest)
    ensures ReadFields(fields, run[0].slots, {}, run[0].rest) == Some((Last(run).slots, SeenIn(fields, {}, run)))
    ensures AllSeen(fields, SeenIn(fields, {}, run)) <==> NamesRequired(fields, run)
  {
    hide ReadFields;
    hide SeenIn;
    hide AllSeen;
    hide NamesRequired;
    hide Ends;
    hide AllTyped;
    StepsAreRead(fields, {}, run);
    EndIsRead(fields, Last(run).slots, SeenIn(fields, {}, run), Last(run).rest);
    AllSeenIffNamed(fields, run);
  }

  /** A message without one of them is refused, whatever else is in it. */
  lemma MissingIsRefused(fields: seq<Field>, slots: seq<Slot>, input: Bytes, i: nat)
    requires WellFormed(fields) && AllTyped(slots, fields) && i < |fields| && Tracked(fields, i)
    requires forall run | Steps(fields, run) && run[0] == Reading(slots, input) :: !Names(run, fields[i].tag)
    ensures ReadMessage(fields, slots, input) == None
  {
    hide ReadMessage;
    hide Steps;
    hide Names;
    hide AllTyped;
    var r := ReadMessage(fields, slots, input);
    if r.Some? {
      AcceptedIff(fields, slots, input, r.value);
    }
  }

  // ----- more bytes behind -----

  lemma {:induction false} Varint32More(input: Bytes, more: Bytes, bitpos: nat, weight: nat, result: Word)
    ensures var r := Varint32From(input, bitpos, weight, result);
      r.Parsed? ==> Varint32From(input + more, bitpos, weight, result) == Parsed(r.value, r.rest + more)
    decreases |input|
  {
    if input != [] {
      assert (input + more)[1..] == input[1..] + more;
      if input[0] >= 128 {
        Varint32More(input[1..], more, bitpos + 7, weight * 128, result);
        Varint32More(input[1..], more, bitpos + 7, weight * 128, (result + input[0] % 128 * weight) % WORD_LIMIT);
      }
    }
  }

  lemma {:induction false} VarintMore(input: Bytes, more: Bytes, k: nat, weight: nat, result: nat, most: nat,
      limit: nat)
    requires limit > 0
    ensures var r := VarintFrom(input, k, weight, result, most, limit);
      r.Parsed? ==> VarintFrom(input + more, k, weight, result, most, limit) == Parsed(r.value, r.rest + more)
    decreases |input|
  {
    if input != [] {
      assert (input + more)[1..] == input[1..] + more;
      var result' := (result + input[0] % 128 * weight % limit) % limit;
      VarintMore(input[1..], more, k + 1, weight * 128, result', most, limit);
    }
  }

  lemma Varint64More(input: Bytes, more: Bytes)
    ensures var r := DecodeVarint64(input);
      r.Parsed? ==> DecodeVarint64(input + more) == Parsed(r.value, r.rest + more)
  {
    hide VarintFrom;
    VarintMore(input, more, 0, 1, 0, 10, LONG_LIMIT);
  }

  lemma KeyMore(input: Bytes, more: Bytes)
    ensures var r := ReadVarint32(input);
      r.Parsed? ==> ReadVarint32(input + more) == Parsed(r.value, r.rest + more)
  {
    hide Varint32From;
    Varint32More(input, more, 0, 1, 0);
  }

  lemma StringMore(input: Bytes, more: Bytes)
    ensures var r := ReadString(input);
      r.Parsed? ==> ReadString(input + more) == Parsed(r.value, r.rest + more)
  {
    hide ReadVarint32;
    KeyMore(input, more);
    var n := ReadVarint32(input);
    if n.Parsed? && |n.rest| >= n.value {
      assert (n.rest + more)[..n.value] == n.rest[..n.value];
      assert (n.rest + more)[n.value..] == n.rest[n.value..] + more;
    }
  }

  lemma FixedMore(input: Bytes, more: Bytes)
    ensures |input| >= 4 ==> DecodeFixed32(input + more) == DecodeFixed32(input)
    ensures |input| >= 4 ==> (input + more)[4..] == input[4..] + more
    ensures |input| >= 8 ==> DecodeFixed64(input + more) == DecodeFixed64(input)
    ensures |input| >= 8 ==> (input + more)[8..] == input[8..] + more
  {
  }

  lemma ScalarMore(t: LType, input: Bytes, more: Bytes)
    requires !t.Submessage?
    ensures var r := ReadScalar(t, input);
      r.Parsed? ==> ReadScalar(t, input + more) == Parsed(r.value, r.rest + more)
  {
    hide ReadVarint32;
    hide DecodeVarint64;
    hide ReadString;
    hide DecodeFixed32;
    hide DecodeFixed64;
    hide AsSigned;
    hide UnZigZag;
    hide UpToNul;
    KeyMore(input, more);
    Varint64More(input, more);
    StringMore(input, more);
    FixedMore(input, more);
  }

  lemma ValueMore(t: LType, was: Value, input: Bytes, more: Bytes)
    requires TypeOk(t) && Typed(was, t)
    ensures var r := ReadValue(t, was, input);
      r.Parsed? ==> ReadValue(t, was, input + more) == Parsed(r.value, r.rest + more)
  {
    hide ReadScalar;
    hide ReadString;
    hide ReadMessage;
    StringMore(input, more);
    if !t.Submessage? { ScalarMore(t, input, more); }
  }

  lemma SlotMore(f: Field, slot: Slot, wireType: nat, input: Bytes, more: Bytes)
    requires FieldOk(f) && SlotTyped(slot, f)
    ensures var r := ReadSlot(f, slot, wireType, input);
      r.Parsed? ==> ReadSlot(f, slot, wireType, input + more) == Parsed(r.value, r.rest + more)
  {
    hide ReadValue;
    hide ReadString;
    hide ReadPacked;
    match slot
    case One(was) => ValueMore(f.ltype, was, input, more);
    case Maybe(_, was) => ValueMore(f.ltype, was, input, more);
    case Many(items) =>
      StringMore(input, more);
      DefaultTyped(f);
      ValueMore(f.ltype, DefaultValue(f), input, more);
  }

  lemma {:induction false} SkipVarintMore(input: Bytes, more: Bytes)
    ensures var r := SkipVarint(input); r.Some? ==> SkipVarint(input + more) == Some(r.value + more)
    decreases |input|
  {
    if input != [] {
      assert (input + more)[1..] == input[1..] + more;
      SkipVarintMore(input[1..], more);
    }
  }

  lemma SkipMore(wireType: nat, input: Bytes, more: Bytes)
    ensures var r := SkipField(wireType, input);
      r.Some? ==> SkipField(wireType, input + more) == Some(r.value + more)
  {
    hide SkipVarint;
    hide ReadString;
    SkipVarintMore(input, more);
    StringMore(input, more);
    FixedMore(input, more);
  }

  function Behind(a: Reading, more: Bytes): (r: Reading) {
    a.(rest := a.rest + more)
  }

  lemma StepMore(fields: seq<Field>, a: Reading, b: Reading, more: Bytes)
    requires WellFormed(fields) && AllTyped(a.slots, fields) && Step(fields, a, b)
    ensures Step(fields, Behind(a, more), Behind(b, more)) && KeyOf(Behind(a, more).rest) == KeyOf(a.rest)
  {
    hide ReadVarint32;
    hide SkipField;
    hide ReadSlot;
    KeyMore(a.rest, more);
    var key := ReadVarint32(a.rest);
    if HasTag(fields, key.value / 8) {
      var i := IndexOf(fields, key.value / 8);
      KeepsTypes(fields, a.slots, i, key.value % 8, key.rest);
      SlotMore(fields[i], a.slots[i], key.value % 8, key.rest, more);
    } else {
      SkipMore(key.value % 8, key.rest, more);
    }
  }

  function AllBehind(run: seq<Reading>, more: Bytes): (r: seq<Reading>)
    ensures |r| == |run| && forall k | 0 <= k < |r| :: r[k] == Behind(run[k], more)
  {
    seq(|run|, k requires 0 <= k < |run| => Behind(run[k], more))
  }

  lemma {:induction false} StepsMore(fields: seq<Field>, run: seq<Reading>, more: Bytes)
    requires WellFormed(fields) && Steps(fields, run)
    ensures Steps(fields, AllBehind(run, more))
    ensures forall seen :: SeenIn(fields, seen, AllBehind(run, more)) == SeenIn(fields, seen, run)
    decreases |run|
  {
    hide Step;
    hide AllTyped;
    hide Seeing;
    hide KeyOf;
    if |run| > 1 {
      StepMore(fields, run[0], run[1], more);
      StepsMore(fields, run[1..], more);
      assert AllBehind(run, more)[1..] == AllBehind(run[1..], more);
    }
  }

  /**
   Messages laid end to end are decoded into the structure one after the other: fields that both have get their last
   value, or are merged, or added to the array.
   */
  lemma {:induction false} ConcatIsMerge(fields: seq<Field>, run: seq<Reading>, more: Bytes)
    requires WellFormed(fields) && Steps(fields, run) && Last(run).rest == []
    ensures AllTyped(Last(run).slots, fields)
    ensures ReadFields(fields, run[0].slots, {}, run[0].rest + more) ==
      ReadFields(fields, Last(run).slots, SeenIn(fields, {}, run), more)
  {
    hide ReadFields;
    hide Steps;
    hide AllTyped;
    StepsMore(fields, run, more);
    StepsAreRead(fields, {}, run);
    StepsAreRead(fields, {}, AllBehind(run, more));
    assert [] + more == more;
  }

  // ----- unknown fields -----

  /** As many bytes as a field of that wire type has. */
  ghost predicate IsPayload(wireType: nat, bytes: Bytes) {
    || (wireType == WT_VARINT && Spellings.IsVarint(bytes))
    || (wireType == WT_64BIT && |bytes| == 8)
    || (wireType == WT_32BIT && |bytes| == 4)
    || (wireType == WT_STRING && exists s: Bytes | |s| < WORD_LIMIT :: bytes == WithLength(s))
  }

  lemma {:induction false} VarintIsSkipped(bytes: Bytes, rest: Bytes)
    requires Spellings.IsVarint(bytes)
    ensures SkipVarint(bytes + rest) == Some(rest)
    decreases |bytes|
  {
    assert (bytes + rest)[1..] == bytes[1..] + rest;
    if |bytes| > 1 { VarintIsSkipped(bytes[1..], rest); } else { assert bytes[1..] + rest == rest; }
  }

  lemma PayloadIsSkipped(wireType: nat, bytes: Bytes, rest: Bytes)
    requires IsPayload(wireType, bytes)
    ensures SkipField(wireType, bytes + rest) == Some(rest)
  {
    hide SkipVarint;
    hide ReadString;
    hide WithLength;
    if wireType == WT_VARINT {
      VarintIsSkipped(bytes, rest);
    } else if wireType == WT_STRING {
      var s :| |s| < WORD_LIMIT && bytes == WithLength(s);
      StringIsRead(s, rest);
    }
  }

  /** The key of a field that the message does not have. */
  predicate IsOther(fields: seq<Field>, tag: nat, wireType: nat) {
    wireType < 8 && 0 < 8 * tag + wireType < WORD_LIMIT && forall i | 0 <= i < |fields| :: fields[i].tag != tag
  }

  /** A field that the message does not have changes nothing, wherever it stands between two others. */
  lemma {:induction false} UnknownIsSkipped(fields: seq<Field>, run: seq<Reading>, tag: nat, wireType: nat,
      payload: Bytes, more: Bytes)
    requires WellFormed(fields) && Steps(fields, run) && Last(run).rest == []
    requires IsOther(fields, tag, wireType) && IsPayload(wireType, payload)
    ensures ReadMessage(fields, run[0].slots, run[0].rest + (TagBytes(tag, wireType) + payload + more)) ==
      ReadMessage(fields, run[0].slots, run[0].rest + more)
  {
    hide ReadFields;
    hide Steps;
    hide AllTyped;
    hide SkipField;
    hide TagBytes;
    hide AllSeen;
    hide SeenIn;
    ConcatIsMerge(fields, run, more);
    ConcatIsMerge(fields, run, TagBytes(tag, wireType) + payload + more);
    OtherIsRead(fields, Last(run).slots, SeenIn(fields, {}, run), tag, wireType, payload + more);
    PayloadIsSkipped(wireType, payload, more);
    assert TagBytes(tag, wireType) + payload + more == TagBytes(tag, wireType) + (payload + more);
  }

  lemma OtherIsRead(fields: seq<Field>, slots: seq<Slot>, seen: set<nat>, tag: nat, wireType: nat, more: Bytes)
    requires WellFormed(fields) && AllTyped(slots, fields) && IsOther(fields, tag, wireType)
    ensures ReadFields(fields, slots, seen, TagBytes(tag, wireType) + more) ==
      var rest := SkipField(wireType, more);
      if rest.Some? then ReadFields(fields, slots, seen, rest.value) else None
  {
    hide AllTyped;
    hide SkipField;
    hide Varint32From;
    Varint32IsRead(8 * tag + wireType, more);
  }

  /** With any other wire type it ends the decoding in an error. */
  lemma {:induction false} BadWireTypeIsRefused(fields: seq<Field>, run: seq<Reading>, tag: nat, wireType: nat,
      more: Bytes)
    requires WellFormed(fields) && Steps(fields, run) && Last(run).rest == []
    requires IsOther(fields, tag, wireType) && wireType !in {WT_VARINT, WT_64BIT, WT_STRING, WT_32BIT}
    ensures ReadMessage(fields, run[0].slots, run[0].rest + (TagBytes(tag, wireType) + more)) == None
  {
    hide ReadFields;
    hide Steps;
    hide AllTyped;
    hide TagBytes;
    ConcatIsMerge(fields, run, TagBytes(tag, wireType) + more);
    OtherIsRead(fields, Last(run).slots, SeenIn(fields, {}, run), tag, wireType, more);
  }

  lemma {:induction false} VarintEnds(n: nat)
    ensures Spellings.IsVarint(Varint(n))
  {
    if n >= 128 {
      VarintEnds(n / 128);
      assert Varint(n)[1..] == Varint(n / 128);
      forall k | 0 <= k < |Varint(n)| ensures Varint(n)[k] < 128 <==> k == |Varint(n)| - 1 {
        if k > 0 { assert Varint(n)[k] == Varint(n)[1..][k - 1]; }
      }
    }
  }

  /** What the encoder writes has the wire type that it writes in front of it. */
  lemma EncodedIsPayload(t: LType, v: Value)
    requires Typed(v, t) && EncodeValue(t, v).Some? && |EncodeValue(t, v).value| < WORD_LIMIT
    ensures IsPayload(WireType(t), EncodeValue(t, v).value)
  {
    hide Varint;
    hide EncodeFields;
    hide Spellings.IsVarint;
    match t
    case Bool => VarintEnds(v.n);
    case Signed(w) => VarintEnds(ToUnsigned(v.n));
    case Unsigned(w) => VarintEnds(v.n);
    case ZigZag(w) => VarintEnds(ZigZagged(v.n));
    case Submessage(fields) => assert |EncodeFields(fields, v.slots, |fields|).value| < WORD_LIMIT;
    case _ =>
  }

  lemma TaggedIsSkipped(fields: seq<Field>, run: seq<Reading>, tag: nat, t: LType, v: Value, more: Bytes)
    requires WellFormed(fields) && Steps(fields, run) && Last(run).rest == []
    requires 0 < tag < TAG_LIMIT && !HasTag(fields, tag)
    requires Typed(v, t) && EncodeTagged(tag, t, v).Some? && |EncodeTagged(tag, t, v).value| < WORD_LIMIT
    ensures ReadMessage(fields, run[0].slots, run[0].rest + (EncodeTagged(tag, t, v).value + more)) ==
      ReadMessage(fields, run[0].slots, run[0].rest + more)
  {
    hide ReadMessage;
    hide Steps;
    hide EncodeValue;
    hide IsPayload;
    hide TagBytes;
    EncodedIsPayload(t, v);
    UnknownIsSkipped(fields, run, tag, WireType(t), EncodeValue(t, v).value, more);
  }

  lemma {:induction false} ItemsAreSkipped(fields: seq<Field>, run: seq<Reading>, tag: nat, t: LType,
      items: seq<Value>, n: nat, more: Bytes)
    requires WellFormed(fields) && Steps(fields, run) && Last(run).rest == []
    requires 0 < tag < TAG_LIMIT && !HasTag(fields, tag)
    requires n <= |items| && forall i | 0 <= i < |items| :: Typed(items[i], t)
    requires EncodeUnpacked(tag, t, items, n).Some? && |EncodeUnpacked(tag, t, items, n).value| < WORD_LIMIT
    ensures ReadMessage(fields, run[0].slots, run[0].rest + (EncodeUnpacked(tag, t, items, n).value + more)) ==
      ReadMessage(fields, run[0].slots, run[0].rest + more)
    decreases n
  {
    hide ReadMessage;
    hide Steps;
    hide EncodeTagged;
    if n == 0 {
      assert [] + more == more;
    } else {
      var front, item := EncodeUnpacked(tag, t, items, n - 1).value, EncodeTagged(tag, t, items[n - 1]).value;
      ItemsAreSkipped(fields, run, tag, t, items, n - 1, item + more);
      TaggedIsSkipped(fields, run, tag, t, items[n - 1], more);
      assert front + item + more == front + (item + more);
    }
  }

  /** A reader whose message lacks the field decodes what is sent by one that has it as if it were absent. */
  lemma {:induction false} OlderReaderSkips(fields: seq<Field>, run: seq<Reading>, f: Field, slot: Slot, more: Bytes)
    requires WellFormed(fields) && Steps(fields, run) && Last(run).rest == []
    requires 0 < f.tag < TAG_LIMIT && !HasTag(fields, f.tag)
    requires SlotTyped(slot, f) && EncodeField(f, slot).Some? && |EncodeField(f, slot).value| < WORD_LIMIT
    ensures ReadMessage(fields, run[0].slots, run[0].rest + (EncodeField(f, slot).value + more)) ==
      ReadMessage(fields, run[0].slots, run[0].rest + more)
  {
    hide ReadMessage;
    hide Steps;
    hide EncodeTagged;
    hide EncodePacked;
    hide EncodeUnpacked;
    hide TagBytes;
    hide WithLength;
    assert [] + more == more;
    match slot
    case One(v) => TaggedIsSkipped(fields, run, f.tag, f.ltype, v, more);
    case Maybe(has, v) => if has { TaggedIsSkipped(fields, run, f.tag, f.ltype, v, more); }
    case Many(items) =>
      if items != [] && Packable(f.ltype) {
        var body := EncodePacked(f.ltype, items, |items|).value;
        BodyIsShort(TagBytes(f.tag, WT_STRING), body);
        UnknownIsSkipped(fields, run, f.tag, WT_STRING, WithLength(body), more);
      } else if items != [] {
        ItemsAreSkipped(fields, run, f.tag, f.ltype, items, |items|, more);
      }
  }

  lemma BodyIsShort(tag: Bytes, body: Bytes)
    requires |tag + WithLength(body)| < WORD_LIMIT
    ensures IsPayload(WT_STRING, WithLength(body))
  {
  }

  // ----- fields that come more than once -----

  /** Of a plain field the last value stays, whatever was there. */
  lemma LastValueStays(f: Field, was: Slot, other: Slot, wireType: nat, input: Bytes)
    requires FieldOk(f) && SlotTyped(was, f) && SlotTyped(other, f)
    requires !f.htype.Repeated? && !f.ltype.Submessage?
    ensures ReadSlot(f, was, wireType, input) == ReadSlot(f, other, wireType, input)
  {
    hide ReadScalar;
  }

  lemma {:induction false} SeenGrows(fields: seq<Field>, seen: set<nat>, run: seq<Reading>)
    ensures seen <= SeenIn(fields, seen, run)
    decreases |run|
  {
    hide KeyOf;
    if |run| > 1 {
      var tag := KeyOf(run[0].rest) / 8;
      SeenGrows(fields, if HasTag(fields, tag) then Seeing(fields, seen, IndexOf(fields, tag)) else seen, run[1..]);
    }
  }

  /** What comes in pieces is as if it came at once. */
  lemma {:induction false} PiecesAreMerged(fields: seq<Field>, run: seq<Reading>, more: Bytes)
    requires WellFormed(fields) && Steps(fields, run) && Last(run).rest == [] && NamesRequired(fields, run)
    ensures AllTyped(Last(run).slots, fields)
    ensures ReadMessage(fields, Last(run).slots, more).Some? ==>
      ReadMessage(fields, run[0].slots, run[0].rest + more) == ReadMessage(fields, Last(run).slots, more)
  {
    hide ReadFields;
    hide Steps;
    hide AllTyped;
    hide SeenIn;
    hide AllSeen;
    hide NamesRequired;
    hide Ends;
    ConcatIsMerge(fields, run, more);
    AllSeenIffNamed(fields, run);
    var slots, seen := Last(run).slots, SeenIn(fields, {}, run);
    if ReadMessage(fields, slots, more).Some? {
      var run' := ReadIsSteps(fields, slots, {}, more);
      RunIsRead(fields, run');
      StepsAreRead(fields, seen, run');
      EndIsRead(fields, Last(run').slots, SeenIn(fields, seen, run'), Last(run').rest);
      SeenGrows(fields, seen, run');
      SeenMore(fields, seen, SeenIn(fields, seen, run'));
    }
  }

  lemma SeenMore(fields: seq<Field>, seen: set<nat>, seen': set<nat>)
    requires seen <= seen' && AllSeen(fields, seen)
    ensures AllSeen(fields, seen')
  {
    hide RequiredBefore;
  }

  /** A submessage sent in two fields is the submessage sent in one. */
  lemma {:induction false} SubmessageIsMerged(fields: seq<Field>, run: seq<Reading>, more: Bytes)
    requires WellFormed(fields) && Steps(fields, run) && Last(run).rest == [] && NamesRequired(fields, run)
    requires |run[0].rest + more| < WORD_LIMIT
    ensures AllTyped(Last(run).slots, fields)
    ensures var t, was := Submessage(fields), Message(run[0].slots);
      var first := ReadValue(t, was, WithLength(run[0].rest));
      && first == Parsed(Message(Last(run).slots), [])
      && (ReadValue(t, first.value, WithLength(more)).Parsed? ==>
           ReadValue(t, was, WithLength(run[0].rest + more)) == ReadValue(t, first.value, WithLength(more)))
  {
    hide ReadMessage;
    hide Steps;
    hide AllTyped;
    hide NamesRequired;
    hide ReadString;
    hide WithLength;
    PiecesAreMerged(fields, run, more);
    FirstPiece(fields, run);
    AllOf(run[0].rest);
    AllOf(more);
    AllOf(run[0].rest + more);
  }

  lemma AllOf(bytes: Bytes)
    requires |bytes| < WORD_LIMIT
    ensures ReadString(WithLength(bytes)) == Parsed(bytes, [])
  {
    hide ReadString;
    hide WithLength;
    StringIsRead(bytes, []);
    assert WithLength(bytes) + [] == WithLength(bytes);
  }

  lemma FirstPiece(fields: seq<Field>, run: seq<Reading>)
    requires WellFormed(fields) && Steps(fields, run) && Last(run).rest == [] && NamesRequired(fields, run)
    ensures ReadMessage(fields, run[0].slots, run[0].rest) == Some(Last(run).slots)
  {
    hide ReadFields;
    hide Steps;
    hide SeenIn;
    hide AllSeen;
    hide AllTyped;
    hide NamesRequired;
    RunIsRead(fields, run);
  }
}
