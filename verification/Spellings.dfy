/**
 What the decoders accept, of any bytes: exactly what is spelled as the formats say (util/coding.cc, write_batch.cc,
 version_edit.cc, table/format.cc).  A number may be spelled with more bytes than it needs, so the encoders' output is
 only one of its spellings.
 */
module Spellings {
  import opened InternalKeys
  import opened Coding
  import opened EditCoding
  import opened TableFormat
  import opened Versions
  import opened WriteBatches

  // ----- numbers -----

  /** The last byte, and only the last, is below 128. */
  predicate IsVarint(bytes: Bytes) {
    bytes != [] && forall k | 0 <= k < |bytes| :: bytes[k] < 128 <==> k == |bytes| - 1
  }

  /** Seven bits a byte, the lowest first. */
  function Base128(bytes: Bytes): (r: nat) {
    if bytes == [] then 0 else bytes[0] % 128 + 128 * Base128(bytes[1..])
  }

  /** The bytes spell the number, but for bits above the limit. */
  predicate Spells(bytes: Bytes, v: nat, most: nat, limit: nat)
    requires limit > 0
  {
    IsVarint(bytes) && |bytes| <= most && Base128(bytes) % limit == v
  }

  predicate Spells32(bytes: Bytes, v: nat) {
    Spells(bytes, v, 5, WORD_LIMIT)
  }

  predicate Spells64(bytes: Bytes, v: nat) {
    Spells(bytes, v, 10, LONG_LIMIT)
  }

  /** Up to the first byte below 128, or 0 if there is none. */
  function VarintEnd(input: Bytes): (n: nat)
    ensures n <= |input|
    ensures var length := n; length > 0 ==> IsVarint(input[..length])
    ensures n == 0 ==> forall k | 0 <= k < |input| :: input[k] >= 128
  {
    if input == [] then 0
    else if input[0] < 128 then 1
    else
      var n := VarintEnd(input[1..]);
      assert n > 0 ==> input[..n + 1] == [input[0]] + input[1..][..n];
      assert n == 0 ==> forall k | 0 < k < |input| :: input[k] == input[1..][k - 1];
      if n == 0 then 0 else n + 1
  }

  lemma {:induction false} OneVarint(bytes: Bytes, rest: Bytes)
    requires IsVarint(bytes)
    ensures VarintEnd(bytes + rest) == |bytes|
  {
    assert (bytes + rest)[..|bytes|] == bytes;
    OneEnd(bytes + rest, |bytes|);
  }

  lemma {:induction false} OneEnd(input: Bytes, m: nat)
    requires m <= |input| && IsVarint(input[..m])
    ensures VarintEnd(input) == m
  {
    assert input[..m][0] == input[0] && input[..m][m - 1] == input[m - 1];
    if m > 1 {
      assert input[1..][..m - 1] == input[..m][1..];
      assert IsVarint(input[1..][..m - 1]);
      OneEnd(input[1..], m - 1);
    }
  }

  predicate IsLimit(limit: nat) {
    limit == WORD_LIMIT || limit == LONG_LIMIT
  }

  lemma ModOfSum32(a: nat, b: nat)
    ensures (a % WORD_LIMIT + b) % WORD_LIMIT == (a + b) % WORD_LIMIT
  {
  }

  lemma ModOfSum64(a: nat, b: nat)
    ensures (a % LONG_LIMIT + b) % LONG_LIMIT == (a + b) % LONG_LIMIT
  {
  }

  lemma ModOfSum(a: nat, b: nat, limit: nat)
    requires IsLimit(limit)
    ensures (a % limit + b) % limit == (a + b) % limit
  {
    if limit == WORD_LIMIT { ModOfSum32(a, b); } else { ModOfSum64(a, b); }
  }

  function Times(a: nat, b: nat): (r: nat) {
    a * b
  }

  /** One turn of the decoding loop. */
  lemma {:induction false} TurnIs(weight: nat, result: nat, b: nat, more: nat, limit: nat)
    requires IsLimit(limit)
    ensures ((result + b * weight % limit) % limit + Times(weight * 128, more)) % limit ==
      (result + Times(weight, b + 128 * more)) % limit
    ensures (result + b * weight % limit) % limit == (result + Times(weight, b)) % limit
  {
    var bits, rest := b * weight, weight * 128 * more;
    ModOfSum(bits, result, limit);
    ModOfSum(result + bits, rest, limit);
    assert weight * (b + 128 * more) == bits + rest;
  }

  lemma Base128Steps(bytes: Bytes)
    requires bytes != []
    ensures Base128(bytes) == bytes[0] % 128 + 128 * Base128(bytes[1..])
    ensures |bytes| == 1 ==> Base128(bytes) == bytes[0] % 128
  {
  }

  /** The decoding loop stops at the end of the first varint and keeps the bits below the limit. */
  lemma {:induction false} VarintFromIs(input: Bytes, k: nat, weight: nat, result: nat, most: nat, limit: nat)
    requires IsLimit(limit)
    ensures var n := VarintEnd(input);
      VarintFrom(input, k, weight, result, most, limit) ==
        if n == 0 || k + n > most then Malformed
        else Parsed((result + Times(weight, Base128(input[..n]))) % limit, input[n..])
    decreases |input|
  {
    hide IsVarint;
    hide Base128;
    hide Times;
    if input != [] && k < most {
      var b, n := input[0] % 128, VarintEnd(input);
      var result' := (result + b * weight % limit) % limit;
      if input[0] < 128 {
        TurnIs(weight, result, b, 0, limit);
        Base128Steps(input[..1]);
      } else {
        VarintFromIs(input[1..], k + 1, weight * 128, result', most, limit);
        if n > 0 {
          Base128Steps(input[..n]);
          assert input[..n][1..] == input[1..][..n - 1] && input[1..][n - 1..] == input[n..];
          TurnIs(weight, result, b, Base128(input[..n][1..]), limit);
        }
      }
    }
  }

  lemma VarintIsRead(bytes: Bytes, v: nat, rest: Bytes, most: nat, limit: nat)
    requires IsLimit(limit) && Spells(bytes, v, most, limit)
    ensures VarintFrom(bytes + rest, 0, 1, 0, most, limit) == Parsed(v, rest)
  {
    hide VarintFrom;
    hide Base128;
    VarintFromIs(bytes + rest, 0, 1, 0, most, limit);
    OneVarint(bytes, rest);
    assert (bytes + rest)[..|bytes|] == bytes && (bytes + rest)[|bytes|..] == rest;
  }

  lemma ReadIsVarint(input: Bytes, most: nat, limit: nat) returns (bytes: Bytes)
    requires IsLimit(limit) && VarintFrom(input, 0, 1, 0, most, limit).Parsed?
    ensures var r := VarintFrom(input, 0, 1, 0, most, limit);
      Spells(bytes, r.value, most, limit) && input == bytes + r.rest
  {
    hide VarintFrom;
    hide Base128;
    VarintFromIs(input, 0, 1, 0, most, limit);
    bytes := input[..VarintEnd(input)];
  }

  lemma Read32(bytes: Bytes, v: Word, rest: Bytes)
    requires Spells32(bytes, v)
    ensures DecodeVarint32(bytes + rest) == Parsed(v, rest)
  {
    hide VarintFrom;
    hide Base128;
    hide IsVarint;
    VarintIsRead(bytes, v, rest, 5, WORD_LIMIT);
  }

  lemma Spelled32(input: Bytes) returns (bytes: Bytes)
    requires DecodeVarint32(input).Parsed?
    ensures var r := DecodeVarint32(input); Spells32(bytes, r.value) && input == bytes + r.rest
  {
    hide VarintFrom;
    hide Base128;
    hide IsVarint;
    bytes := ReadIsVarint(input, 5, WORD_LIMIT);
  }

  lemma Read64(bytes: Bytes, v: nat, rest: Bytes)
    requires Spells64(bytes, v)
    ensures DecodeVarint64(bytes + rest) == Parsed(v, rest)
  {
    hide VarintFrom;
    hide Base128;
    hide IsVarint;
    VarintIsRead(bytes, v, rest, 10, LONG_LIMIT);
  }

  lemma Spelled64(input: Bytes) returns (bytes: Bytes)
    requires DecodeVarint64(input).Parsed?
    ensures var r := DecodeVarint64(input); Spells64(bytes, r.value) && input == bytes + r.rest
  {
    hide VarintFrom;
    hide Base128;
    hide IsVarint;
    bytes := ReadIsVarint(input, 10, LONG_LIMIT);
  }

  /** A number of 32 bits is at most five bytes, the last of them below 128; bits above the 32nd are lost. */
  lemma {:induction false} DecodeVarint32Iff(input: Bytes, v: Word, rest: Bytes)
    ensures DecodeVarint32(input) == Parsed(v, rest) <==> exists bytes :: Spells32(bytes, v) && input == bytes + rest
  {
    hide DecodeVarint32;
    hide Spells32;
    if DecodeVarint32(input) == Parsed(v, rest) {
      var bytes := Spelled32(input);
    }
    if exists bytes :: Spells32(bytes, v) && input == bytes + rest {
      var bytes :| Spells32(bytes, v) && input == bytes + rest;
      Read32(bytes, v, rest);
    }
  }

  /** One of 64 bits is at most ten. */
  lemma {:induction false} DecodeVarint64Iff(input: Bytes, v: nat, rest: Bytes)
    ensures DecodeVarint64(input) == Parsed(v, rest) <==> exists bytes :: Spells64(bytes, v) && input == bytes + rest
  {
    hide DecodeVarint64;
    hide Spells64;
    if DecodeVarint64(input) == Parsed(v, rest) {
      var bytes := Spelled64(input);
    }
    if exists bytes :: Spells64(bytes, v) && input == bytes + rest {
      var bytes :| Spells64(bytes, v) && input == bytes + rest;
      Read64(bytes, v, rest);
    }
  }

  // ----- strings -----

  ghost predicate SpellsString(bytes: Bytes, data: Bytes) {
    exists n :: Spells32(n, |data|) && bytes == n + data
  }

  lemma ReadString(bytes: Bytes, data: Bytes, rest: Bytes)
    requires SpellsString(bytes, data)
    ensures DecodeLengthPrefixed(bytes + rest) == Parsed(data, rest)
  {
    hide DecodeVarint32;
    var n :| Spells32(n, |data|) && bytes == n + data;
    assert bytes + rest == n + (data + rest);
    Read32(n, |data|, data + rest);
    assert (data + rest)[..|data|] == data && (data + rest)[|data|..] == rest;
  }

  lemma SpelledString(input: Bytes) returns (bytes: Bytes)
    requires DecodeLengthPrefixed(input).Parsed?
    ensures var r := DecodeLengthPrefixed(input); SpellsString(bytes, r.value) && input == bytes + r.rest
  {
    hide DecodeVarint32;
    hide Spells32;
    var n := Spelled32(input);
    var r := DecodeLengthPrefixed(input);
    bytes := n + r.value;
  }

  // ----- batches -----

  ghost predicate SpellsOp(bytes: Bytes, op: Op) {
    match op
    case Put(key, value) => exists k, v :: SpellsString(k, key) && SpellsString(v, value) && bytes == [1] + k + v
    case Delete(key) => exists k :: SpellsString(k, key) && bytes == [0] + k
  }

  lemma ReadOp(bytes: Bytes, op: Op, rest: Bytes)
    requires SpellsOp(bytes, op)
    ensures bytes != [] && DecodeOp(bytes + rest) == Parsed(op, rest)
  {
    hide DecodeLengthPrefixed;
    hide SpellsString;
    match op
    case Put(key, value) =>
      var k, v :| SpellsString(k, key) && SpellsString(v, value) && bytes == [1] + k + v;
      assert (bytes + rest)[1..] == k + (v + rest);
      ReadString(k, key, v + rest);
      ReadString(v, value, rest);
    case Delete(key) =>
      var k :| SpellsString(k, key) && bytes == [0] + k;
      assert (bytes + rest)[1..] == k + rest;
      ReadString(k, key, rest);
  }

  lemma SpelledOp(input: Bytes) returns (bytes: Bytes)
    requires input != [] && DecodeOp(input).Parsed?
    ensures var r := DecodeOp(input); SpellsOp(bytes, r.value) && input == bytes + r.rest
  {
    hide DecodeLengthPrefixed;
    hide SpellsString;
    var k := SpelledString(input[1..]);
    bytes := [input[0]] + k;
    if input[0] == 1 {
      var v := SpelledString(DecodeLengthPrefixed(input[1..]).rest);
      bytes := bytes + v;
    }
  }

  ghost predicate SpellsOps(bytes: Bytes, ops: seq<Op>)
    decreases |ops|
  {
    if ops == [] then bytes == []
    else exists n :: 0 < n <= |bytes| && SpellsOp(bytes[..n], ops[0]) && SpellsOps(bytes[n..], ops[1..])
  }

  lemma {:induction false} DecodeOpsIff(input: Bytes, ops: seq<Op>)
    ensures DecodeOps(input) == (ops, Ok) <==> SpellsOps(input, ops)
    decreases |ops|
  {
    hide DecodeOp;
    hide SpellsOp;
    if DecodeOps(input) == (ops, Ok) && ops != [] {
      var bytes := SpelledOp(input);
      DecodeOpsIff(DecodeOp(input).rest, ops[1..]);
      assert input[..|bytes|] == bytes && input[|bytes|..] == DecodeOp(input).rest;
    }
    if SpellsOps(input, ops) && ops != [] {
      var n :| 0 < n <= |input| && SpellsOp(input[..n], ops[0]) && SpellsOps(input[n..], ops[1..]);
      ReadOp(input[..n], ops[0], input[n..]);
      assert input[..n] + input[n..] == input && [ops[0]] + ops[1..] == ops;
      DecodeOpsIff(input[n..], ops[1..]);
    }
  }

  /** A batch is accepted exactly if it spells as many operations as its header counts, to its last byte. */
  lemma {:induction false} IteratedIff(rep: Bytes, ops: seq<Op>)
    ensures Iterated(rep) == (ops, Ok) <==>
      |rep| >= HEADER && SpellsOps(rep[HEADER..], ops) && |ops| == CountOf(rep)
  {
    hide DecodeOps;
    hide SpellsOps;
    hide CountOf;
    if |rep| >= HEADER { DecodeOpsIff(rep[HEADER..], ops); }
  }

  // ----- version edits -----

  ghost predicate SpellsLevel(bytes: Bytes, level: nat) {
    Spells32(bytes, level) && level < NUM_LEVELS
  }

  lemma ReadLevel(bytes: Bytes, level: nat, rest: Bytes)
    requires SpellsLevel(bytes, level)
    ensures DecodeLevel(bytes + rest) == Parsed(level, rest)
  {
    hide DecodeVarint32;
    hide Spells32;
    Read32(bytes, level, rest);
  }

  lemma SpelledLevel(input: Bytes) returns (bytes: Bytes)
    requires DecodeLevel(input).Parsed?
    ensures var r := DecodeLevel(input); SpellsLevel(bytes, r.value) && input == bytes + r.rest
  {
    hide DecodeVarint32;
    hide Spells32;
    bytes := Spelled32(input);
  }

  ghost predicate SpellsFile(bytes: Bytes, file: FileMetaData) {
    exists n, size, s, l :: Spells64(n, file.number) && Spells64(size, file.fileSize)
      && SpellsString(s, file.smallest) && SpellsString(l, file.largest) && bytes == n + size + s + l
  }

  lemma ReadFile(bytes: Bytes, level: nat, file: FileMetaData, rest: Bytes)
    requires SpellsFile(bytes, file)
    ensures DecodeNewFile(level, bytes + rest) == Parsed(NewFile(level, file), rest)
  {
    hide DecodeVarint64;
    hide DecodeLengthPrefixed;
    hide Spells64;
    hide SpellsString;
    var n, size, s, l :| Spells64(n, file.number) && Spells64(size, file.fileSize)
      && SpellsString(s, file.smallest) && SpellsString(l, file.largest) && bytes == n + size + s + l;
    assert bytes + rest == n + (size + (s + (l + rest)));
    Read64(n, file.number, size + (s + (l + rest)));
    Read64(size, file.fileSize, s + (l + rest));
    ReadString(s, file.smallest, l + rest);
    ReadString(l, file.largest, rest);
  }

  lemma SpelledFile(level: nat, input: Bytes) returns (bytes: Bytes)
    requires DecodeNewFile(level, input).Parsed?
    ensures var r := DecodeNewFile(level, input);
      && r.value.NewFile? && r.value.level == level && SpellsFile(bytes, r.value.file) && input == bytes + r.rest
  {
    hide DecodeVarint64;
    hide DecodeLengthPrefixed;
    hide Spells64;
    hide SpellsString;
    var n := Spelled64(input);
    var size := Spelled64(DecodeVarint64(input).rest);
    var s := SpelledString(DecodeVarint64(DecodeVarint64(input).rest).rest);
    var l := SpelledString(DecodeLengthPrefixed(DecodeVarint64(DecodeVarint64(input).rest).rest).rest);
    bytes := n + size + s + l;
  }

  ghost predicate SpellsBody(bytes: Bytes, f: Field) {
    match f
    case Comparator(name) => SpellsString(bytes, name)
    case CompactPointer(level, key) => exists l, k :: SpellsLevel(l, level) && SpellsString(k, key) && bytes == l + k
    case DeletedFile(level, n) => exists l, x :: SpellsLevel(l, level) && Spells64(x, n) && bytes == l + x
    case NewFile(level, file) => exists l, x :: SpellsLevel(l, level) && SpellsFile(x, file) && bytes == l + x
    case LogNumber(n) => Spells64(bytes, n)
    case PrevLogNumber(n) => Spells64(bytes, n)
    case NextFileNumber(n) => Spells64(bytes, n)
    case LastSequence(n) => Spells64(bytes, n)
  }

  lemma ReadBody(bytes: Bytes, f: Field, rest: Bytes)
    requires SpellsBody(bytes, f)
    ensures DecodeBody(Tag(f), bytes + rest) == Parsed(f, rest)
  {
    hide DecodeVarint64;
    hide DecodeLengthPrefixed;
    hide DecodeLevel;
    hide DecodeNewFile;
    hide Spells64;
    hide SpellsString;
    hide SpellsLevel;
    hide SpellsFile;
    match f
    case Comparator(name) => ReadString(bytes, name, rest);
    case CompactPointer(level, key) =>
      var l, k :| SpellsLevel(l, level) && SpellsString(k, key) && bytes == l + k;
      assert bytes + rest == l + (k + rest);
      ReadLevel(l, level, k + rest);
      ReadString(k, key, rest);
    case DeletedFile(level, n) =>
      var l, x :| SpellsLevel(l, level) && Spells64(x, n) && bytes == l + x;
      assert bytes + rest == l + (x + rest);
      ReadLevel(l, level, x + rest);
      Read64(x, n, rest);
    case NewFile(level, file) =>
      var l, x :| SpellsLevel(l, level) && SpellsFile(x, file) && bytes == l + x;
      assert bytes + rest == l + (x + rest);
      ReadLevel(l, level, x + rest);
      ReadFile(x, level, file, rest);
    case _ => Read64(bytes, f.n, rest);
  }

  lemma SpelledBody(tag: Word, input: Bytes) returns (bytes: Bytes)
    requires DecodeBody(tag, input).Parsed?
    ensures var r := DecodeBody(tag, input);
      tag == Tag(r.value) && SpellsBody(bytes, r.value) && input == bytes + r.rest
  {
    hide DecodeVarint64;
    hide DecodeLengthPrefixed;
    hide DecodeLevel;
    hide DecodeNewFile;
    hide Spells64;
    hide SpellsString;
    hide SpellsLevel;
    hide SpellsFile;
    if tag == 1 {
      bytes := SpelledString(input);
    } else if tag == 5 || tag == 6 || tag == 7 {
      var l := SpelledLevel(input);
      var level := DecodeLevel(input);
      var x := [];
      if tag == 5 {
        x := SpelledString(level.rest);
      } else if tag == 6 {
        x := Spelled64(level.rest);
      } else {
        x := SpelledFile(level.value, level.rest);
      }
      bytes := l + x;
    } else {
      bytes := Spelled64(input);
    }
  }

  ghost predicate SpellsField(bytes: Bytes, f: Field) {
    exists t, body :: Spells32(t, Tag(f)) && SpellsBody(body, f) && bytes == t + body
  }

  ghost predicate SpellsFields(bytes: Bytes, fields: seq<Field>)
    decreases |fields|
  {
    if fields == [] then bytes == []
    else exists n :: 0 < n <= |bytes| && SpellsField(bytes[..n], fields[0]) && SpellsFields(bytes[n..], fields[1..])
  }

  lemma ReadField(bytes: Bytes, f: Field, rest: Bytes)
    requires SpellsField(bytes, f)
    ensures DecodeField(bytes + rest) == Parsed(f, rest)
  {
    hide DecodeVarint32;
    hide DecodeBody;
    hide Spells32;
    hide SpellsBody;
    var t, body :| Spells32(t, Tag(f)) && SpellsBody(body, f) && bytes == t + body;
    assert bytes + rest == t + (body + rest);
    Read32(t, Tag(f), body + rest);
    ReadBody(body, f, rest);
  }

  lemma SpelledField(input: Bytes) returns (bytes: Bytes)
    requires DecodeField(input).Parsed?
    ensures var r := DecodeField(input); SpellsField(bytes, r.value) && input == bytes + r.rest
  {
    hide DecodeVarint32;
    hide DecodeBody;
    hide Spells32;
    hide SpellsBody;
    var t := Spelled32(input);
    var tag := DecodeVarint32(input);
    var body := SpelledBody(tag.value, tag.rest);
    bytes := t + body;
  }

  /** A record of the MANIFEST is accepted exactly if it spells fields with known tags and levels, to its last byte. */
  lemma {:induction false} DecodeFieldsIff(input: Bytes, fields: seq<Field>)
    ensures DecodeFields(input) == (fields, true) <==> SpellsFields(input, fields)
    decreases |fields|
  {
    hide DecodeField;
    hide SpellsField;
    if DecodeFields(input) == (fields, true) && fields != [] {
      var bytes := SpelledField(input);
      DecodeFieldsIff(DecodeField(input).rest, fields[1..]);
      assert input[..|bytes|] == bytes && input[|bytes|..] == DecodeField(input).rest;
    }
    if SpellsFields(input, fields) && fields != [] {
      var n :| 0 < n <= |input| && SpellsField(input[..n], fields[0]) && SpellsFields(input[n..], fields[1..]);
      ReadField(input[..n], fields[0], input[n..]);
      assert input[..n] + input[n..] == input && [fields[0]] + fields[1..] == fields;
      DecodeFieldsIff(input[n..], fields[1..]);
    }
  }

  // ----- table footers -----

  ghost predicate SpellsHandle(bytes: Bytes, h: Handle) {
    exists a, b :: Spells64(a, h.offset) && Spells64(b, h.size) && bytes == a + b
  }

  lemma ReadHandle(bytes: Bytes, h: Handle, rest: Bytes)
    requires SpellsHandle(bytes, h)
    ensures DecodeHandle(bytes + rest) == Parsed(h, rest)
  {
    hide DecodeVarint64;
    hide Spells64;
    var a, b :| Spells64(a, h.offset) && Spells64(b, h.size) && bytes == a + b;
    assert bytes + rest == a + (b + rest);
    Read64(a, h.offset, b + rest);
    Read64(b, h.size, rest);
  }

  lemma SpelledHandle(input: Bytes) returns (bytes: Bytes)
    requires DecodeHandle(input).Parsed?
    ensures var r := DecodeHandle(input); SpellsHandle(bytes, r.value) && input == bytes + r.rest
  {
    hide DecodeVarint64;
    hide Spells64;
    var a := Spelled64(input);
    var b := Spelled64(DecodeVarint64(input).rest);
    bytes := a + b;
  }

  /** Where the handles are, and what follows them up to the magic number does not matter. */
  ghost predicate StartsWithHandles(input: Bytes, a: Handle, b: Handle) {
    exists x, y, pad :: SpellsHandle(x, a) && SpellsHandle(y, b) && input == x + y + pad
  }

  /** A footer is accepted exactly if it starts with two handles and has the magic number behind its 40 bytes. */
  lemma {:induction false} DecodeFooterIff(input: Bytes, a: Handle, b: Handle)
    requires |input| >= FOOTER_LENGTH
    ensures DecodeFooter(input) == Footer(a, b) <==>
      input[FOOTER_LENGTH - 8..FOOTER_LENGTH] == Magic() && StartsWithHandles(input, a, b)
  {
    hide DecodeHandle;
    hide SpellsHandle;
    MagicIff(input);
    if DecodeFooter(input) == Footer(a, b) {
      var x := SpelledHandle(input);
      var rest := DecodeHandle(input).rest;
      var y := SpelledHandle(rest);
      assert input == x + y + DecodeHandle(rest).rest;
    }
    if StartsWithHandles(input, a, b) {
      var x, y, pad :| SpellsHandle(x, a) && SpellsHandle(y, b) && input == x + y + pad;
      assert input == x + (y + pad);
      ReadHandle(x, a, y + pad);
      ReadHandle(y, b, pad);
    }
  }

  lemma MagicIff(input: Bytes)
    requires |input| >= FOOTER_LENGTH
    ensures var magic := input[FOOTER_LENGTH - 8..];
      input[FOOTER_LENGTH - 8..FOOTER_LENGTH] == Magic() <==>
        DecodeFixed32(magic) == MAGIC_LOW && DecodeFixed32(magic[4..]) == MAGIC_HIGH
  {
    hide EncodeFixed32;
    hide DecodeFixed32;
    var magic := input[FOOTER_LENGTH - 8..];
    var low, high := magic[..4], magic[4..8];
    assert input[FOOTER_LENGTH - 8..FOOTER_LENGTH] == low + high;
    assert low + high == Magic() <==> low == EncodeFixed32(MAGIC_LOW) && high == EncodeFixed32(MAGIC_HIGH) by {
      assert Magic()[..4] == EncodeFixed32(MAGIC_LOW) && Magic()[4..] == EncodeFixed32(MAGIC_HIGH);
      assert (low + high)[..4] == low && (low + high)[4..] == high;
    }
    FourBytes(magic);
    FourBytes(magic[4..]);
    assert magic[4..][..4] == high;
    EncodeUndoesDecode(low);
    EncodeUndoesDecode(high);
    Coding.DecodeUndoesEncode(MAGIC_LOW, []);
    Coding.DecodeUndoesEncode(MAGIC_HIGH, []);
    assert EncodeFixed32(MAGIC_LOW) + [] == EncodeFixed32(MAGIC_LOW);
    assert EncodeFixed32(MAGIC_HIGH) + [] == EncodeFixed32(MAGIC_HIGH);
  }

  lemma FourBytes(b: Bytes)
    requires |b| >= 4
    ensures DecodeFixed32(b[..4]) == DecodeFixed32(b)
  {
  }
}
