/** Version edits as MANIFEST records (version_edit.cc): a sequence of tagged fields, written and read back. */
module EditCoding {
  import opened InternalKeys
  import opened Coding
  import opened Versions

  /** What a record says of a table file; keys are encoded internal keys. */
  datatype FileMetaData = FileMetaData(number: nat, fileSize: nat, smallest: Bytes, largest: Bytes)

  datatype Field =
    | Comparator(name: Bytes)
    | LogNumber(n: nat)
    | PrevLogNumber(n: nat)
    | NextFileNumber(n: nat)
    | LastSequence(n: nat)
    | CompactPointer(level: nat, key: Bytes)
    | DeletedFile(level: nat, n: nat)
    | NewFile(level: nat, file: FileMetaData)

  function Tag(f: Field): (r: Word) {
    match f
    case Comparator(_) => 1
    case LogNumber(_) => 2
    case NextFileNumber(_) => 3
    case LastSequence(_) => 4
    case CompactPointer(_, _) => 5
    case DeletedFile(_, _) => 6
    case NewFile(_, _) => 7
    case PrevLogNumber(_) => 9
  }

  /** Levels exist, numbers fit 64 bits and lengths 32. */
  predicate Fits(f: Field) {
    match f
    case Comparator(name) => |name| < WORD_LIMIT
    case CompactPointer(level, key) => level < NUM_LEVELS && |key| < WORD_LIMIT
    case DeletedFile(level, n) => level < NUM_LEVELS && n < LONG_LIMIT
    case NewFile(level, file) =>
      && level < NUM_LEVELS && file.number < LONG_LIMIT && file.fileSize < LONG_LIMIT
      && |file.smallest| < WORD_LIMIT && |file.largest| < WORD_LIMIT
    case LogNumber(n) => n < LONG_LIMIT
    case PrevLogNumber(n) => n < LONG_LIMIT
    case NextFileNumber(n) => n < LONG_LIMIT
    case LastSequence(n) => n < LONG_LIMIT
  }

  // ----- encoding -----

  function EncodeField(f: Field): (r: Bytes) {
    EncodeVarint32(Tag(f)) +
    match f
    case Comparator(name) => LengthPrefixed(name)
    case CompactPointer(level, key) => EncodeVarint32(level % WORD_LIMIT) + LengthPrefixed(key)
    case DeletedFile(level, n) => EncodeVarint32(level % WORD_LIMIT) + Varint(n)
    case NewFile(level, file) =>
      EncodeVarint32(level % WORD_LIMIT) + Varint(file.number) + Varint(file.fileSize) + LengthPrefixed(file.smallest)
        + LengthPrefixed(file.largest)
    case LogNumber(n) => Varint(n)
    case PrevLogNumber(n) => Varint(n)
    case NextFileNumber(n) => Varint(n)
    case LastSequence(n) => Varint(n)
  }

  function EncodeFields(fields: seq<Field>): (r: Bytes) {
    if fields == [] then [] else EncodeField(fields[0]) + EncodeFields(fields[1..])
  }

  lemma {:induction false} EncodeFieldsAppends(a: seq<Field>, b: seq<Field>)
    ensures EncodeFields(a + b) == EncodeFields(a) + EncodeFields(b)
  {
    hide EncodeField;
    if a == [] {
      assert a + b == b;
    } else {
      assert (a + b)[1..] == a[1..] + b;
      EncodeFieldsAppends(a[1..], b);
    }
  }

  // ----- decoding -----

  /** GetLevel: a number that is not a level is an error. */
  function DecodeLevel(input: Bytes): (r: Parsed<nat>)
    ensures r.Parsed? ==> |r.rest| < |input| && r.value < NUM_LEVELS
  {
    var v := DecodeVarint32(input);
    if v.Parsed? && v.value < NUM_LEVELS then Parsed(v.value, v.rest) else Malformed
  }

  function DecodeNewFile(level: nat, input: Bytes): (r: Parsed<Field>)
    ensures r.Parsed? ==> |r.rest| < |input|
  {
    var n := DecodeVarint64(input);
    if n.Malformed? then Malformed
    else
      var size := DecodeVarint64(n.rest);
      if size.Malformed? then Malformed
      else
        var s := DecodeLengthPrefixed(size.rest);
        if s.Malformed? then Malformed
        else
          var l := DecodeLengthPrefixed(s.rest);
          if l.Malformed? then Malformed else Parsed(NewFile(level,
            FileMetaData(n.value, size.value, s.value, l.value)), l.rest)
  }

  function DecodeBody(tag: Word, input: Bytes): (r: Parsed<Field>)
    ensures r.Parsed? ==> |r.rest| < |input|
  {
    if tag == 1 then
      var s := DecodeLengthPrefixed(input);
      if s.Malformed? then Malformed else Parsed(Comparator(s.value), s.rest)
    else if tag == 2 || tag == 9 || tag == 3 || tag == 4 then
      var n := DecodeVarint64(input);
      if n.Malformed? then Malformed
      else Parsed(if tag == 2 then LogNumber(n.value) else if tag == 9 then PrevLogNumber(n.value)
                  else if tag == 3 then NextFileNumber(n.value) else LastSequence(n.value), n.rest)
    else if tag == 5 || tag == 6 || tag == 7 then
      var l := DecodeLevel(input);
      if l.Malformed? then Malformed
      else if tag == 5 then
        var k := DecodeLengthPrefixed(l.rest);
        if k.Malformed? then Malformed else Parsed(CompactPointer(l.value, k.value), k.rest)
      else if tag == 6 then
        var n := DecodeVarint64(l.rest);
        if n.Malformed? then Malformed else Parsed(DeletedFile(l.value, n.value), n.rest)
      else DecodeNewFile(l.value, l.rest)
    else Malformed
  }

  function DecodeField(input: Bytes): (r: Parsed<Field>)
    ensures r.Parsed? ==> |r.rest| < |input|
  {
    var tag := DecodeVarint32(input);
    if tag.Malformed? then Malformed else DecodeBody(tag.value, tag.rest)
  }

  lemma {:induction false} DecodeUndoesLevel(level: nat, rest: Bytes)
    requires level < NUM_LEVELS
    ensures DecodeLevel(EncodeVarint32(level % WORD_LIMIT) + rest) == Parsed(level, rest)
  {
    hide EncodeVarint32;
    assert level % WORD_LIMIT == level;
    DecodeUndoesVarint32(level, rest);
  }

  lemma {:induction false} DecodeUndoesNewFile(level: nat, file: FileMetaData, rest: Bytes)
    requires Fits(NewFile(level, file))
    ensures DecodeNewFile(level, Varint(file.number) + Varint(file.fileSize) + LengthPrefixed(file.smallest)
      + LengthPrefixed(file.largest) + rest)
      == Parsed(NewFile(level, file), rest)
  {
    hide Varint;
    hide LengthPrefixed;
    hide DecodeVarint64;
    hide DecodeLengthPrefixed;
    var a, b, c, d := Varint(file.number), Varint(file.fileSize), LengthPrefixed(file.smallest),
      LengthPrefixed(file.largest);
    assert a + b + c + d + rest == a + (b + (c + (d + rest)));
    DecodeUndoesVarint64(file.number, b + (c + (d + rest)));
    DecodeUndoesVarint64(file.fileSize, c + (d + rest));
    DecodeUndoesLengthPrefix(file.smallest, d + rest);
    DecodeUndoesLengthPrefix(file.largest, rest);
  }

  lemma {:induction false} DecodeUndoesField(f: Field, rest: Bytes)
    requires Fits(f)
    ensures DecodeField(EncodeField(f) + rest) == Parsed(f, rest)
  {
    hide Varint;
    hide EncodeVarint32;
    hide LengthPrefixed;
    hide DecodeVarint32;
    hide DecodeVarint64;
    hide DecodeLengthPrefixed;
    hide DecodeNewFile;
    hide DecodeLevel;
    var tag := EncodeVarint32(Tag(f));
    match f
    case Comparator(name) =>
      assert EncodeField(f) + rest == tag + (LengthPrefixed(name) + rest);
      DecodeUndoesVarint32(Tag(f), LengthPrefixed(name) + rest);
      DecodeUndoesLengthPrefix(name, rest);
    case CompactPointer(level, key) =>
      var l, k := EncodeVarint32(level % WORD_LIMIT), LengthPrefixed(key);
      assert EncodeField(f) + rest == tag + (l + (k + rest));
      DecodeUndoesVarint32(Tag(f), l + (k + rest));
      DecodeUndoesLevel(level, k + rest);
      DecodeUndoesLengthPrefix(key, rest);
    case DeletedFile(level, n) =>
      var l := EncodeVarint32(level % WORD_LIMIT);
      assert EncodeField(f) + rest == tag + (l + (Varint(n) + rest));
      DecodeUndoesVarint32(Tag(f), l + (Varint(n) + rest));
      DecodeUndoesLevel(level, Varint(n) + rest);
      DecodeUndoesVarint64(n, rest);
    case NewFile(level, file) =>
      var l := EncodeVarint32(level % WORD_LIMIT);
      var body := Varint(file.number) + Varint(file.fileSize) + LengthPrefixed(file.smallest)
        + LengthPrefixed(file.largest);
      NewFileParts(tag, l, Varint(file.number), Varint(file.fileSize), LengthPrefixed(file.smallest),
        LengthPrefixed(file.largest), rest);
      DecodeUndoesVarint32(Tag(f), l + (body + rest));
      DecodeUndoesLevel(level, body + rest);
      DecodeUndoesNewFile(level, file, rest);
    case _ =>
      assert EncodeField(f) + rest == tag + (Varint(f.n) + rest);
      DecodeUndoesVarint32(Tag(f), Varint(f.n) + rest);
      DecodeUndoesVarint64(f.n, rest);
  }

  lemma {:induction false} NewFileParts(tag: Bytes, l: Bytes, a: Bytes, b: Bytes, c: Bytes, d: Bytes, rest: Bytes)
    ensures tag + (l + a + b + c + d) + rest == tag + (l + (a + b + c + d + rest))
  {
    assert l + a + b + c + d == l + (a + b + c + d);
    assert tag + (l + (a + b + c + d)) + rest == tag + (l + ((a + b + c + d) + rest));
  }

  /** All fields up to the first error, and whether there was none. */
  function DecodeFields(input: Bytes): (r: (seq<Field>, bool))
    decreases |input|
  {
    if input == [] then ([], true)
    else
      var f := DecodeField(input);
      if f.Malformed? then ([], false)
      else
        var (more, ok) := DecodeFields(f.rest);
        ([f.value] + more, ok)
  }

  lemma {:induction false} DecodeUndoesFields(fields: seq<Field>)
    requires forall i | 0 <= i < |fields| :: Fits(fields[i])
    ensures DecodeFields(EncodeFields(fields)) == (fields, true)
  {
    hide EncodeField;
    hide DecodeField;
    if fields != [] {
      DecodeUndoesField(fields[0], EncodeFields(fields[1..]));
      DecodeUndoesFields(fields[1..]);
      assert [fields[0]] + fields[1..] == fields;
      FieldIsLong(fields[0]);
    }
  }

  lemma {:induction false} FieldIsLong(f: Field)
    ensures EncodeField(f) != []
  {
    hide LengthPrefixed;
    hide Varint;
  }

  // ----- the edit -----

  datatype Edit = Edit(comparator: Option<Bytes>, logNumber: Option<nat>, prevLogNumber: Option<nat>,
      nextFileNumber: Option<nat>,
    lastSequence: Option<nat>, compactPointers: seq<(nat, Bytes)>, deletedFiles: set<(nat, nat)>,
      newFiles: seq<(nat, FileMetaData)>)

  const EMPTY_EDIT := Edit(None, None, None, None, None, [], {}, [])

  /** What decoding one field does to the edit. */
  function ApplyField(e: Edit, f: Field): (r: Edit) {
    match f
    case Comparator(name) => e.(comparator := Some(name))
    case LogNumber(n) => e.(logNumber := Some(n))
    case PrevLogNumber(n) => e.(prevLogNumber := Some(n))
    case NextFileNumber(n) => e.(nextFileNumber := Some(n))
    case LastSequence(n) => e.(lastSequence := Some(n))
    case CompactPointer(level, key) => e.(compactPointers := e.compactPointers + [(level, key)])
    case DeletedFile(level, n) => e.(deletedFiles := e.deletedFiles + {(level, n)})
    case NewFile(level, file) => e.(newFiles := e.newFiles + [(level, file)])
  }

  function ApplyFields(e: Edit, fields: seq<Field>): (r: Edit)
    decreases |fields|
  {
    if fields == [] then e else ApplyFields(ApplyField(e, fields[0]), fields[1..])
  }

  function Pointers(ps: seq<(nat, Bytes)>): (r: seq<Field>) {
    seq(|ps|, i requires 0 <= i < |ps| => CompactPointer(ps[i].0, ps[i].1))
  }

  function Deletions(ds: seq<(nat, nat)>): (r: seq<Field>) {
    seq(|ds|, i requires 0 <= i < |ds| => DeletedFile(ds[i].0, ds[i].1))
  }

  function Additions(fs: seq<(nat, FileMetaData)>): (r: seq<Field>) {
    seq(|fs|, i requires 0 <= i < |fs| => NewFile(fs[i].0, fs[i].1))
  }

  /** The fields that occur at most once. */
  function Scalars(e: Edit): (r: seq<Field>) {
    (if e.comparator.Some? then [Comparator(e.comparator.value)] else [])
    + (if e.logNumber.Some? then [LogNumber(e.logNumber.value)] else [])
    + (if e.prevLogNumber.Some? then [PrevLogNumber(e.prevLogNumber.value)] else [])
    + (if e.nextFileNumber.Some? then [NextFileNumber(e.nextFileNumber.value)] else [])
    + (if e.lastSequence.Some? then [LastSequence(e.lastSequence.value)] else [])
  }

  /** The record of an edit, its deleted files in the order in which they are enumerated. */
  function FieldsOf(e: Edit, deleted: seq<(nat, nat)>): (r: seq<Field>) {
    Scalars(e) + Pointers(e.compactPointers) + Deletions(deleted) + Additions(e.newFiles)
  }

  /** The order of std::set on pairs. */
  predicate Before(a: (nat, nat), b: (nat, nat)) {
    a.0 < b.0 || (a.0 == b.0 && a.1 < b.1)
  }

  ghost predicate Enumerates(order: seq<(nat, nat)>, s: set<(nat, nat)>) {
    (set d | d in order) == s && forall i, j | 0 <= i < j < |order| :: Before(order[i], order[j])
  }

  /** What EncodeTo appends. */
  ghost predicate IsEncoding(bytes: Bytes, e: Edit) {
    exists order :: Enumerates(order, e.deletedFiles) && bytes == EncodeFields(FieldsOf(e, order))
  }

  predicate EditFits(e: Edit) {
    && (forall f | f in Scalars(e) :: Fits(f))
    && (forall p | p in e.compactPointers :: Fits(CompactPointer(p.0, p.1)))
    && (forall d | d in e.deletedFiles :: Fits(DeletedFile(d.0, d.1)))
    && (forall a | a in e.newFiles :: Fits(NewFile(a.0, a.1)))
  }

  lemma {:induction false} ApplyFieldsAppends(e: Edit, a: seq<Field>, b: seq<Field>)
    ensures ApplyFields(e, a + b) == ApplyFields(ApplyFields(e, a), b)
    decreases |a|
  {
    if a == [] {
      assert a + b == b;
    } else {
      assert (a + b)[1..] == a[1..] + b;
      ApplyFieldsAppends(ApplyField(e, a[0]), a[1..], b);
    }
  }

  lemma {:induction false} ApplyPointers(e: Edit, ps: seq<(nat, Bytes)>)
    ensures ApplyFields(e, Pointers(ps)) == e.(compactPointers := e.compactPointers + ps)
    decreases |ps|
  {
    if ps == [] {
      assert e.compactPointers + ps == e.compactPointers;
    } else {
      assert Pointers(ps)[1..] == Pointers(ps[1..]);
      ApplyPointers(ApplyField(e, Pointers(ps)[0]), ps[1..]);
      assert e.compactPointers + [ps[0]] + ps[1..] == e.compactPointers + ps;
    }
  }

  lemma {:induction false} ApplyDeletions(e: Edit, ds: seq<(nat, nat)>)
    ensures ApplyFields(e, Deletions(ds)) == e.(deletedFiles := e.deletedFiles + set d | d in ds)
    decreases |ds|
  {
    if ds == [] {
      assert e.deletedFiles + (set d | d in ds) == e.deletedFiles;
    } else {
      assert Deletions(ds)[1..] == Deletions(ds[1..]);
      ApplyDeletions(ApplyField(e, Deletions(ds)[0]), ds[1..]);
      assert ds == [ds[0]] + ds[1..];
      assert e.deletedFiles + {ds[0]} + (set d | d in ds[1..]) == e.deletedFiles + set d | d in ds;
    }
  }

  lemma {:induction false} ApplyAdditions(e: Edit, fs: seq<(nat, FileMetaData)>)
    ensures ApplyFields(e, Additions(fs)) == e.(newFiles := e.newFiles + fs)
    decreases |fs|
  {
    if fs == [] {
      assert e.newFiles + fs == e.newFiles;
    } else {
      assert Additions(fs)[1..] == Additions(fs[1..]);
      ApplyAdditions(ApplyField(e, Additions(fs)[0]), fs[1..]);
      assert e.newFiles + [fs[0]] + fs[1..] == e.newFiles + fs;
    }
  }

  /** An option that is set is written as one field, and applying it sets the option. */
  lemma {:induction false} ApplyScalars(e: Edit, d: Edit)
    requires d.comparator.None? && d.logNumber.None? && d.prevLogNumber.None?
    requires d.nextFileNumber.None? && d.lastSequence.None?
    ensures ApplyFields(d, Scalars(e)) == d.(comparator := e.comparator, logNumber := e.logNumber,
      prevLogNumber := e.prevLogNumber,
      nextFileNumber := e.nextFileNumber, lastSequence := e.lastSequence)
  {
    var a := if e.comparator.Some? then [Comparator(e.comparator.value)] else [];
    var b := if e.logNumber.Some? then [LogNumber(e.logNumber.value)] else [];
    var c := if e.prevLogNumber.Some? then [PrevLogNumber(e.prevLogNumber.value)] else [];
    var n := if e.nextFileNumber.Some? then [NextFileNumber(e.nextFileNumber.value)] else [];
    var s := if e.lastSequence.Some? then [LastSequence(e.lastSequence.value)] else [];
    ApplyFieldsAppends(d, a + b + c + n, s);
    ApplyFieldsAppends(d, a + b + c, n);
    ApplyFieldsAppends(d, a + b, c);
    ApplyFieldsAppends(d, a, b);
  }

  /** Everything that Clear resets; the compaction pointers are not among it. */
  function Cleared(d: Edit): (r: Edit) {
    EMPTY_EDIT.(compactPointers := d.compactPointers)
  }

  /** Decoding a record into any edit `d` gives the edit that was encoded, behind the compaction pointers `d` had. */
  lemma {:induction false} DecodeUndoesEncode(bytes: Bytes, e: Edit, d: Edit)
    requires IsEncoding(bytes, e) && EditFits(e)
    ensures DecodeFields(bytes).1
    ensures ApplyFields(Cleared(d), DecodeFields(bytes).0) ==
      e.(compactPointers := d.compactPointers + e.compactPointers)
  {
    hide ApplyFields;
    hide EncodeFields;
    hide DecodeFields;
    hide Fits;
    hide Scalars;
    var order :| Enumerates(order, e.deletedFiles) && bytes == EncodeFields(FieldsOf(e, order));
    FieldsFit(e, order);
    DecodeUndoesFields(FieldsOf(e, order));
    var c := Cleared(d);
    var s, p, x, n := Scalars(e), Pointers(e.compactPointers), Deletions(order), Additions(e.newFiles);
    ApplyFieldsAppends(c, s + p + x, n);
    ApplyFieldsAppends(c, s + p, x);
    ApplyFieldsAppends(c, s, p);
    ApplyScalars(e, c);
    var c1 := ApplyFields(c, s);
    ApplyPointers(c1, e.compactPointers);
    var c2 := ApplyFields(c1, p);
    ApplyDeletions(c2, order);
    var c3 := ApplyFields(c2, x);
    ApplyAdditions(c3, e.newFiles);
    assert {} + (set y | y in order) == e.deletedFiles;
    assert [] + e.newFiles == e.newFiles;
  }

  lemma {:induction false} FieldsFit(e: Edit, order: seq<(nat, nat)>)
    requires Enumerates(order, e.deletedFiles) && EditFits(e)
    ensures forall i | 0 <= i < |FieldsOf(e, order)| :: Fits(FieldsOf(e, order)[i])
  {
    hide Fits;
    hide Scalars;
    forall f | f in FieldsOf(e, order) ensures Fits(f) {
      if f in Deletions(order) {
        var i :| 0 <= i < |order| && Deletions(order)[i] == f;
        assert order[i] in e.deletedFiles;
      } else if f in Pointers(e.compactPointers) {
        var i :| 0 <= i < |e.compactPointers| && Pointers(e.compactPointers)[i] == f;
      } else if f in Additions(e.newFiles) {
        var i :| 0 <= i < |e.newFiles| && Additions(e.newFiles)[i] == f;
      }
    }
  }

  /**
   DecodeFrom undoes EncodeTo exactly when the edit decoded into has no compaction pointers, as a fresh one has not:
   Clear forgets everything but them.
   */
  lemma {:induction false} DecodeUndoesEncodeIff(bytes: Bytes, e: Edit, d: Edit)
    requires IsEncoding(bytes, e) && EditFits(e)
    ensures ApplyFields(Cleared(d), DecodeFields(bytes).0) == e <==> d.compactPointers == []
  {
    hide ApplyFields;
    hide DecodeFields;
    hide IsEncoding;
    DecodeUndoesEncode(bytes, e, d);
    assert |d.compactPointers + e.compactPointers| == |d.compactPointers| + |e.compactPointers|;
    assert [] + e.compactPointers == e.compactPointers;
  }

  /** Two edits with one encoding are one edit. */
  lemma EncodingIsInjective(bytes: Bytes, a: Edit, b: Edit)
    requires IsEncoding(bytes, a) && EditFits(a) && IsEncoding(bytes, b)
    requires EditFits(b)
    ensures a == b
  {
    hide ApplyFields;
    hide DecodeFields;
    hide IsEncoding;
    DecodeUndoesEncode(bytes, a, EMPTY_EDIT);
    DecodeUndoesEncode(bytes, b, EMPTY_EDIT);
    assert [] + a.compactPointers == a.compactPointers && [] + b.compactPointers == b.compactPointers;
  }

  lemma {:induction false} DecodeOne(e: Edit, input: Bytes)
    requires DecodeField(input).Parsed?
    ensures var f := DecodeField(input);
      && DecodeFields(input).1 == DecodeFields(f.rest).1
      && ApplyFields(e, DecodeFields(input).0) == ApplyFields(ApplyField(e, f.value), DecodeFields(f.rest).0)
  {
    hide DecodeField;
    hide ApplyField;
    var f := DecodeField(input);
    var (more, ok) := DecodeFields(f.rest);
    assert ([f.value] + more)[1..] == more;
  }

  lemma {:induction false} LeastOf(s: set<(nat, nat)>)
    requires s != {}
    ensures exists d :: d in s && forall x | x in s :: x == d || Before(d, x)
  {
    var y :| y in s;
    if s != {y} {
      var rest := s - {y};
      assert s == rest + {y} && rest != {};
      LeastOf(rest);
      var d :| d in rest && forall x | x in rest :: x == d || Before(d, x);
      var least := if Before(y, d) then y else d;
      assert least in s && forall x | x in s :: x == least || Before(least, x);
    }
  }

  lemma {:induction false} OneMoreField(a: seq<Field>, f: Field)
    ensures EncodeFields(a + [f]) == EncodeFields(a) + EncodeField(f)
  {
    hide EncodeField;
    EncodeFieldsAppends(a, [f]);
    assert EncodeFields([f]) == EncodeField(f) + [];
  }

  lemma OneMoreDeletion(order: seq<(nat, nat)>, s: set<(nat, nat)>, d: (nat, nat))
    requires Enumerates(order, s) && forall x | x in order :: Before(x, d)
    ensures Enumerates(order + [d], s + {d})
  {
    assert forall i | 0 <= i < |order| :: order[i] in order;
    assert (set x | x in order + [d]) == (set x | x in order) + {d};
  }

  /** The edit as the object that the code fills in. */
  class VersionEdit {
    var comparator: Option<Bytes>
    var logNumber: Option<nat>
    var prevLogNumber: Option<nat>
    var nextFileNumber: Option<nat>
    var lastSequence: Option<nat>
    var compactPointers: seq<(nat, Bytes)>
    var deletedFiles: set<(nat, nat)>
    var newFiles: seq<(nat, FileMetaData)>

    ghost function Contents(): (r: Edit)
      reads this
    {
      Edit(comparator, logNumber, prevLogNumber, nextFileNumber, lastSequence, compactPointers, deletedFiles, newFiles)
    }

    constructor ()
      ensures Contents() == EMPTY_EDIT
    {
      comparator, logNumber, prevLogNumber, nextFileNumber, lastSequence := None, None, None, None, None;
      compactPointers, deletedFiles, newFiles := [], {}, [];
    }

    /** The compaction pointers are not cleared. */
    method Clear()
      modifies this
      ensures Contents() == Cleared(old(Contents()))
    {
      comparator, logNumber, prevLogNumber, nextFileNumber, lastSequence := None, None, None, None, None;
      deletedFiles, newFiles := {}, [];
    }

    method EncodeTo(dst: Bytes) returns (r: Bytes)
      ensures dst <= r && IsEncoding(r[|dst|..], Contents())
    {
      hide EncodeField;
      hide EncodeFields;
      hide Scalars;
      var scalars := EncodeScalars();
      var pointers := EncodePointers();
      var deletions, order := EncodeDeletions();
      var additions := EncodeAdditions();
      r := dst + (scalars + pointers + deletions + additions);
      ghost var s, p, x, n := Scalars(Contents()), Pointers(compactPointers), Deletions(order), Additions(newFiles);
      EncodeFieldsAppends(s + p + x, n);
      EncodeFieldsAppends(s + p, x);
      EncodeFieldsAppends(s, p);
      assert r[|dst|..] == EncodeFields(FieldsOf(Contents(), order));
    }

    method EncodeScalars() returns (r: Bytes)
      ensures r == EncodeFields(Scalars(Contents()))
    {
      hide EncodeField;
      r := [];
      ghost var done: seq<Field> := [];
      if comparator.Some? {
        OneMoreField(done, Comparator(comparator.value));
        done := done + [Comparator(comparator.value)];
        r := r + EncodeField(Comparator(comparator.value));
      }
      assert r == EncodeFields(done);
      if logNumber.Some? {
        OneMoreField(done, LogNumber(logNumber.value));
        done := done + [LogNumber(logNumber.value)];
        r := r + EncodeField(LogNumber(logNumber.value));
      }
      assert r == EncodeFields(done);
      if prevLogNumber.Some? {
        OneMoreField(done, PrevLogNumber(prevLogNumber.value));
        done := done + [PrevLogNumber(prevLogNumber.value)];
        r := r + EncodeField(PrevLogNumber(prevLogNumber.value));
      }
      assert r == EncodeFields(done);
      if nextFileNumber.Some? {
        OneMoreField(done, NextFileNumber(nextFileNumber.value));
        done := done + [NextFileNumber(nextFileNumber.value)];
        r := r + EncodeField(NextFileNumber(nextFileNumber.value));
      }
      assert r == EncodeFields(done);
      if lastSequence.Some? {
        OneMoreField(done, LastSequence(lastSequence.value));
        done := done + [LastSequence(lastSequence.value)];
        r := r + EncodeField(LastSequence(lastSequence.value));
      }
      assert r == EncodeFields(done);
      assert done == Scalars(Contents());
    }

    method EncodePointers() returns (r: Bytes)
      ensures r == EncodeFields(Pointers(compactPointers))
    {
      hide EncodeField;
      r := [];
      for i := 0 to |compactPointers|
        invariant r == EncodeFields(Pointers(compactPointers[..i]))
      {
        var p := compactPointers[i];
        OneMoreField(Pointers(compactPointers[..i]), CompactPointer(p.0, p.1));
        assert Pointers(compactPointers[..i + 1]) == Pointers(compactPointers[..i]) + [CompactPointer(p.0, p.1)];
        r := r + EncodeField(CompactPointer(p.0, p.1));
      }
      assert compactPointers[..|compactPointers|] == compactPointers;
    }

    /** Goes over the set in its order. */
    method EncodeDeletions() returns (r: Bytes, ghost order: seq<(nat, nat)>)
      ensures Enumerates(order, deletedFiles) && r == EncodeFields(Deletions(order))
    {
      hide EncodeField;
      r, order := [], [];
      var rest := deletedFiles;
      while rest != {}
        invariant rest <= deletedFiles && Enumerates(order, deletedFiles - rest) && r == EncodeFields(Deletions(order))
        invariant forall d, x | d in order && x in rest :: Before(d, x)
        decreases |rest|
      {
        LeastOf(rest);
        var d :| d in rest && forall x | x in rest :: x == d || Before(d, x);
        OneMoreField(Deletions(order), DeletedFile(d.0, d.1));
        assert Deletions(order + [d]) == Deletions(order) + [DeletedFile(d.0, d.1)];
        r := r + EncodeField(DeletedFile(d.0, d.1));
        OneMoreDeletion(order, deletedFiles - rest, d);
        assert deletedFiles - (rest - {d}) == deletedFiles - rest + {d};
        order := order + [d];
        rest := rest - {d};
      }
      assert deletedFiles - {} == deletedFiles;
    }

    method EncodeAdditions() returns (r: Bytes)
      ensures r == EncodeFields(Additions(newFiles))
    {
      hide EncodeField;
      r := [];
      for i := 0 to |newFiles|
        invariant r == EncodeFields(Additions(newFiles[..i]))
      {
        var a := newFiles[i];
        OneMoreField(Additions(newFiles[..i]), NewFile(a.0, a.1));
        assert Additions(newFiles[..i + 1]) == Additions(newFiles[..i]) + [NewFile(a.0, a.1)];
        r := r + EncodeField(NewFile(a.0, a.1));
      }
      assert newFiles[..|newFiles|] == newFiles;
    }

    method Set(f: Field)
      modifies this
      ensures Contents() == ApplyField(old(Contents()), f)
    {
      match f
      case Comparator(name) => comparator := Some(name);
      case LogNumber(n) => logNumber := Some(n);
      case PrevLogNumber(n) => prevLogNumber := Some(n);
      case NextFileNumber(n) => nextFileNumber := Some(n);
      case LastSequence(n) => lastSequence := Some(n);
      case CompactPointer(level, key) => compactPointers := compactPointers + [(level, key)];
      case DeletedFile(level, n) => deletedFiles := deletedFiles + {(level, n)};
      case NewFile(level, file) => newFiles := newFiles + [(level, file)];
    }

    /** Reads fields until the input ends or one is malformed; what has been read up to then stays. */
    method DecodeFrom(src: Bytes) returns (ok: bool)
      modifies this
      ensures ok == DecodeFields(src).1
      ensures Contents() == ApplyFields(Cleared(old(Contents())), DecodeFields(src).0)
    {
      hide DecodeBody;
      hide DecodeVarint32;
      Clear();
      var input := src;
      ghost var goal := ApplyFields(Contents(), DecodeFields(src).0);
      while input != []
        invariant goal == ApplyFields(Contents(), DecodeFields(input).0) && DecodeFields(src).1 == DecodeFields(input).1
        decreases |input|
      {
        var tag := GetVarint32(input);
        if tag.Malformed? {
          return false;
        }
        var f := DecodeBody(tag.value, tag.rest);
        if f.Malformed? {
          return false;
        }
        assert DecodeField(input) == f;
        DecodeOne(Contents(), input);
        Set(f.value);
        input := f.rest;
      }
      ok := true;
    }
  }
}
