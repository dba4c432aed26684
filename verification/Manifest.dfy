/**
 The MANIFEST (version_set.cc: LogAndApply, WriteSnapshot, Recover): a log that holds a snapshot of the version that was
 current when it was begun and every edit installed since.  Recovery from whatever a crash leaves of it gives the
 version, the counters and the compaction pointers of the last edit that is wholly there.
 */
module Manifests {
  import opened InternalKeys
  import opened Coding
  import opened Versions
  import opened CompactionInputs
  import opened LogFormat
  import opened LogReaders
  import opened VersionBuilder
  import E = EditCoding

  type Edit = E.Edit

  /** How internal keys are written down and read, and what each table file holds. */
  datatype Disk = Disk(encode: InternalKey -> Bytes, decode: Bytes -> InternalKey, table: nat -> seq<Entry>)

  /** The key has an encoding that an edit has room for and that is read back. */
  predicate KeyReadsBack(disk: Disk, k: InternalKey) {
    disk.decode(disk.encode(k)) == k && |disk.encode(k)| < WORD_LIMIT
  }

  /** Whatever an edit gives as a key can be written down again. */
  ghost predicate KeysReadBack(disk: Disk) {
    forall b {:trigger disk.decode(b)} | |b| < WORD_LIMIT :: KeyReadsBack(disk, disk.decode(b))
  }

  function FileOf(disk: Disk, m: E.FileMetaData): (r: File) {
    File(m.number, m.fileSize, disk.decode(m.smallest), disk.decode(m.largest), disk.table(m.number))
  }

  function MetaOf(disk: Disk, f: File): (r: E.FileMetaData) {
    E.FileMetaData(f.number, f.size, disk.encode(f.smallest), disk.encode(f.largest))
  }

  /** A file is what its table holds, its numbers fit 64 bits, and its range can be written down. */
  predicate OnDisk(disk: Disk, f: File) {
    && f.entries == disk.table(f.number) && f.number < LONG_LIMIT && f.size < LONG_LIMIT
    && KeyReadsBack(disk, f.smallest) && KeyReadsBack(disk, f.largest)
  }

  lemma FileIsReadBack(disk: Disk, f: File)
    requires OnDisk(disk, f)
    ensures FileOf(disk, MetaOf(disk, f)) == f
  {
  }

  function ChangeOf(disk: Disk, e: Edit): (r: VersionEdit) {
    VersionEdit(e.deletedFiles, NewFilesOf(disk, e.newFiles))
  }

  function NewFilesOf(disk: Disk, fs: seq<(nat, E.FileMetaData)>): (r: seq<(nat, File)>)
    ensures |r| == |fs|
  {
    seq(|fs|, i requires 0 <= i < |fs| => (fs[i].0, FileOf(disk, fs[i].1)))
  }

  function ChangesOf(disk: Disk, es: seq<Edit>): (r: seq<VersionEdit>)
    ensures |r| == |es|
  {
    seq(|es|, i requires 0 <= i < |es| => ChangeOf(disk, es[i]))
  }

  /** The changes of one level. */
  ghost function LevelChanges(disk: Disk, es: seq<Edit>, l: nat): (r: seq<Change>) {
    Changes(ChangesOf(disk, es), l)
  }

  lemma LevelChangesGrow(disk: Disk, es: seq<Edit>, e: Edit, l: nat)
    ensures LevelChanges(disk, es + [e], l) == LevelChanges(disk, es, l) + [ChangeAt(ChangeOf(disk, e), l)]
  {
  }

  // ----- compaction pointers -----

  /** A level's compaction pointer after the list has been applied to it. */
  function PointerAt(before: Bytes, ps: seq<(nat, Bytes)>, l: nat): (r: Bytes) {
    if ps == [] then before
    else
      var n := |ps| - 1;
      if ps[n].0 == l then ps[n].1 else PointerAt(before, ps[..n], l)
  }

  function PointerAfter(es: seq<Edit>, l: nat): (r: Bytes) {
    if es == [] then []
    else
      var n := |es| - 1;
      PointerAt(PointerAfter(es[..n], l), es[n].compactPointers, l)
  }

  lemma {:induction false} PointersTwice(before: Bytes, again: Bytes, ps: seq<(nat, Bytes)>, l: nat)
    ensures again == PointerAt(before, ps, l) ==> PointerAt(again, ps, l) == again
    ensures PointerAt(again, ps, l) == PointerAt(before, ps, l) || PointerAt(again, ps, l) == again
  {
    if ps != [] {
      var n := |ps| - 1;
      PointersTwice(before, again, ps[..n], l);
    }
  }

  // ----- what is on record -----

  /** What an edit installs. */
  datatype State = State(version: Version, logNumber: nat, prevLogNumber: nat, nextFileNumber: nat, lastSequence: nat,
      compactPointers: seq<Bytes>)

  /** A MANIFEST: its records, the edits they encode, and the state after each; the first is the snapshot. */
  datatype Manifest = Manifest(records: seq<Bytes>, edits: seq<Edit>, states: seq<State>)

  /** The version that installing the edits one at a time gives. */
  ghost predicate Holds(disk: Disk, es: seq<Edit>, v: Version) {
    LevelsSorted(v) && forall l | 0 <= l < NUM_LEVELS :: Files(v[l]) == InstallAll({}, LevelChanges(disk, es, l))
  }

  ghost predicate PointersHeld(es: seq<Edit>, ps: seq<Bytes>) {
    |ps| == NUM_LEVELS && forall l | 0 <= l < NUM_LEVELS :: ps[l] == PointerAfter(es, l)
  }

  /** The numbers a record carries; a snapshot carries none. */
  predicate NumbersHeld(e: Edit, s: State, first: bool) {
    if first then e.logNumber.None? && e.prevLogNumber.None? && e.nextFileNumber.None? && e.lastSequence.None?
    else
      && e.logNumber == Some(s.logNumber) && e.prevLogNumber == Some(s.prevLogNumber)
      && e.nextFileNumber == Some(s.nextFileNumber) && e.lastSequence == Some(s.lastSequence)
  }

  /** Every number in use is below the next one to be handed out. */
  ghost predicate NumbersUsed(v: Version, logNumber: nat, next: nat) {
    logNumber < next && forall l, f {:trigger f in v[l]} | 0 <= l < NUM_LEVELS && f in v[l] :: f.number < next
  }

  predicate NameMatches(e: Edit, name: Bytes) {
    e.comparator.Some? ==> e.comparator.value == name
  }

  ghost predicate RecordOk(disk: Disk, name: Bytes, m: Manifest, i: nat)
    requires i < |m.records| == |m.edits| == |m.states|
  {
    var e, s := m.edits[i], m.states[i];
    && E.IsEncoding(m.records[i], e) && E.EditFits(e) && NameMatches(e, name)
    && Holds(disk, m.edits[..i + 1], s.version) && PointersHeld(m.edits[..i + 1], s.compactPointers)
    && NumbersHeld(e, s, i == 0) && (i == 0 ==> e.comparator == Some(name))
    && NumbersUsed(s.version, s.logNumber, s.nextFileNumber)
  }

  /** At each level a number names one file. */
  ghost predicate FilesNamed(disk: Disk, es: seq<Edit>) {
    forall l | 0 <= l < NUM_LEVELS :: NumbersNameFiles(FoldAdded(LevelChanges(disk, es, l)))
  }

  ghost predicate ManifestOk(disk: Disk, name: Bytes, m: Manifest) {
    && 1 <= |m.records| == |m.edits| == |m.states| && FilesNamed(disk, m.edits)
    && forall i | 0 <= i < |m.records| :: RecordOk(disk, name, m, i)
  }

  // ----- recovery -----

  datatype Recovered =
    | Recovered(state: State, manifestFileNumber: nat)
    | Corrupted
    | OtherComparator
    | NoNextFile
    | NoLogNumber
    | NoLastSequence

  /** The counters gathered from the records so far. */
  datatype Counters = Counters(logNumber: Option<nat>, prevLogNumber: Option<nat>, nextFile: Option<nat>,
      lastSequence: Option<nat>)

  function Gather(c: Counters, e: Edit): (r: Counters) {
    Counters(
      if e.logNumber.Some? then e.logNumber else c.logNumber,
      if e.prevLogNumber.Some? then e.prevLogNumber else c.prevLogNumber,
      if e.nextFileNumber.Some? then e.nextFileNumber else c.nextFile,
      if e.lastSequence.Some? then e.lastSequence else c.lastSequence)
  }

  ghost function CountersAfter(m: Manifest, i: nat): (r: Counters)
    requires i <= |m.states|
  {
    if i < 2 then Counters(None, None, None, None)
    else
      var s := m.states[i - 1];
      Counters(Some(s.logNumber), Some(s.prevLogNumber), Some(s.nextFileNumber), Some(s.lastSequence))
  }

  /** One builder has been fed with the edits. */
  ghost predicate Fed(disk: Disk, es: seq<Edit>, deleted: seq<set<nat>>, added: seq<seq<File>>) {
    && |deleted| == |added| == NUM_LEVELS
    && forall l | 0 <= l < NUM_LEVELS ::
      Files(added[l]) == FoldAdded(LevelChanges(disk, es, l)) && deleted[l] == FoldDeleted(LevelChanges(disk, es, l))
  }

  lemma EditFitsLevels(disk: Disk, e: Edit)
    requires E.EditFits(e)
    ensures LevelsInRange(ChangeOf(disk, e))
  {
    hide E.Scalars;
    forall d | d in e.deletedFiles ensures d.0 < NUM_LEVELS {
      assert E.Fits(E.DeletedFile(d.0, d.1));
    }
    forall a | a in NewFilesOf(disk, e.newFiles) ensures a.0 < NUM_LEVELS {
      var i :| 0 <= i < |e.newFiles| && a == NewFilesOf(disk, e.newFiles)[i];
      assert e.newFiles[i] in e.newFiles;
      assert E.Fits(E.NewFile(e.newFiles[i].0, e.newFiles[i].1));
    }
  }

  lemma NextIsNamed(disk: Disk, es: seq<Edit>, i: nat, l: nat, added: seq<File>)
    requires i < |es| && l < NUM_LEVELS && FilesNamed(disk, es)
    requires Files(added) == FoldAdded(LevelChanges(disk, es[..i], l))
    ensures NumbersNameFiles(Files(added) + AddedAt(ChangeOf(disk, es[i]).newFiles, l))
  {
    var edits := ChangesOf(disk, es);
    assert edits[..i] == ChangesOf(disk, es[..i]);
    assert Changes(edits, l) == LevelChanges(disk, es, l);
    FoldStep(edits, i, l);
    SubsetNames(Files(added) + AddedAt(edits[i].newFiles, l), FoldAdded(Changes(edits, l)));
  }

  lemma FedNext(disk: Disk, es: seq<Edit>, i: nat, deleted: seq<set<nat>>, added: seq<seq<File>>,
      deleted': seq<set<nat>>, added': seq<seq<File>>)
    requires i < |es| && Fed(disk, es[..i], deleted, added) && |deleted'| == |added'| == NUM_LEVELS
    requires forall l | 0 <= l < NUM_LEVELS ::
      && deleted'[l] == deleted[l] + DeletedAt(ChangeOf(disk, es[i]), l)
        - Numbers(AddedAt(ChangeOf(disk, es[i]).newFiles, l))
      && Files(added'[l]) == Files(added[l]) + AddedAt(ChangeOf(disk, es[i]).newFiles, l)
    ensures Fed(disk, es[..i + 1], deleted', added')
  {
    var edits := ChangesOf(disk, es);
    assert edits[..i] == ChangesOf(disk, es[..i]) && edits[..i + 1] == ChangesOf(disk, es[..i + 1]);
    forall l | 0 <= l < NUM_LEVELS
      ensures Files(added'[l]) == FoldAdded(LevelChanges(disk, es[..i + 1], l))
      ensures deleted'[l] == FoldDeleted(LevelChanges(disk, es[..i + 1], l))
    {
      FoldStep(edits, i, l);
    }
  }

  /** The pointers an edit sets, as Builder::Apply sets them. */
  method ApplyPointers(pointers: seq<Bytes>, ps: seq<(nat, Bytes)>) returns (r: seq<Bytes>)
    requires |pointers| == NUM_LEVELS && forall p | p in ps :: p.0 < NUM_LEVELS
    ensures |r| == NUM_LEVELS && forall l | 0 <= l < NUM_LEVELS :: r[l] == PointerAt(pointers[l], ps, l)
  {
    r := pointers;
    for i := 0 to |ps|
      invariant |r| == NUM_LEVELS && forall l | 0 <= l < NUM_LEVELS :: r[l] == PointerAt(pointers[l], ps[..i], l)
    {
      assert ps[..i + 1][..i] == ps[..i] && ps[i] in ps;
      r := r[ps[i].0 := ps[i].1];
    }
    assert ps[..|ps|] == ps;
  }

  lemma FitPointers(e: Edit)
    requires E.EditFits(e)
    ensures forall p | p in e.compactPointers :: p.0 < NUM_LEVELS
  {
    hide E.Scalars;
    forall p | p in e.compactPointers ensures p.0 < NUM_LEVELS {
      assert E.Fits(E.CompactPointer(p.0, p.1));
    }
  }

  lemma FoldedIsHeld(disk: Disk, name: Bytes, m: Manifest, k: nat, l: nat)
    requires ManifestOk(disk, name, m) && 1 <= k <= |m.edits| && l < NUM_LEVELS
    ensures var cs := LevelChanges(disk, m.edits[..k], l);
      SortedFiles(m.states[k - 1].version[l])
      && Files(m.states[k - 1].version[l]) == Surviving({}, FoldAdded(cs), FoldDeleted(cs))
  {
    hide LevelChanges;
    hide PointersHeld;
    hide NumbersHeld;
    hide NumbersUsed;
    hide E.IsEncoding;
    hide E.EditFits;
    var cs := LevelChanges(disk, m.edits[..k], l);
    assert RecordOk(disk, name, m, k - 1) && k - 1 + 1 == k;
    AllNamed(disk, name, m, k, l);
    assert {} + FoldAdded(cs) == FoldAdded(cs);
    FoldIsInstallAll({}, cs);
  }

  /** A builder that has been fed with the first `k` edits saves the version that was current after the last of them. */
  lemma SavedIsInstalled(disk: Disk, name: Bytes, m: Manifest, k: nat, deleted: seq<set<nat>>, added: seq<seq<File>>,
      v: Version)
    requires ManifestOk(disk, name, m) && 1 <= k <= |m.edits| && Fed(disk, m.edits[..k], deleted, added)
    requires LevelsSorted(v)
    requires forall l | 0 <= l < NUM_LEVELS :: Files(v[l]) == Surviving({}, Files(added[l]), deleted[l])
    ensures v == m.states[k - 1].version
  {
    hide RecordOk;
    hide FilesNamed;
    hide LevelChanges;
    hide Surviving;
    hide SortedFiles;
    forall l | 0 <= l < NUM_LEVELS ensures v[l] == m.states[k - 1].version[l] {
      FoldedIsHeld(disk, name, m, k, l);
      SortedIsUnique(v[l], m.states[k - 1].version[l]);
    }
  }

  lemma CountersNext(disk: Disk, name: Bytes, m: Manifest, i: nat)
    requires ManifestOk(disk, name, m) && i < |m.edits|
    ensures Gather(CountersAfter(m, i), m.edits[i]) == CountersAfter(m, i + 1)
  {
    hide Holds;
    hide PointersHeld;
    assert RecordOk(disk, name, m, i);
  }

  /**
   One record, decoded and applied; `i` is its number.  The comparator it names has to be the one that the database is
   opened with.
   */
  method ApplyRecord(disk: Disk, ghost name: Bytes, given: Bytes, record: Bytes, builder: Builder,
      pointers: seq<Bytes>, counters: Counters, ghost m: Manifest, ghost i: nat)
    returns (ok: bool, error: Recovered, pointers': seq<Bytes>, counters': Counters)
    requires ManifestOk(disk, name, m) && i < |m.records| && record == m.records[i]
    requires builder.Valid() && Fed(disk, m.edits[..i], builder.deletedFiles, builder.addedFiles)
    requires PointersHeld(m.edits[..i], pointers) && counters == CountersAfter(m, i)
    modifies builder
    ensures ok == NameMatches(m.edits[i], given) && (!ok ==> error == OtherComparator)
    ensures builder.Valid()
    ensures ok ==> Fed(disk, m.edits[..i + 1], builder.deletedFiles, builder.addedFiles)
    ensures ok ==> PointersHeld(m.edits[..i + 1], pointers') && counters' == CountersAfter(m, i + 1)
  {
    hide Fed;
    hide FilesNamed;
    hide E.IsEncoding;
    hide E.ApplyFields;
    hide E.DecodeFields;
    hide E.EditFits;
    ok, error, pointers', counters' := true, Corrupted, pointers, counters;
    ghost var e := m.edits[i];
    assert RecordOk(disk, name, m, i);
    E.DecodeUndoesEncode(record, e, E.EMPTY_EDIT);
    assert [] + e.compactPointers == e.compactPointers;
    var edit := new E.VersionEdit();
    var decoded := edit.DecodeFrom(record);
    assert decoded && edit.Contents() == e;
    if !decoded {
      return false, Corrupted, pointers, counters;
    }
    if edit.comparator.Some? && edit.comparator.value != given {
      return false, OtherComparator, pointers, counters;
    }
    FitPointers(e);
    pointers' := ApplyPointers(pointers, edit.compactPointers);
    assert m.edits[..i + 1][..i] == m.edits[..i];
    ApplyFiles(disk, builder, edit, m, i);
    counters' := Counters(
      if edit.logNumber.Some? then edit.logNumber else counters.logNumber,
      if edit.prevLogNumber.Some? then edit.prevLogNumber else counters.prevLogNumber,
      if edit.nextFileNumber.Some? then edit.nextFileNumber else counters.nextFile,
      if edit.lastSequence.Some? then edit.lastSequence else counters.lastSequence);
    CountersNext(disk, name, m, i);
  }

  method ApplyFiles(disk: Disk, builder: Builder, edit: E.VersionEdit, ghost m: Manifest, ghost i: nat)
    requires i < |m.edits| && FilesNamed(disk, m.edits) && edit.Contents() == m.edits[i]
    requires E.EditFits(m.edits[i])
    requires builder.Valid() && Fed(disk, m.edits[..i], builder.deletedFiles, builder.addedFiles)
    modifies builder
    ensures builder.Valid() && Fed(disk, m.edits[..i + 1], builder.deletedFiles, builder.addedFiles)
  {
    hide E.EditFits;
    hide LevelChanges;
    hide FilesNamed;
    var change := VersionEdit(edit.deletedFiles, NewFilesOf(disk, edit.newFiles));
    EditFitsLevels(disk, m.edits[i]);
    forall l | 0 <= l < NUM_LEVELS
      ensures NumbersNameFiles(Files(builder.addedFiles[l]) + AddedAt(change.newFiles, l))
    {
      NextIsNamed(disk, m.edits, i, l, builder.addedFiles[l]);
    }
    ghost var deleted, added := builder.deletedFiles, builder.addedFiles;
    builder.Apply(change);
    FedNext(disk, m.edits, i, deleted, added, builder.deletedFiles, builder.addedFiles);
  }

  lemma BeforeRecords(disk: Disk, m: Manifest, deleted: seq<set<nat>>, added: seq<seq<File>>)
    requires |deleted| == |added| == NUM_LEVELS && forall l | 0 <= l < NUM_LEVELS :: deleted[l] == {} && added[l] == []
    ensures Fed(disk, m.edits[..0], deleted, added)
    ensures PointersHeld(m.edits[..0], [[], [], [], [], [], [], []])
    ensures CountersAfter(m, 0) == Counters(None, None, None, None)
  {
  }

  /** Two records are needed before there are numbers. */
  lemma CountersKnown(m: Manifest, k: nat)
    requires k <= |m.states|
    ensures var c := CountersAfter(m, k);
      if k < 2 then c.nextFile.None?
      else
        var s := m.states[k - 1];
        c == Counters(Some(s.logNumber), Some(s.prevLogNumber), Some(s.nextFileNumber), Some(s.lastSequence))
  {
  }

  /**
   Reads a MANIFEST that a crash may have cut anywhere.  With `k` whole records it gives the state after the last of
   them, unless only the snapshot is there: it carries no file number; or unless another comparator is given.
   */
  method Recover(disk: Disk, checksum: Checksum, ghost name: Bytes, given: Bytes, file: Bytes, ghost m: Manifest)
    returns (r: Recovered)
    requires ManifestOk(disk, name, m) && file <= EncodeLog(checksum, m.records)
    ensures var k := Whole(checksum, m.records, |file|);
      if k >= 1 && given != name then r == OtherComparator
      else if k < 2 then r == NoNextFile
      else r == Recovered(m.states[k - 1].(nextFileNumber := m.states[k - 1].nextFileNumber + 1),
        m.states[k - 1].nextFileNumber)
  {
    hide RecordAt;
    hide EncodeLog;
    hide ManifestOk;
    hide Fed;
    hide PointersHeld;
    hide CountersAfter;
    hide Builder.Valid;
    hide NameMatches;
    hide Whole;
    hide LevelChanges;
    var reader := new Reader(checksum, file);
    var builder := new Builder([[], [], [], [], [], [], []]);
    var pointers: seq<Bytes>, counters := [[], [], [], [], [], [], []], Counters(None, None, None, None);
    BeforeRecords(disk, m, builder.deletedFiles, builder.addedFiles);
    ghost var i, k := 0, Whole(checksum, m.records, |file|);
    assert file == EncodeLog(checksum, m.records)[..|file|];
    EmptyLog(checksum, m.records);
    ManifestSizes(disk, name, m);
    while true
      invariant reader.Valid() && reader.checksum == checksum && reader.file == file
      invariant i <= k && reader.Offset() == |EncodeLog(checksum, m.records[..i])|
      invariant builder.Valid() && builder.base == [[], [], [], [], [], [], []]
      invariant Fed(disk, m.edits[..i], builder.deletedFiles, builder.addedFiles)
      invariant PointersHeld(m.edits[..i], pointers) && counters == CountersAfter(m, i)
      invariant fresh(builder) && fresh(reader) && (i > 0 ==> given == name)
      decreases k - i
    {
      NextOfCutLog(checksum, m.records, |file|, i);
      var record := reader.ReadRecord();
      if record.None? {
        break;
      }
      var ok, error;
      NamesComparator(disk, name, m, i, given);
      ok, error, pointers, counters := ApplyRecord(disk, name, given, record.value, builder, pointers, counters, m, i);
      if !ok {
        return error;
      }
      i := i + 1;
    }
    CountersKnown(m, k);
    if counters.nextFile.None? {
      return NoNextFile;
    }
    if counters.logNumber.None? {
      return NoLogNumber;
    }
    if counters.lastSequence.None? {
      return NoLastSequence;
    }
    var prevLogNumber := if counters.prevLogNumber.Some? then counters.prevLogNumber.value else 0;
    var v := SaveRecovered(disk, name, builder, m, k);
    PointersAreStates(disk, name, m, k, pointers);
    r := Recovered(
      State(v, counters.logNumber.value, prevLogNumber, counters.nextFile.value + 1, counters.lastSequence.value,
        pointers),
      counters.nextFile.value);
  }

  /** The snapshot names the comparator, and no record names another. */
  lemma NamesComparator(disk: Disk, name: Bytes, m: Manifest, i: nat, given: Bytes)
    requires ManifestOk(disk, name, m) && i < |m.edits|
    ensures if NameMatches(m.edits[i], given) then i == 0 ==> given == name else given != name
  {
    assert RecordOk(disk, name, m, i);
  }

  lemma ManifestSizes(disk: Disk, name: Bytes, m: Manifest)
    requires ManifestOk(disk, name, m)
    ensures |m.records| == |m.edits| == |m.states|
    ensures forall l | 0 <= l < NUM_LEVELS :: LevelChanges(disk, m.edits[..0], l) == []
  {
  }

  lemma PointersAreStates(disk: Disk, name: Bytes, m: Manifest, k: nat, pointers: seq<Bytes>)
    requires ManifestOk(disk, name, m) && 1 <= k <= |m.edits| && PointersHeld(m.edits[..k], pointers)
    ensures pointers == m.states[k - 1].compactPointers
  {
    assert RecordOk(disk, name, m, k - 1);
    assert m.edits[..k - 1 + 1] == m.edits[..k];
  }

  method SaveRecovered(disk: Disk, ghost name: Bytes, builder: Builder, ghost m: Manifest, ghost k: nat)
    returns (v: Version)
    requires ManifestOk(disk, name, m) && 1 <= k <= |m.edits|
    requires builder.Valid() && builder.base == [[], [], [], [], [], [], []]
    requires Fed(disk, m.edits[..k], builder.deletedFiles, builder.addedFiles)
    ensures v == m.states[k - 1].version
  {
    hide ManifestOk;
    hide LevelChanges;
    forall l | 0 <= l < NUM_LEVELS ensures NumbersNameFiles(Files(builder.base[l]) + Files(builder.addedFiles[l])) {
      AllNamed(disk, name, m, k, l);
    }
    v := builder.SaveTo();
    SavedIsInstalled(disk, name, m, k, builder.deletedFiles, builder.addedFiles, v);
  }

  lemma AllNamed(disk: Disk, name: Bytes, m: Manifest, k: nat, l: nat)
    requires ManifestOk(disk, name, m) && k <= |m.edits| && l < NUM_LEVELS
    ensures NumbersNameFiles(FoldAdded(LevelChanges(disk, m.edits[..k], l)))
  {
    var cs := LevelChanges(disk, m.edits, l);
    assert LevelChanges(disk, m.edits[..k], l) == cs[..k];
    FoldAddedGrows(cs, k);
    SubsetNames(FoldAdded(cs[..k]), FoldAdded(cs));
  }

  // ----- the version set -----

  /** The edit goes with what is on record: in every level a number still names one file. */
  ghost predicate Follows(disk: Disk, es: seq<Edit>, e: Edit) {
    forall l | 0 <= l < NUM_LEVELS ::
      NumbersNameFiles(FoldAdded(LevelChanges(disk, es, l)) + AddedAt(ChangeOf(disk, e).newFiles, l))
  }

  lemma FollowedIsNamed(disk: Disk, es: seq<Edit>, e: Edit)
    requires FilesNamed(disk, es) && Follows(disk, es, e)
    ensures FilesNamed(disk, es + [e])
  {
    hide ChangeOf;
    forall l | 0 <= l < NUM_LEVELS ensures NumbersNameFiles(FoldAdded(LevelChanges(disk, es + [e], l))) {
      var cs, c := LevelChanges(disk, es, l), ChangeAt(ChangeOf(disk, e), l);
      LevelChangesGrow(disk, es, e, l);
      assert (cs + [c])[..|cs|] == cs;
    }
  }

  lemma HoldsNext(disk: Disk, es: seq<Edit>, e: Edit, v: Version, v': Version)
    requires Holds(disk, es, v) && LevelsSorted(v')
    requires forall l | 0 <= l < NUM_LEVELS :: Files(v'[l]) == Install(Files(v[l]), ChangeAt(ChangeOf(disk, e), l))
    ensures Holds(disk, es + [e], v')
  {
    hide ChangeOf;
    hide Install;
    forall l | 0 <= l < NUM_LEVELS ensures Files(v'[l]) == InstallAll({}, LevelChanges(disk, es + [e], l)) {
      LevelChangesGrow(disk, es, e, l);
      var cs := LevelChanges(disk, es, l);
      assert (cs + [ChangeAt(ChangeOf(disk, e), l)])[..|cs|] == cs;
    }
  }

  lemma PointersNext(es: seq<Edit>, e: Edit, ps: seq<Bytes>, ps': seq<Bytes>)
    requires PointersHeld(es, ps) && |ps'| == NUM_LEVELS
    requires forall l | 0 <= l < NUM_LEVELS :: ps'[l] == PointerAt(ps[l], e.compactPointers, l)
    ensures PointersHeld(es + [e], ps')
  {
    assert (es + [e])[..|es|] == es;
  }

  /** One more edit on record. */
  lemma RecordAdded(disk: Disk, name: Bytes, m: Manifest, record: Bytes, e: Edit, s: State)
    requires ManifestOk(disk, name, m) && E.IsEncoding(record, e) && E.EditFits(e)
    requires NameMatches(e, name) && Follows(disk, m.edits, e)
    requires LevelsSorted(s.version) && |s.compactPointers| == NUM_LEVELS && NumbersHeld(e, s, false)
    requires NumbersUsed(s.version, s.logNumber, s.nextFileNumber)
    requires var last := m.states[|m.states| - 1];
      && |last.compactPointers| == NUM_LEVELS
      && (forall l | 0 <= l < NUM_LEVELS :: Files(s.version[l]) == Install(Files(last.version[l]),
        ChangeAt(ChangeOf(disk, e), l)))
      && (forall l | 0 <= l < NUM_LEVELS :: s.compactPointers[l] == PointerAt(last.compactPointers[l],
        e.compactPointers, l))
    ensures ManifestOk(disk, name, Manifest(m.records + [record], m.edits + [e], m.states + [s]))
  {
    hide E.IsEncoding;
    hide E.EditFits;
    hide LevelsSorted;
    hide Install;
    var m' := Manifest(m.records + [record], m.edits + [e], m.states + [s]);
    var n := |m.records|;
    FollowedIsNamed(disk, m.edits, e);
    forall i | 0 <= i < n + 1 ensures RecordOk(disk, name, m', i) {
      if i < n {
        assert RecordOk(disk, name, m, i);
        assert m'.edits[..i + 1] == m.edits[..i + 1];
      } else {
        assert RecordOk(disk, name, m, n - 1);
        assert m.edits[..n - 1 + 1] == m.edits && m'.edits[..n + 1] == m'.edits;
        HoldsNext(disk, m.edits, e, m.states[n - 1].version, s.version);
        PointersNext(m.edits, e, m.states[n - 1].compactPointers, s.compactPointers);
      }
    }
  }

  /** What WriteSnapshot puts in its record. */
  ghost predicate IsSnapshot(disk: Disk, name: Bytes, e: Edit, v: Version, pointers: seq<Bytes>)
    requires |pointers| == NUM_LEVELS
  {
    && NumbersHeld(e, State(v, 0, 0, 0, 0, pointers), true) && e.comparator == Some(name) && e.deletedFiles == {}
    && (forall l | 0 <= l < NUM_LEVELS :: AddedAt(ChangeOf(disk, e).newFiles, l) == Files(v[l]))
    && (forall l | 0 <= l < NUM_LEVELS :: PointerAt([], e.compactPointers, l) == pointers[l])
  }

  lemma SnapshotRecorded(disk: Disk, name: Bytes, record: Bytes, e: Edit, s: State)
    requires |s.compactPointers| == NUM_LEVELS && IsSnapshot(disk, name, e, s.version, s.compactPointers)
    requires E.IsEncoding(record, e) && E.EditFits(e) && LevelsSorted(s.version)
    requires NumbersUsed(s.version, s.logNumber, s.nextFileNumber)
    requires forall l | 0 <= l < NUM_LEVELS :: NumbersNameFiles(Files(s.version[l]))
    ensures ManifestOk(disk, name, Manifest([record], [e], [s]))
    ensures forall l | 0 <= l < NUM_LEVELS :: FoldAdded(LevelChanges(disk, [e], l)) == Files(s.version[l])
  {
    hide E.IsEncoding;
    hide E.EditFits;
    hide LevelsSorted;
    forall l | 0 <= l < NUM_LEVELS
      ensures var cs := LevelChanges(disk, [e], l);
        FoldAdded(cs) == Files(s.version[l]) == InstallAll({}, cs)
    {
      var cs := LevelChanges(disk, [e], l);
      assert cs == [ChangeAt(ChangeOf(disk, e), l)] && cs[..0] == [];
    }
    assert [e][..0] == [] && [e][..1] == [e];
    forall l | 0 <= l < NUM_LEVELS ensures s.compactPointers[l] == PointerAfter([e], l) {
      assert PointerAfter([e][..0], l) == [];
    }
    assert PointersHeld([e], s.compactPointers);
    assert RecordOk(disk, name, Manifest([record], [e], [s]), 0);
  }

  ghost predicate AllOnDisk(disk: Disk, v: Version) {
    forall l, f {:trigger f in v[l]} | 0 <= l < NUM_LEVELS && f in v[l] :: OnDisk(disk, f)
  }

  class VersionSet {
    const disk: Disk
    const checksum: Checksum
    const comparatorName: Bytes
    var current: Version
    var logNumber: nat
    var prevLogNumber: nat
    var nextFileNumber: nat
    var lastSequence: nat
    var compactPointer: seq<Bytes>
    var descriptorLog: Writer?

    /** What `descriptorLog` holds. */
    ghost var manifest: Manifest

    ghost predicate CurrentOk()
      reads this
    {
      && KeysReadBack(disk) && |comparatorName| < WORD_LIMIT
      && |compactPointer| == NUM_LEVELS && (forall l | 0 <= l < NUM_LEVELS :: |compactPointer[l]| < WORD_LIMIT)
      && LevelsSorted(current) && AllOnDisk(disk, current)
      && (forall l | 0 <= l < NUM_LEVELS :: NumbersNameFiles(Files(current[l])))
      && NumbersUsed(current, logNumber, nextFileNumber)
    }

    /** The counters only grow between two records. */
    ghost predicate Recorded(s: State)
      reads this
    {
      && s.version == current && s.compactPointers == compactPointer && s.logNumber == logNumber
      && s.prevLogNumber == prevLogNumber
      && s.nextFileNumber <= nextFileNumber && s.lastSequence <= lastSequence
    }

    ghost predicate LogOk(log: Writer)
      reads this, log
    {
      && log.Valid() && log.checksum == checksum && log.dest == EncodeLog(checksum, manifest.records)
      && ManifestOk(disk, comparatorName, manifest)
    }

    ghost predicate Valid()
      reads this, descriptorLog
    {
      && CurrentOk()
      && (descriptorLog != null ==>
            LogOk(descriptorLog) && |manifest.records| >= 2 && Recorded(manifest.states[|manifest.states| - 1]))
    }

    /** At each level, every file on record so far; before there is a log, the current files. */
    ghost function EverAdded(l: nat): (r: set<File>)
      requires l < NUM_LEVELS
      reads this
    {
      if descriptorLog == null then Files(current[l]) else FoldAdded(LevelChanges(disk, manifest.edits, l))
    }

    /**
     A version set that starts with a recovered state, or with that of a new database, and no MANIFEST of its own yet.
     */
    constructor (disk: Disk, checksum: Checksum, comparatorName: Bytes, s: State)
      requires KeysReadBack(disk) && |comparatorName| < WORD_LIMIT
      requires |s.compactPointers| == NUM_LEVELS
      requires forall l | 0 <= l < NUM_LEVELS :: |s.compactPointers[l]| < WORD_LIMIT
      requires NumbersUsed(s.version, s.logNumber, s.nextFileNumber)
      requires LevelsSorted(s.version) && AllOnDisk(disk, s.version)
      requires forall l | 0 <= l < NUM_LEVELS :: NumbersNameFiles(Files(s.version[l]))
      ensures Valid() && descriptorLog == null
      ensures this.disk == disk && this.checksum == checksum && this.comparatorName == comparatorName
      ensures current == s.version && compactPointer == s.compactPointers
      ensures logNumber == s.logNumber && prevLogNumber == s.prevLogNumber
      ensures nextFileNumber == s.nextFileNumber && lastSequence == s.lastSequence
    {
      this.disk, this.checksum, this.comparatorName := disk, checksum, comparatorName;
      current, compactPointer := s.version, s.compactPointers;
      logNumber, prevLogNumber, nextFileNumber, lastSequence :=
        s.logNumber, s.prevLogNumber, s.nextFileNumber, s.lastSequence;
      descriptorLog := null;
      manifest := Manifest([], [], []);
    }

    method NewFileNumber() returns (n: nat)
      requires Valid()
      modifies `nextFileNumber
      ensures Valid() && n == old(nextFileNumber) && nextFileNumber == n + 1
    {
      n := nextFileNumber;
      nextFileNumber := nextFileNumber + 1;
    }

    method SetLastSequence(s: nat)
      requires Valid() && s >= lastSequence
      modifies `lastSequence
      ensures Valid() && lastSequence == s
    {
      lastSequence := s;
    }

    /** The edit gets the numbers that it does not bring along. */
    method FillIn(edit: E.VersionEdit)
      modifies edit
      ensures edit.Contents() == old(edit.Contents()).(
        logNumber := if old(edit.logNumber).Some? then old(edit.logNumber) else Some(logNumber),
        prevLogNumber := if old(edit.prevLogNumber).Some? then old(edit.prevLogNumber) else Some(prevLogNumber),
        nextFileNumber := Some(nextFileNumber), lastSequence := Some(lastSequence))
    {
      if edit.logNumber.None? {
        edit.logNumber := Some(logNumber);
      }
      if edit.prevLogNumber.None? {
        edit.prevLogNumber := Some(prevLogNumber);
      }
      edit.nextFileNumber := Some(nextFileNumber);
      edit.lastSequence := Some(lastSequence);
    }

    /** Everything the current version holds, as one edit. */
    method SnapshotEdit() returns (edit: E.VersionEdit)
      requires CurrentOk()
      ensures fresh(edit) && E.EditFits(edit.Contents())
      ensures IsSnapshot(disk, comparatorName, edit.Contents(), current, compactPointer)
    {
      edit := new E.VersionEdit();
      edit.comparator := Some(comparatorName);
      SavePointers(edit);
      SaveFiles(edit);
      SnapshotFits(edit.Contents(), comparatorName);
    }

    method SavePointers(edit: E.VersionEdit)
      requires |compactPointer| == NUM_LEVELS && edit.compactPointers == []
      requires forall l | 0 <= l < NUM_LEVELS :: |compactPointer[l]| < WORD_LIMIT
      modifies edit`compactPointers
      ensures forall l | 0 <= l < NUM_LEVELS :: PointerAt([], edit.compactPointers, l) == compactPointer[l]
      ensures forall p | p in edit.compactPointers :: p.0 < NUM_LEVELS && |p.1| < WORD_LIMIT
    {
      for level := 0 to NUM_LEVELS
        invariant forall l | 0 <= l < level :: PointerAt([], edit.compactPointers, l) == compactPointer[l]
        invariant forall l | level <= l < NUM_LEVELS :: PointerAt([], edit.compactPointers, l) == []
        invariant forall p | p in edit.compactPointers :: p.0 < NUM_LEVELS && |p.1| < WORD_LIMIT
      {
        if compactPointer[level] != [] {
          ghost var ps := edit.compactPointers;
          edit.compactPointers := edit.compactPointers + [(level, compactPointer[level])];
          assert edit.compactPointers[..|ps|] == ps;
        }
      }
    }

    method SaveFiles(edit: E.VersionEdit)
      requires CurrentOk() && edit.newFiles == []
      modifies edit`newFiles
      ensures forall l | 0 <= l < NUM_LEVELS :: AddedAt(NewFilesOf(disk, edit.newFiles), l) == Files(current[l])
      ensures forall a | a in edit.newFiles :: E.Fits(E.NewFile(a.0, a.1))
    {
      for level := 0 to NUM_LEVELS
        invariant forall l | 0 <= l < level :: AddedAt(NewFilesOf(disk, edit.newFiles), l) == Files(current[l])
        invariant forall l | level <= l :: AddedAt(NewFilesOf(disk, edit.newFiles), l) == {}
        invariant forall a | a in edit.newFiles :: E.Fits(E.NewFile(a.0, a.1))
      {
        for i := 0 to |current[level]|
          invariant forall l | 0 <= l < level :: AddedAt(NewFilesOf(disk, edit.newFiles), l) == Files(current[l])
          invariant AddedAt(NewFilesOf(disk, edit.newFiles), level) == Files(current[level][..i])
          invariant forall l | level < l :: AddedAt(NewFilesOf(disk, edit.newFiles), l) == {}
          invariant forall a | a in edit.newFiles :: E.Fits(E.NewFile(a.0, a.1))
        {
          var f := current[level][i];
          assert f in current[level] && OnDisk(disk, f);
          OneMoreFile(disk, edit.newFiles, level, f);
          assert current[level][..i + 1] == current[level][..i] + [f];
          edit.newFiles := edit.newFiles + [(level, MetaOf(disk, f))];
        }
        assert current[level][..|current[level]|] == current[level];
      }
    }

    /** A new descriptor log, with the snapshot of what is current. */
    method OpenManifest()
      requires CurrentOk() && descriptorLog == null
      modifies `descriptorLog, `manifest
      ensures descriptorLog != null && fresh(descriptorLog) && LogOk(descriptorLog)
      ensures |manifest.records| == |manifest.edits| == 1
      ensures manifest.states == [State(current, logNumber, prevLogNumber, nextFileNumber, lastSequence,
        compactPointer)]
      ensures forall l | 0 <= l < NUM_LEVELS :: EverAdded(l) == Files(current[l])
    {
      hide E.IsEncoding;
      hide E.EditFits;
      hide IsSnapshot;
      hide EncodeRecord;
      hide LevelsSorted;
      var log := new Writer(checksum, []);
      var edit := SnapshotEdit();
      var record := edit.EncodeTo([]);
      assert record[0..] == record;
      log.AddRecord(record);
      ghost var s := State(current, logNumber, prevLogNumber, nextFileNumber, lastSequence, compactPointer);
      SnapshotRecorded(disk, comparatorName, record, edit.Contents(), s);
      OneRecordLog(checksum, record);
      descriptorLog := log;
      manifest := Manifest([record], [edit.Contents()], [s]);
    }

    /** Writes the edit to the log and makes `v` current. */
    method AppendEdit(edit: E.VersionEdit, v: Version)
      requires CurrentOk() && descriptorLog != null && LogOk(descriptorLog)
      requires E.EditFits(edit.Contents()) && NameMatches(edit.Contents(), comparatorName)
      requires Follows(disk, manifest.edits, edit.Contents())
      requires edit.logNumber.Some? && edit.prevLogNumber.Some?
      requires edit.nextFileNumber == Some(nextFileNumber)
      requires edit.lastSequence == Some(lastSequence)
      requires LevelsSorted(v) && NumbersUsed(v, edit.logNumber.value, nextFileNumber)
      requires var last := manifest.states[|manifest.states| - 1];
        && |last.compactPointers| == NUM_LEVELS
        && (forall l | 0 <= l < NUM_LEVELS ::
          Files(v[l]) == Install(Files(last.version[l]), ChangeAt(ChangeOf(disk, edit.Contents()), l)))
        && (forall l | 0 <= l < NUM_LEVELS ::
          compactPointer[l] == PointerAt(last.compactPointers[l], edit.compactPointers, l))
      modifies `current, `logNumber, `prevLogNumber, `manifest, descriptorLog
      ensures LogOk(descriptorLog) && old(descriptorLog.dest) <= descriptorLog.dest
      ensures current == v && logNumber == edit.logNumber.value && prevLogNumber == edit.prevLogNumber.value
      ensures manifest.edits == old(manifest).edits + [edit.Contents()]
      ensures manifest.states == old(manifest).states
        + [State(v, logNumber, prevLogNumber, nextFileNumber, lastSequence, compactPointer)]
      ensures old(manifest).records <= manifest.records && |manifest.records| == |old(manifest).records| + 1
    {
      hide E.IsEncoding;
      hide E.EditFits;
      hide EncodeRecord;
      hide EncodeLog;
      hide ManifestOk;
      hide Follows;
      var record := edit.EncodeTo([]);
      assert record[0..] == record;
      ghost var s := State(v, edit.logNumber.value, edit.prevLogNumber.value, nextFileNumber, lastSequence,
        compactPointer);
      RecordAdded(disk, comparatorName, manifest, record, edit.Contents(), s);
      MoreRecords(checksum, manifest.records, record);
      descriptorLog.AddRecord(record);
      current := v;
      logNumber := edit.logNumber.value;
      prevLogNumber := edit.prevLogNumber.value;
      manifest := Manifest(manifest.records + [record], manifest.edits + [edit.Contents()], manifest.states + [s]);
    }

    /** What is current is among what has been added. */
    lemma CurrentWasAdded(l: nat)
      requires Valid() && l < NUM_LEVELS
      ensures Files(current[l]) <= EverAdded(l)
    {
      hide ManifestOk;
      hide LevelChanges;
      hide LevelsSorted;
      hide AllOnDisk;
      hide NumbersUsed;
      if descriptorLog != null { HeldWasAdded(disk, comparatorName, manifest, l); }
    }

    /** Numbers that name files among all that were ever added name files among the current ones. */
    lemma CurrentIsNamed(newFiles: seq<(nat, File)>)
      requires Valid() && forall l | 0 <= l < NUM_LEVELS :: NumbersNameFiles(EverAdded(l) + AddedAt(newFiles, l))
      ensures forall l | 0 <= l < NUM_LEVELS :: NumbersNameFiles(Files(current[l]) + AddedAt(newFiles, l))
    {
      hide ManifestOk;
      hide LevelChanges;
      hide NumbersNameFiles;
      hide LevelsSorted;
      hide AddedAt;
      forall l | 0 <= l < NUM_LEVELS ensures NumbersNameFiles(Files(current[l]) + AddedAt(newFiles, l)) {
        CurrentWasAdded(l);
        SubsetNames(Files(current[l]) + AddedAt(newFiles, l), EverAdded(l) + AddedAt(newFiles, l));
      }
    }

    /** What the builder makes of the current version and the edit. */
    method NextVersion(edit: E.VersionEdit) returns (v: Version)
      requires CurrentOk() && E.EditFits(edit.Contents())
      requires forall l | 0 <= l < NUM_LEVELS ::
        var added := AddedAt(ChangeOf(disk, edit.Contents()).newFiles, l);
        && NumbersNameFiles(Files(current[l]) + added) && Files(current[l]) !! added
        && forall f | f in added :: f.number < nextFileNumber
      ensures NumbersUsed(v, logNumber, nextFileNumber)
      ensures LevelsSorted(v) && AllOnDisk(disk, v) && forall l | 0 <= l < NUM_LEVELS :: NumbersNameFiles(Files(v[l]))
      ensures forall l | 0 <= l < NUM_LEVELS ::
        Files(v[l]) == Install(Files(current[l]), ChangeAt(ChangeOf(disk, edit.Contents()), l))
    {
      hide E.EditFits;
      hide NumbersNameFiles;
      var change := VersionEdit(edit.deletedFiles, NewFilesOf(disk, edit.newFiles));
      EditFitsLevels(disk, edit.Contents());
      v := InstallEdit(current, change);
      forall l, f {:trigger f in v[l]} | 0 <= l < NUM_LEVELS && f in v[l]
        ensures OnDisk(disk, f) && f.number < nextFileNumber
      {
        assert f in Files(v[l]);
        AddedOnDisk(disk, edit.Contents(), l);
      }
      forall l | 0 <= l < NUM_LEVELS ensures NumbersNameFiles(Files(v[l])) {
        SubsetNames(Files(v[l]), Files(current[l]) + AddedAt(change.newFiles, l));
      }
    }

    /** The compaction pointers that the builder sets right away. */
    method NextPointers(edit: E.VersionEdit)
      requires CurrentOk() && E.EditFits(edit.Contents())
      modifies `compactPointer
      ensures CurrentOk()
      ensures forall l | 0 <= l < NUM_LEVELS ::
        compactPointer[l] == PointerAt(old(compactPointer)[l], edit.compactPointers, l)
      ensures forall l | 0 <= l < NUM_LEVELS ::
        compactPointer[l] == PointerAt(compactPointer[l], edit.compactPointers, l)
    {
      hide E.EditFits;
      FitPointers(edit.Contents());
      ghost var before := compactPointer;
      compactPointer := ApplyPointers(compactPointer, edit.compactPointers);
      forall l | 0 <= l < NUM_LEVELS
        ensures |compactPointer[l]| < WORD_LIMIT
        ensures compactPointer[l] == PointerAt(compactPointer[l], edit.compactPointers, l)
      {
        PointerIsShort(before[l], edit.Contents(), l, |edit.compactPointers|);
        assert edit.compactPointers[..|edit.compactPointers|] == edit.compactPointers;
        PointersTwice(before[l], compactPointer[l], edit.compactPointers, l);
      }
    }

    /** Installs an edit: the new version, and the record that brings it back. */
    method LogAndApply(edit: E.VersionEdit)
      requires Valid() && (edit.logNumber.Some? ==> logNumber <= edit.logNumber.value < nextFileNumber)
      requires E.EditFits(edit.Contents()) && NameMatches(edit.Contents(), comparatorName)
      requires logNumber < LONG_LIMIT && prevLogNumber < LONG_LIMIT && nextFileNumber < LONG_LIMIT
      requires lastSequence < LONG_LIMIT
      requires forall l | 0 <= l < NUM_LEVELS ::
        var added := AddedAt(ChangeOf(disk, edit.Contents()).newFiles, l);
        && NumbersNameFiles(EverAdded(l) + added) && Files(current[l]) !! added
        && forall f | f in added :: f.number < nextFileNumber
      modifies this, edit, descriptorLog
      ensures Valid() && descriptorLog != null
      ensures if old(descriptorLog) == null then fresh(descriptorLog) else descriptorLog == old(descriptorLog)
      ensures forall l | 0 <= l < NUM_LEVELS ::
        Files(current[l]) == Install(Files(old(current)[l]), ChangeAt(ChangeOf(disk, old(edit.Contents())), l))
      ensures logNumber == (if old(edit.logNumber).Some? then old(edit.logNumber).value else old(logNumber))
      ensures prevLogNumber == (if old(edit.prevLogNumber).Some? then old(edit.prevLogNumber).value
        else old(prevLogNumber))
      ensures nextFileNumber == old(nextFileNumber) && lastSequence == old(lastSequence)
      ensures old(descriptorLog) != null ==>
        old(descriptorLog.dest) <= descriptorLog.dest && old(manifest).states <= manifest.states
      ensures |manifest.states| == (if old(descriptorLog) == null then 2 else old(|manifest.states|) + 1)
      ensures manifest.states[|manifest.states| - 1] ==
        State(current, logNumber, prevLogNumber, nextFileNumber, lastSequence, compactPointer)
    {
      hide E.EditFits;
      hide E.Scalars;
      hide ManifestOk;
      hide EncodeLog;
      hide NumbersNameFiles;
      hide LevelsSorted;
      hide LevelChanges;
      hide Install;
      hide AddedAt;
      hide ChangeAt;
      hide FoldAdded;
      hide AllOnDisk;
      hide NumbersUsed;
      hide E.IsEncoding;
      hide PointerAt;
      ghost var was := edit.Contents();
      CurrentIsNamed(ChangeOf(disk, was).newFiles);
      FillIn(edit);
      FilledFits(was, edit.Contents());
      SameChange(disk, was, edit.Contents());
      hide ChangeOf;
      var v := NextVersion(edit);
      UsedStays(v, logNumber, edit.logNumber.value, nextFileNumber);
      NextPointers(edit);
      if descriptorLog == null {
        OpenManifest();
      }
      assert forall l | 0 <= l < NUM_LEVELS :: EverAdded(l) == old(EverAdded(l));
      assert Follows(disk, manifest.edits, edit.Contents());
      AppendEdit(edit, v);
    }
  }

  lemma SameChange(disk: Disk, a: Edit, b: Edit)
    requires a.deletedFiles == b.deletedFiles && a.newFiles == b.newFiles
    ensures ChangeOf(disk, a) == ChangeOf(disk, b)
  {
  }

  lemma UsedStays(v: Version, log: nat, log': nat, next: nat)
    requires NumbersUsed(v, log, next) && (log' < next || log' == log)
    ensures NumbersUsed(v, log', next)
  {
  }

  lemma HeldWasAdded(disk: Disk, name: Bytes, m: Manifest, l: nat)
    requires ManifestOk(disk, name, m) && l < NUM_LEVELS
    ensures Files(m.states[|m.states| - 1].version[l]) <= FoldAdded(LevelChanges(disk, m.edits, l))
  {
    var n := |m.edits|;
    assert RecordOk(disk, name, m, n - 1);
    assert m.edits[..n - 1 + 1] == m.edits;
    InstalledWasAdded(LevelChanges(disk, m.edits, l));
  }

  lemma AddedOnDisk(disk: Disk, e: Edit, l: nat)
    requires KeysReadBack(disk) && E.EditFits(e)
    ensures forall f | f in AddedAt(ChangeOf(disk, e).newFiles, l) :: OnDisk(disk, f)
  {
    hide E.Scalars;
    forall f | f in AddedAt(ChangeOf(disk, e).newFiles, l) ensures OnDisk(disk, f) {
      var i :| 0 <= i < |e.newFiles| && NewFilesOf(disk, e.newFiles)[i] == (l, f);
      assert e.newFiles[i] in e.newFiles;
      assert E.Fits(E.NewFile(e.newFiles[i].0, e.newFiles[i].1));
    }
  }

  lemma {:induction false} InstalledWasAdded(cs: seq<Change>)
    ensures InstallAll({}, cs) <= FoldAdded(cs)
  {
    if cs != [] { InstalledWasAdded(cs[..|cs| - 1]); }
  }

  lemma {:induction false} PointerIsShort(before: Bytes, e: Edit, l: nat, n: nat)
    requires |before| < WORD_LIMIT && E.EditFits(e) && n <= |e.compactPointers|
    ensures |PointerAt(before, e.compactPointers[..n], l)| < WORD_LIMIT
  {
    hide E.Scalars;
    if n > 0 {
      var p := e.compactPointers[n - 1];
      assert e.compactPointers[..n][..n - 1] == e.compactPointers[..n - 1];
      assert p in e.compactPointers && E.Fits(E.CompactPointer(p.0, p.1));
      PointerIsShort(before, e, l, n - 1);
    }
  }

  lemma OneMoreFile(disk: Disk, fs: seq<(nat, E.FileMetaData)>, level: nat, f: File)
    requires OnDisk(disk, f) && level < NUM_LEVELS
    ensures var fs' := fs + [(level, MetaOf(disk, f))];
      && (forall l :: AddedAt(NewFilesOf(disk, fs'), l) == AddedAt(NewFilesOf(disk, fs), l) + if l == level then {f}
        else {})
      && E.Fits(E.NewFile(level, MetaOf(disk, f)))
  {
    var m := MetaOf(disk, f);
    FileIsReadBack(disk, f);
    assert NewFilesOf(disk, fs + [(level, m)]) == NewFilesOf(disk, fs) + [(level, f)];
  }

  lemma SnapshotFits(e: Edit, name: Bytes)
    requires e.comparator == Some(name) && |name| < WORD_LIMIT && e.logNumber.None?
    requires e.prevLogNumber.None?
    requires e.nextFileNumber.None? && e.lastSequence.None? && e.deletedFiles == {}
    requires forall p | p in e.compactPointers :: p.0 < NUM_LEVELS && |p.1| < WORD_LIMIT
    requires forall a | a in e.newFiles :: E.Fits(E.NewFile(a.0, a.1))
    ensures E.EditFits(e)
  {
  }

  lemma OneRecordLog(checksum: Checksum, record: Bytes)
    ensures EncodeLog(checksum, [record]) == EncodeRecord(checksum, 0, record)
  {
    hide EncodeRecord;
    assert [record][..0] == [];
  }

  lemma MoreRecords(checksum: Checksum, records: seq<Bytes>, record: Bytes)
    ensures EncodeLog(checksum, records + [record])
         == EncodeLog(checksum, records) + EncodeRecord(checksum, |EncodeLog(checksum, records)|, record)
  {
    hide EncodeRecord;
    assert (records + [record])[..|records|] == records;
  }

  lemma FilledFits(e: Edit, e': Edit)
    requires E.EditFits(e) && e'.logNumber.Some? && e'.prevLogNumber.Some?
    requires e'.nextFileNumber.Some? && e'.lastSequence.Some?
    requires e'.logNumber == e.logNumber || e'.logNumber.value < LONG_LIMIT
    requires e'.prevLogNumber == e.prevLogNumber || e'.prevLogNumber.value < LONG_LIMIT
    requires e'.nextFileNumber.value < LONG_LIMIT && e'.lastSequence.value < LONG_LIMIT
    requires e' == e.(logNumber := e'.logNumber, prevLogNumber := e'.prevLogNumber, nextFileNumber := e'.nextFileNumber,
      lastSequence := e'.lastSequence)
    ensures E.EditFits(e')
  {
    if e.comparator.Some? { assert E.Comparator(e.comparator.value) in E.Scalars(e); }
    if e.logNumber.Some? { assert E.LogNumber(e.logNumber.value) in E.Scalars(e); }
    if e.prevLogNumber.Some? { assert E.PrevLogNumber(e.prevLogNumber.value) in E.Scalars(e); }
  }

  /**
   A crash leaves the first `length` bytes of the MANIFEST.  Recovery gives the state of the last edit whose record is
   wholly in them, and goes on with file numbers that neither a table nor the log has.
   */
  method RecoverAfterCrash(vs: VersionSet, length: nat) returns (r: Recovered, ghost k: nat)
    requires vs.Valid() && vs.descriptorLog != null && length <= |vs.descriptorLog.dest|
    ensures k <= |vs.manifest.records| == |vs.manifest.states|
    ensures forall j | 0 <= j <= |vs.manifest.records|
      && |EncodeLog(vs.checksum, vs.manifest.records[..j])| <= length :: j <= k
    ensures if k < 2 then r == NoNextFile
      else
        var s := vs.manifest.states[k - 1];
        && r == Recovered(s.(nextFileNumber := s.nextFileNumber + 1), s.nextFileNumber)
        && NumbersUsed(r.state.version, r.state.logNumber, r.manifestFileNumber)
    ensures length == |vs.descriptorLog.dest| ==>
      && r.Recovered? && r.state.version == vs.current && r.state.compactPointers == vs.compactPointer
      && r.state.logNumber == vs.logNumber && r.state.prevLogNumber == vs.prevLogNumber
  {
    hide EncodeLog;
    hide Holds;
    hide PointersHeld;
    hide Whole;
    hide NameMatches;
    hide NumbersHeld;
    hide FilesNamed;
    hide E.IsEncoding;
    hide E.EditFits;
    ghost var m := vs.manifest;
    var file := vs.descriptorLog.dest[..length];
    r := Recover(vs.disk, vs.checksum, vs.comparatorName, vs.comparatorName, file, m);
    k := Whole(vs.checksum, m.records, length);
    WholeIsGreatest(vs.checksum, m.records, length);
    if k >= 1 { assert RecordOk(vs.disk, vs.comparatorName, m, k - 1); }
    assert m.records[..|m.records|] == m.records;
  }
}
