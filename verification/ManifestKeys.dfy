/**
 Byte strings as the keys of a MANIFEST: internal keys are written as db/dbformat.cc writes them, and what a key stands
 for is its rank.  For such a disk everything in `Manifests` can be met, from a new database to its recovery.
 */
module ManifestKeys {
  import opened InternalKeys
  import opened Coding
  import opened Versions
  import opened CompactionInputs
  import opened VersionBuilder
  import opened MemTables
  import opened EncodedReads
  import M = Manifests
  import E = EditCoding
  import L = LogFormat

  /** The key that has this rank, if it is short enough to be written down. */
  ghost predicate IsKeyOf(p: ParsedInternalKey, k: InternalKey) {
    RankOf(p) == k && |p.user| + 8 < WORD_LIMIT
  }

  /** Different keys have different ranks. */
  lemma KeyIsUnique(p: ParsedInternalKey, q: ParsedInternalKey, k: InternalKey)
    requires IsKeyOf(p, k) && IsKeyOf(q, k)
    ensures p == q
  {
    RankIsOrder(p.user, q.user);
  }

  ghost function Written(k: InternalKey): (r: Bytes) {
    if exists p :: IsKeyOf(p, k) then
      var p :| IsKeyOf(p, k);
      AppendInternalKey(p)
    else []
  }

  /** A string that is no internal key has no rank of its own and stands for the last key of the empty user key. */
  ghost function Read(b: Bytes): (r: InternalKey) {
    var p := ParseInternalKey(b);
    RankOf(if p.Some? then p.value else ParsedInternalKey([], 0, Deletion))
  }

  ghost function ByteDisk(table: nat -> seq<Entry>): (r: M.Disk) {
    M.Disk(k => Written(k), b => Read(b), table)
  }

  /** A key is written as its user key and its tag, and read back. */
  lemma KeyIsWritten(table: nat -> seq<Entry>, p: ParsedInternalKey)
    requires |p.user| + 8 < WORD_LIMIT
    ensures ByteDisk(table).encode(RankOf(p)) == AppendInternalKey(p)
    ensures M.KeyReadsBack(ByteDisk(table), RankOf(p))
  {
    hide RankOf;
    hide AppendInternalKey;
    hide ParseInternalKey;
    assert IsKeyOf(p, RankOf(p));
    var q :| IsKeyOf(q, RankOf(p)) && Written(RankOf(p)) == AppendInternalKey(q);
    KeyIsUnique(p, q, RankOf(p));
    ParseUndoesAppend(p);
  }

  /** The disk of byte strings meets what `Manifests` asks of one. */
  lemma ByteDiskReadsBack(table: nat -> seq<Entry>)
    ensures M.KeysReadBack(ByteDisk(table))
  {
    hide RankOf;
    hide AppendInternalKey;
    hide ParseInternalKey;
    hide M.KeyReadsBack;
    var disk := ByteDisk(table);
    forall b | |b| < WORD_LIMIT ensures M.KeyReadsBack(disk, disk.decode(b)) {
      var p := ParseInternalKey(b);
      if p.Some? {
        AppendUndoesParse(b);
        KeyIsWritten(table, p.value);
      } else {
        KeyIsWritten(table, ParsedInternalKey([], 0, Deletion));
      }
    }
  }

  lemma OneFileFits(disk: M.Disk, level: nat, f: File)
    requires M.OnDisk(disk, f) && level < NUM_LEVELS
    ensures var e := E.EMPTY_EDIT.(newFiles := [(level, M.MetaOf(disk, f))]);
      && E.EditFits(e)
      && (forall l | 0 <= l < NUM_LEVELS ::
           AddedAt(M.ChangeOf(disk, e).newFiles, l) == if l == level then {f} else {})
      && Install({}, ChangeAt(M.ChangeOf(disk, e), level)) == {f}
  {
    M.OneMoreFile(disk, [], level, f);
    assert [] + [(level, M.MetaOf(disk, f))] == [(level, M.MetaOf(disk, f))];
    var e := E.EMPTY_EDIT.(newFiles := [(level, M.MetaOf(disk, f))]);
    assert AddedAt(M.ChangeOf(disk, e).newFiles, level) == {f};
  }

  lemma KeyedIsOnDisk(disk: M.Disk, f: File, p: ParsedInternalKey, q: ParsedInternalKey)
    requires disk == ByteDisk(disk.table) && IsKeyOf(p, f.smallest) && IsKeyOf(q, f.largest)
    requires f.entries == disk.table(f.number) && f.number < LONG_LIMIT && f.size < LONG_LIMIT
    ensures M.KeysReadBack(disk) && M.OnDisk(disk, f)
  {
    hide RankOf;
    ByteDiskReadsBack(disk.table);
    KeyIsWritten(disk.table, p);
    KeyIsWritten(disk.table, q);
  }

  /** A version set for a new database: nothing is installed, and the numbers below `next` are taken. */
  method NewVersionSet(disk: M.Disk, checksum: L.Checksum, name: Bytes, next: nat) returns (vs: M.VersionSet)
    requires M.KeysReadBack(disk) && |name| < WORD_LIMIT && next > 0
    ensures fresh(vs) && vs.Valid() && vs.descriptorLog == null
    ensures vs.disk == disk && vs.checksum == checksum && vs.comparatorName == name
    ensures |vs.current| == NUM_LEVELS && forall l | 0 <= l < NUM_LEVELS :: vs.current[l] == []
    ensures vs.logNumber == vs.prevLogNumber == vs.lastSequence == 0 && vs.nextFileNumber == next
  {
    hide M.KeysReadBack;
    var v: Version := seq(NUM_LEVELS, _ => []);
    vs := new M.VersionSet(disk, checksum, name, M.State(v, 0, 0, next, 0, seq(NUM_LEVELS, _ => [])));
  }

  /** A table with byte-string keys that is recorded in the MANIFEST of a new database is there after recovery. */
  method RecordAndRecover(disk: M.Disk, checksum: L.Checksum, name: Bytes, level: nat, f: File,
      ghost p: ParsedInternalKey, ghost q: ParsedInternalKey)
    returns (vs: M.VersionSet, r: M.Recovered)
    requires disk == ByteDisk(disk.table) && |name| < WORD_LIMIT && level < NUM_LEVELS
    requires IsKeyOf(p, f.smallest) && IsKeyOf(q, f.largest) && f.entries == disk.table(f.number)
    requires f.number + 1 < LONG_LIMIT && f.size < LONG_LIMIT
    ensures fresh(vs) && vs.Valid() && vs.descriptorLog != null
    ensures r.Recovered? && Files(r.state.version[level]) == {f}
  {
    hide ByteDisk;
    hide IsKeyOf;
    hide M.KeysReadBack;
    hide M.OnDisk;
    hide M.MetaOf;
    hide M.ChangeOf;
    hide M.ManifestOk;
    hide M.AllOnDisk;
    hide M.NumbersUsed;
    hide E.EditFits;
    hide Install;
    hide LevelsSorted;
    KeyedIsOnDisk(disk, f, p, q);
    vs := NewVersionSet(disk, checksum, name, f.number + 1);
    var edit := new E.VersionEdit();
    edit.newFiles := [(level, M.MetaOf(disk, f))];
    OneFileFits(disk, level, f);
    assert edit.Contents() == E.EMPTY_EDIT.(newFiles := [(level, M.MetaOf(disk, f))]);
    assert Files(vs.current[level]) == {};
    vs.LogAndApply(edit);
    ghost var k;
    r, k := M.RecoverAfterCrash(vs, |vs.descriptorLog.dest|);
  }
}
