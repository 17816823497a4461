/**
 The rollback journal of a physical log (storage/undo.go) as a step machine over
 what the process sees and what a power loss may leave behind.

 Each event is one system call of saveUndo, commitUndo or restoreUndo, one change of the
 data file by the log that owns it, a close, or a crash. Every call may fail.

 Crash model. Data: every byte below the first byte that changed since the last fsync is
 kept; everything from there on, the length included, is arbitrary. Directory: the
 `.undo` entry is any value it had since the last directory sync. A journal file renamed
 into place before its own fsync may be found torn.
 */
module Journal {
  import opened Bytes

  /** A decoded journal: the original suffix of the data file from `start` to `size`. */
  datatype Record = Record(start: nat, size: nat, identity: Bytes, suffix: Bytes)

  datatype Entry = Absent | Torn | Saved(record: Record)

  datatype Temp = NoTemp | Written(record: Record, synced: bool)

  /** The data file: as the process reads it, its content at the last fsync, whether it
      changed since, and an offset below which nothing changed since. */
  datatype File = File(data: Bytes, durable: Bytes, dirty: bool, floor: nat)

  /** The journal's name as the process sees it, what a crash may leave under that name,
      and the replacement being written beside it. */
  datatype Dir = Dir(entry: Entry, mayBe: set<Entry>, temp: Temp)

  /** Where the owner of the log stands; its mutex makes every operation sequential. */
  datatype Pc =
    | Closed
    | Idle
    | SaveWritten(from: nat)
    | SaveSynced(from: nat)
    | SaveRenamed(from: nat)
    | CommitSynced
    | CommitRemoved
    | RestoreCopying(record: Record)
    | RestoreCopied(record: Record)
    | RestoreTruncated(record: Record)
    | RestoreSynced
    | RestoreRemoved

  /** `acked` is the image of the last acknowledged commit (or of the last recovery);
      `attempts` are the images whose commit was begun after it. */
  datatype State = State(file: File, dir: Dir, pc: Pc, active: bool, start: nat, acked: Bytes, attempts: set<Bytes>)

  datatype Event =
    | Save(from: nat)
    | SaveSync(ok: bool)
    | SaveRename(ok: bool)
    | SaveDirSync(ok: bool)
    | Mutate(image: Bytes)
    | CommitSync(ok: bool)
    | CommitRemove(ok: bool)
    | CommitDirSync(ok: bool)
    | Close
    | Crash(found: Bytes, name: Entry, leftover: Temp)
    | RestoreOpen
    | RestoreCopy(progress: nat)
    | RestoreTruncate
    | RestoreSync(ok: bool)
    | RestoreRemove(ok: bool)
    | RestoreDirSync(ok: bool)
    | RestoreFail

  /* ---- the file system ---- */

  function WriteData(f: File, image: Bytes): File {
    if image == f.data then f
    else
      var same := Common(f.data, image);
      File(image, f.durable, true, if same < f.floor then same else f.floor)
  }

  function SyncData(f: File): File {
    File(f.data, f.data, false, |f.data|)
  }

  function Rename(d: Dir): Dir
    requires d.temp.Written?
  {
    var name := Saved(d.temp.record);
    Dir(name, d.mayBe + {name} + (if d.temp.synced then {} else {Torn}), NoTemp)
  }

  function Remove(d: Dir): Dir {
    d.(entry := Absent, mayBe := d.mayBe + {Absent})
  }

  function SyncDir(d: Dir): Dir {
    d.(mayBe := {d.entry})
  }

  /** What a crash may leave of the data file and of the journal's name. */
  predicate CrashLeaves(f: File, d: Dir, found: Bytes, name: Entry) {
    && name in d.mayBe
    && if f.dirty then |found| >= f.floor && |f.durable| >= f.floor && found[..f.floor] == f.durable[..f.floor]
       else found == f.durable
  }

  /* ---- storage/undo.go ---- */

  /** undoIdentity digests at most one sector from the front and fails on a shorter file. */
  predicate IdentityReadable(data: Bytes, start: nat) {
    start <= |data| || SECTOR <= |data|
  }

  function Identity(data: Bytes, start: nat): Bytes
    requires IdentityReadable(data, start)
  {
    if start < SECTOR then data[..start] else data[..SECTOR]
  }

  predicate Matches(data: Bytes, r: Record) {
    IdentityReadable(data, r.start) && Identity(data, r.start) == r.identity
  }

  datatype Recovery = Recovered(image: Bytes) | Refused

  /** The image an uninterrupted restoreUndo leaves. */
  function Recover(data: Bytes, name: Entry): Recovery {
    match name
    case Absent => Recovered(data)
    case Torn => Refused
    case Saved(r) =>
      if Matches(data, r) then Recovered(Resize(Overwrite(data, r.start, r.suffix), r.size)) else Refused
  }

  datatype Plan = Fail | Resync | Fresh(record: Record)

  /** saveUndo up to its first sync: an error, an existing journal that only needs its
      directory synced, or the record to write. */
  function PlanSave(data: Bytes, entry: Entry, from: nat): Plan {
    match entry
    case Torn => Fail
    case Absent =>
      if from > |data| then Fail
      else Fresh(Record(from, |data|, Identity(data, from), data[from..]))
    case Saved(prior) =>
      if from >= prior.start then
        if Matches(data, prior) then Resync else Fail
      else if from > prior.size || prior.start > |data| || Identity(data, from) != prior.identity then Fail
      else Fresh(Record(from, prior.size, prior.identity, data[from..prior.start] + prior.suffix))
  }

  /** One event. An event that the program counter does not allow changes nothing. */
  function Step(s: State, e: Event): State {
    match e
    case Save(from) => StepSave(s, from)
    case SaveSync(ok) => StepSaveSync(s, ok)
    case SaveRename(ok) => StepSaveRename(s, ok)
    case SaveDirSync(ok) => StepSaveDirSync(s, ok)
    case Mutate(image) => StepMutate(s, image)
    case CommitSync(ok) => StepCommitSync(s, ok)
    case CommitRemove(ok) => StepCommitRemove(s, ok)
    case CommitDirSync(ok) => StepCommitDirSync(s, ok)
    case Close => if s.pc.Idle? then s.(pc := Closed, active := false) else s
    case Crash(found, name, leftover) => StepCrash(s, found, name, leftover)
    case RestoreOpen => StepRestoreOpen(s)
    case RestoreCopy(progress) => StepRestoreCopy(s, progress)
    case RestoreTruncate => StepRestoreTruncate(s)
    case RestoreSync(ok) => StepRestoreSync(s, ok)
    case RestoreRemove(ok) => StepRestoreRemove(s, ok)
    case RestoreDirSync(ok) => StepRestoreDirSync(s, ok)
    case RestoreFail => if Restoring(s.pc) then s.(pc := Closed) else s
  }

  /** protectPrefixLocked skips a range that is already protected. Every start the log
      passes lies past the superblock sector. */
  function StepSave(s: State, from: nat): State {
    if !s.pc.Idle? || from < SECTOR || (s.active && from >= s.start) then s
    else
      match PlanSave(s.file.data, s.dir.entry, from)
      case Fail => s
      case Resync => s.(pc := SaveRenamed(from))
      case Fresh(record) => s.(dir := s.dir.(temp := Written(record, false)), pc := SaveWritten(from))
  }

  function StepSaveSync(s: State, ok: bool): State {
    if !s.pc.SaveWritten? || !s.dir.temp.Written? then s
    else if ok then s.(dir := s.dir.(temp := s.dir.temp.(synced := true)), pc := SaveSynced(s.pc.from))
    else s.(dir := s.dir.(temp := NoTemp), pc := Idle)
  }

  function StepSaveRename(s: State, ok: bool): State {
    if !s.pc.SaveSynced? || !s.dir.temp.Written? then s
    else if ok then s.(dir := Rename(s.dir), pc := SaveRenamed(s.pc.from))
    else s.(dir := s.dir.(temp := NoTemp), pc := Idle)
  }

  function StepSaveDirSync(s: State, ok: bool): State {
    if !s.pc.SaveRenamed? then s
    else if ok then s.(dir := SyncDir(s.dir), pc := Idle, active := true, start := s.pc.from)
    else s.(pc := Idle)
  }

  /** The log rewrites, extends or truncates its file at or above the protected start. */
  function StepMutate(s: State, image: Bytes): State {
    if s.pc.Idle? && s.active && |s.file.data| >= s.start && |image| >= s.start && image[..s.start] == s.file.data[..s.start]
    then s.(file := WriteData(s.file, image)) else s
  }

  function StepCommitSync(s: State, ok: bool): State {
    if !s.pc.Idle? then s
    else
      var begun := s.(active := false, attempts := s.attempts + {s.file.data});
      if ok then begun.(file := SyncData(s.file), pc := CommitSynced) else begun
  }

  function StepCommitRemove(s: State, ok: bool): State {
    if !s.pc.CommitSynced? then s
    else if s.dir.entry.Absent? then s.(pc := CommitRemoved)
    else if ok then s.(dir := Remove(s.dir), pc := CommitRemoved)
    else s.(pc := Idle)
  }

  function StepCommitDirSync(s: State, ok: bool): State {
    if !s.pc.CommitRemoved? then s
    else if ok then s.(dir := SyncDir(s.dir), pc := Idle, acked := s.file.data, attempts := {})
    else s.(pc := Idle)
  }

  /** A crash at any point; from here on recovery must keep yielding the image it yields now. */
  function StepCrash(s: State, found: Bytes, name: Entry, leftover: Temp): State {
    if !CrashLeaves(s.file, s.dir, found, name) then s
    else
      var r := Recover(found, name);
      State(File(found, found, false, |found|), Dir(name, {name}, leftover), Closed, false, 0,
            if r.Recovered? then r.image else s.acked, {})
  }

  function StepRestoreOpen(s: State): State {
    if !s.pc.Closed? then s
    else
      match s.dir.entry
      case Absent => s.(pc := RestoreRemoved)
      case Torn => s
      case Saved(r) => if Matches(s.file.data, r) then s.(pc := RestoreCopying(r)) else s
  }

  function StepRestoreCopy(s: State, progress: nat): State {
    if !s.pc.RestoreCopying? || progress > |s.pc.record.suffix| then s
    else
      var r := s.pc.record;
      s.(file := WriteData(s.file, Overwrite(s.file.data, r.start, r.suffix[..progress])),
         pc := if progress == |r.suffix| then RestoreCopied(r) else s.pc)
  }

  function StepRestoreTruncate(s: State): State {
    if !s.pc.RestoreCopied? then s
    else s.(file := WriteData(s.file, Resize(s.file.data, s.pc.record.size)), pc := RestoreTruncated(s.pc.record))
  }

  function StepRestoreSync(s: State, ok: bool): State {
    if !s.pc.RestoreTruncated? then s
    else if ok then s.(file := SyncData(s.file), pc := RestoreSynced)
    else s.(pc := Closed)
  }

  function StepRestoreRemove(s: State, ok: bool): State {
    if !s.pc.RestoreSynced? then s
    else if ok then s.(dir := Remove(s.dir), pc := RestoreRemoved)
    else s.(pc := Closed)
  }

  function StepRestoreDirSync(s: State, ok: bool): State {
    if !s.pc.RestoreRemoved? then s
    else if ok then s.(dir := SyncDir(s.dir), pc := Idle)
    else s.(pc := Closed)
  }

  predicate Restoring(pc: Pc) {
    pc.RestoreCopying? || pc.RestoreCopied? || pc.RestoreTruncated? || pc.RestoreSynced? || pc.RestoreRemoved?
  }

  function Run(s: State, es: seq<Event>): State {
    if es == [] then s else Step(Run(s, es[..|es| - 1]), es[|es| - 1])
  }

  /** A log just opened on a committed image with no journal left. */
  predicate Initial(s: State) {
    && s.file == File(s.acked, s.acked, false, |s.acked|)
    && s.dir == Dir(Absent, {Absent}, NoTemp)
    && s.pc == Idle && !s.active && s.attempts == {}
    && |s.acked| >= SECTOR
  }

  function Opened(image: Bytes): State {
    State(File(image, image, false, |image|), Dir(Absent, {Absent}, NoTemp), Idle, false, 0, image, {})
  }

  /* ---- the invariant ---- */

  function Allowed(s: State): set<Bytes> {
    s.attempts + {s.acked}
  }

  /** `r` belongs to the file and everything below its start is durable. */
  predicate Fits(f: File, r: Record) {
    && SECTOR <= r.start <= |f.durable|
    && (f.dirty ==> r.start <= f.floor)
    && r.size == r.start + |r.suffix|
    && r.identity == f.durable[..SECTOR]
  }

  /** The image `r` restores over the durable prefix it does not cover. */
  function Image(f: File, r: Record): Bytes
    requires r.start <= |f.durable|
  {
    f.durable[..r.start] + r.suffix
  }

  predicate Safe(f: File, allowed: set<Bytes>, name: Entry) {
    match name
    case Absent => !f.dirty && f.durable in allowed
    case Torn => false
    case Saved(r) => Fits(f, r) && Image(f, r) in allowed
  }

  predicate AllSafe(f: File, allowed: set<Bytes>, mayBe: set<Entry>) {
    forall name :: name in mayBe ==> Safe(f, allowed, name)
  }

  /** Every possible entry is a journal of one and the same image. */
  predicate OneImage(f: File, mayBe: set<Entry>, image: Bytes) {
    forall name :: name in mayBe ==> name.Saved? && Fits(f, name.record) && Image(f, name.record) == image
  }

  /** Restoring `image` cannot disturb what any other possible entry relies on. */
  predicate Joint(f: File, mayBe: set<Entry>, image: Bytes) {
    OneImage(f, mayBe, image) || (!f.dirty && image == f.durable)
  }

  predicate Coherent(f: File) {
    && SECTOR <= f.floor <= |f.durable| && f.floor <= |f.data|
    && f.data[..f.floor] == f.durable[..f.floor]
    && (!f.dirty ==> f.data == f.durable && f.floor == |f.data|)
  }

  predicate Covered(f: File, d: Dir, allowed: set<Bytes>) {
    && d.entry in d.mayBe
    && AllSafe(f, allowed, d.mayBe)
    && (d.entry.Saved? ==> d.entry.record.start <= |f.durable| && Joint(f, d.mayBe, Image(f, d.entry.record)))
  }

  /** While `protectPrefixLocked` reports the log protected from `start`. */
  predicate Protected(f: File, d: Dir, start: nat) {
    && d.entry.Saved? && d.entry.record.start <= |f.durable|
    && OneImage(f, d.mayBe, Image(f, d.entry.record))
    && forall name :: name in d.mayBe && name.Saved? ==> name.record.start <= start
  }

  predicate Quiet(s: State) {
    !s.active && !s.file.dirty && s.file.durable in Allowed(s)
  }

  predicate PcInv(s: State) {
    match s.pc
    case Closed => !s.active
    case Idle => true
    case SaveWritten(from) => PendingSave(s, from)
    case SaveSynced(from) => PendingSave(s, from) && s.dir.temp.synced
    case SaveRenamed(from) => s.dir.entry.Saved? && s.dir.entry.record.start <= from
    case CommitSynced => Quiet(s)
    case CommitRemoved => Quiet(s) && s.dir.entry.Absent?
    case RestoreCopying(r) => !s.active && s.dir.entry == Saved(r)
    case RestoreCopied(r) => !s.active && s.dir.entry == Saved(r) && r.start <= |s.file.durable| && Image(s.file, r) <= s.file.data
    case RestoreTruncated(r) => !s.active && s.dir.entry == Saved(r) && r.start <= |s.file.durable| && Image(s.file, r) == s.file.data
    case RestoreSynced => Quiet(s)
    case RestoreRemoved => Quiet(s) && s.dir.entry.Absent?
  }

  predicate PendingSave(s: State, from: nat) {
    && s.dir.temp.Written?
    && var r := s.dir.temp.record;
    && Safe(s.file, Allowed(s), Saved(r)) && r.start == from
    && Joint(s.file, s.dir.mayBe, Image(s.file, r))
    && (s.active ==> from <= s.start && OneImage(s.file, s.dir.mayBe, Image(s.file, r)))
  }

  predicate Inv(s: State) {
    && Coherent(s.file)
    && Covered(s.file, s.dir, Allowed(s))
    && (s.active ==> Protected(s.file, s.dir, s.start))
    && PcInv(s)
  }

  /* ---- facts about prefixes ---- */

  /** Below its floor a file still reads as it is on disk. */
  lemma Agrees(f: File, n: nat)
    requires Coherent(f) && n <= |f.durable| && (f.dirty ==> n <= f.floor)
    ensures n <= |f.data| && f.data[..n] == f.durable[..n]
  {
  }

  lemma Shorter(a: Bytes, b: Bytes, n: nat, m: nat)
    requires m <= n <= |a| && n <= |b| && a[..n] == b[..n]
    ensures a[..m] == b[..m]
  {
  }

  /** Writing at or above `low` keeps every journal that starts at or below `low` restorable. */
  lemma WriteKeeps(f: File, image: Bytes, low: nat)
    requires Coherent(f) && SECTOR <= low <= |image| && low <= |f.durable| && (f.dirty ==> low <= f.floor)
    requires image[..low] == f.durable[..low]
    ensures Coherent(WriteData(f, image))
    ensures WriteData(f, image).dirty ==> low <= WriteData(f, image).floor
  {
  }

  /** An fsync changes no image that a possible journal restores. */
  lemma SyncKeeps(f: File, r: Record)
    requires Coherent(f) && Fits(f, r)
    ensures Fits(SyncData(f), r) && Image(SyncData(f), r) == Image(f, r)
  {
  }

  /* ---- crashes ---- */

  /** Whatever a crash leaves, restoreUndo accepts it and restores an allowed image. */
  lemma CrashRecovers(f: File, d: Dir, allowed: set<Bytes>, found: Bytes, name: Entry)
    requires Coherent(f) && Covered(f, d, allowed) && CrashLeaves(f, d, found, name)
    ensures Recover(found, name).Recovered? && Recover(found, name).image in allowed
    ensures |found| >= SECTOR && found[..SECTOR] == f.durable[..SECTOR]
    ensures name.Saved? ==> |found| >= name.record.start && Fits(f, name.record)
    ensures name.Saved? ==> Recover(found, name).image == found[..name.record.start] + name.record.suffix
  {
    assert Safe(f, allowed, name);
    if name.Saved? {
      var r := name.record;
      if f.dirty {
        Shorter(found, f.durable, f.floor, r.start);
      }
      Shorter(found, f.durable, r.start, SECTOR);
      assert Resize(Overwrite(found, r.start, r.suffix), r.size) == found[..r.start] + r.suffix;
    }
  }

  lemma StepCrashInv(s: State, found: Bytes, name: Entry, leftover: Temp)
    requires Inv(s)
    ensures Inv(StepCrash(s, found, name, leftover))
  {
  }

  /** Without a crash a restore yields the image its journal stands for. */
  lemma RecoverIsImage(f: File, d: Dir, allowed: set<Bytes>, r: Record)
    requires Coherent(f) && Covered(f, d, allowed) && d.entry == Saved(r)
    ensures Fits(f, r) && Recover(f.data, Saved(r)) == Recovered(Image(f, r))
  {
  }

  /* ---- saveUndo ---- */

  lemma StepSaveInv(s: State, from: nat)
    requires Inv(s)
    ensures Inv(StepSave(s, from))
  {
    var t := StepSave(s, from);
    if t.pc.SaveWritten? && s.pc.Idle? {
      var f, entry, r := s.file, s.dir.entry, t.dir.temp.record;
      assert Safe(f, Allowed(s), entry);
      if entry.Saved? {
        var prior := entry.record;
        Agrees(f, prior.start);
        Shorter(f.data, f.durable, prior.start, SECTOR);
        assert Image(f, r) == Image(f, prior) by {
          assert f.data[from..prior.start] == f.data[..prior.start][from..];
          assert f.durable[..prior.start] == f.durable[..from] + f.durable[..prior.start][from..];
        }
      } else {
        assert Image(f, r) == f.durable;
      }
    }
  }

  lemma StepSaveSyncInv(s: State, ok: bool)
    requires Inv(s)
    ensures Inv(StepSaveSync(s, ok))
  {
  }

  lemma StepSaveRenameInv(s: State, ok: bool)
    requires Inv(s)
    ensures Inv(StepSaveRename(s, ok))
  {
    var t := StepSaveRename(s, ok);
    if t.pc.SaveRenamed? && s.pc.SaveSynced? {
      var r := s.dir.temp.record;
      assert t.dir.mayBe == s.dir.mayBe + {Saved(r)};
      assert Joint(s.file, t.dir.mayBe, Image(s.file, r));
    }
  }

  lemma StepSaveDirSyncInv(s: State, ok: bool)
    requires Inv(s)
    ensures Inv(StepSaveDirSync(s, ok))
  {
  }

  /* ---- the log's own writes ---- */

  lemma StepMutateInv(s: State, image: Bytes)
    requires Inv(s)
    ensures Inv(StepMutate(s, image))
  {
    var t := StepMutate(s, image);
    if t != s {
      var f, g := s.file, t.file;
      forall name | name in s.dir.mayBe
        ensures Coherent(g) && name.Saved? && Fits(g, name.record) && Image(g, name.record) == Image(f, name.record)
      {
        var low := name.record.start;
        Agrees(f, low);
        Shorter(image, f.data, s.start, low);
        WriteKeeps(f, image, low);
      }
      assert s.dir.entry in s.dir.mayBe;
      assert OneImage(g, s.dir.mayBe, Image(g, s.dir.entry.record));
      forall name | name in s.dir.mayBe ensures Safe(g, Allowed(t), name) {
        assert Safe(f, Allowed(s), name);
      }
    }
  }

  /* ---- commitUndo ---- */

  lemma SyncCovered(f: File, d: Dir, allowed: set<Bytes>, more: set<Bytes>)
    requires Coherent(f) && Covered(f, d, allowed) && allowed <= more
    ensures Coherent(SyncData(f)) && Covered(SyncData(f), d, more)
  {
    var g := SyncData(f);
    forall name | name in d.mayBe
      ensures Safe(g, more, name)
      ensures name.Saved? ==> Fits(f, name.record) && Fits(g, name.record) && Image(g, name.record) == Image(f, name.record)
    {
      assert Safe(f, allowed, name);
      if name.Saved? {
        SyncKeeps(f, name.record);
      }
    }
  }

  lemma StepCommitSyncInv(s: State, ok: bool)
    requires Inv(s)
    ensures Inv(StepCommitSync(s, ok))
  {
    if s.pc.Idle? {
      var t := StepCommitSync(s, ok);
      assert Allowed(s) <= Allowed(t);
      if ok {
        SyncCovered(s.file, s.dir, Allowed(s), Allowed(t));
      } else {
        forall name | name in s.dir.mayBe ensures Safe(s.file, Allowed(t), name) {
          assert Safe(s.file, Allowed(s), name);
        }
      }
    }
  }

  lemma StepCommitRemoveInv(s: State, ok: bool)
    requires Inv(s)
    ensures Inv(StepCommitRemove(s, ok))
  {
  }

  lemma StepCommitDirSyncInv(s: State, ok: bool)
    requires Inv(s)
    ensures Inv(StepCommitDirSync(s, ok))
  {
  }

  /* ---- restoreUndo ---- */

  /** While a restore rewrites the file towards `image`, nothing any possible entry needs changes. */
  lemma RestoreWrite(f: File, d: Dir, allowed: set<Bytes>, r: Record, image: Bytes, next: Bytes)
    requires Coherent(f) && Covered(f, d, allowed) && d.entry == Saved(r) && Fits(f, r)
    requires image == Image(f, r)
    requires |next| >= |image| || |next| >= |f.data|
    requires forall i :: 0 <= i < |next| ==> (i < |f.data| && next[i] == f.data[i]) || (i < |image| && next[i] == image[i])
    requires !f.dirty && image == f.durable ==> next == f.data
    ensures Coherent(WriteData(f, next)) && Covered(WriteData(f, next), d, allowed)
    ensures Fits(WriteData(f, next), r) && Image(WriteData(f, next), r) == image
  {
    var g := WriteData(f, next);
    if next != f.data {
      assert OneImage(f, d.mayBe, image);
      forall name | name in d.mayBe
        ensures Coherent(g) && name.Saved? && Fits(g, name.record) && Image(g, name.record) == image && Safe(g, allowed, name)
      {
        var low := name.record.start;
        assert Safe(f, allowed, name);
        Agrees(f, low);
        assert image[..low] == f.durable[..low];
        forall i | 0 <= i < low ensures i < |next| && next[i] == f.durable[i] {
          assert f.data[..low][i] == f.durable[..low][i] == image[..low][i];
        }
        assert next[..low] == f.durable[..low];
        WriteKeeps(f, next, low);
      }
      assert Saved(r) in d.mayBe;
    }
  }

  /** A partial copy mixes the file with the image; a full one makes the image its prefix. */
  lemma CopyMixes(data: Bytes, start: nat, suffix: Bytes, image: Bytes, progress: nat)
    requires start <= |data| && progress <= |suffix| && image == data[..start] + suffix
    ensures var next := Overwrite(data, start, suffix[..progress]);
            && |next| >= |data|
            && (forall i :: 0 <= i < |next| ==> (i < |data| && next[i] == data[i]) || (i < |image| && next[i] == image[i]))
            && (progress == |suffix| ==> image <= next)
            && (image == data ==> next == data)
  {
  }

  lemma StepRestoreCopyInv(s: State, progress: nat)
    requires Inv(s)
    ensures Inv(StepRestoreCopy(s, progress))
  {
    if s.pc.RestoreCopying? && progress <= |s.pc.record.suffix| {
      var f, r := s.file, s.pc.record;
      assert Safe(f, Allowed(s), Saved(r));
      Agrees(f, r.start);
      CopyMixes(f.data, r.start, r.suffix, Image(f, r), progress);
      RestoreWrite(f, s.dir, Allowed(s), r, Image(f, r), Overwrite(f.data, r.start, r.suffix[..progress]));
    }
  }

  lemma StepRestoreTruncateInv(s: State)
    requires Inv(s)
    ensures Inv(StepRestoreTruncate(s))
  {
    if s.pc.RestoreCopied? {
      var f, r := s.file, s.pc.record;
      assert Safe(f, Allowed(s), Saved(r));
      var image := Image(f, r);
      assert Resize(f.data, r.size) == image;
      RestoreWrite(f, s.dir, Allowed(s), r, image, image);
    }
  }

  /** Copying the whole suffix and truncating yields the image recovery decides. */
  lemma ReplayImage(s: State, progress: nat)
    requires Inv(s) && s.pc.RestoreCopying? && progress == |s.pc.record.suffix|
    ensures var t := StepRestoreTruncate(StepRestoreCopy(s, progress));
            t.pc.RestoreTruncated? && Recover(s.file.data, s.dir.entry) == Recovered(t.file.data)
  {
    var r := s.pc.record;
    RecoverIsImage(s.file, s.dir, Allowed(s), r);
    StepRestoreCopyInv(s, progress);
    StepRestoreTruncateInv(StepRestoreCopy(s, progress));
  }

  lemma StepRestoreSyncInv(s: State, ok: bool)
    requires Inv(s)
    ensures Inv(StepRestoreSync(s, ok))
  {
    if s.pc.RestoreTruncated? && ok {
      assert Safe(s.file, Allowed(s), s.dir.entry);
      SyncCovered(s.file, s.dir, Allowed(s), Allowed(s));
    }
  }

  lemma StepRestoreOpenInv(s: State)
    requires Inv(s)
    ensures Inv(StepRestoreOpen(s))
  {
  }

  lemma StepRestoreRemoveInv(s: State, ok: bool)
    requires Inv(s)
    ensures Inv(StepRestoreRemove(s, ok))
  {
  }

  lemma StepRestoreDirSyncInv(s: State, ok: bool)
    requires Inv(s)
    ensures Inv(StepRestoreDirSync(s, ok))
  {
  }

  /* ---- whole runs ---- */

  lemma StopInv(s: State)
    requires Inv(s)
    ensures Inv(Step(s, Close)) && Inv(Step(s, RestoreFail))
  {
  }

  lemma SaveStepInv(s: State, e: Event)
    requires Inv(s) && (e.Save? || e.SaveSync? || e.SaveRename? || e.SaveDirSync? || e.Mutate? || e.Crash?)
    ensures Inv(Step(s, e))
  {
    match e
    case Save(from) => StepSaveInv(s, from);
    case SaveSync(ok) => StepSaveSyncInv(s, ok);
    case SaveRename(ok) => StepSaveRenameInv(s, ok);
    case SaveDirSync(ok) => StepSaveDirSyncInv(s, ok);
    case Mutate(image) => StepMutateInv(s, image);
    case Crash(found, name, leftover) => StepCrashInv(s, found, name, leftover);
  }

  lemma CommitStepInv(s: State, e: Event)
    requires Inv(s) && (e.CommitSync? || e.CommitRemove? || e.CommitDirSync?)
    ensures Inv(Step(s, e))
  {
    match e
    case CommitSync(ok) => StepCommitSyncInv(s, ok);
    case CommitRemove(ok) => StepCommitRemoveInv(s, ok);
    case CommitDirSync(ok) => StepCommitDirSyncInv(s, ok);
  }

  lemma RestoreStepInv(s: State, e: Event)
    requires Inv(s) && (e.RestoreOpen? || e.RestoreCopy? || e.RestoreTruncate? || e.RestoreSync? || e.RestoreRemove? || e.RestoreDirSync?)
    ensures Inv(Step(s, e))
  {
    match e
    case RestoreOpen => StepRestoreOpenInv(s);
    case RestoreCopy(progress) => StepRestoreCopyInv(s, progress);
    case RestoreTruncate => StepRestoreTruncateInv(s);
    case RestoreSync(ok) => StepRestoreSyncInv(s, ok);
    case RestoreRemove(ok) => StepRestoreRemoveInv(s, ok);
    case RestoreDirSync(ok) => StepRestoreDirSyncInv(s, ok);
  }

  lemma StepInv(s: State, e: Event)
    requires Inv(s)
    ensures Inv(Step(s, e))
  {
    if e.Close? || e.RestoreFail? {
      StopInv(s);
    } else if e.CommitSync? || e.CommitRemove? || e.CommitDirSync? {
      CommitStepInv(s, e);
    } else if e.RestoreOpen? || e.RestoreCopy? || e.RestoreTruncate? || e.RestoreSync? || e.RestoreRemove? || e.RestoreDirSync? {
      RestoreStepInv(s, e);
    } else {
      SaveStepInv(s, e);
    }
  }

  lemma {:induction false} RunInv(s: State, es: seq<Event>)
    requires Initial(s)
    ensures Inv(Run(s, es))
  {
    if es != [] {
      RunInv(s, es[..|es| - 1]);
      StepInv(Run(s, es[..|es| - 1]), es[|es| - 1]);
    }
  }

  /** Crash safety: after any run, whatever a power loss leaves, restoreUndo accepts it and yields
      the image of the last acknowledged commit or of a commit begun after it. */
  lemma CrashSafety(s: State, es: seq<Event>, found: Bytes, name: Entry)
    requires Initial(s)
    requires CrashLeaves(Run(s, es).file, Run(s, es).dir, found, name)
    ensures Recover(found, name).Recovered?
    ensures Recover(found, name).image == Run(s, es).acked || Recover(found, name).image in Run(s, es).attempts
  {
    RunInv(s, es);
    var t := Run(s, es);
    CrashRecovers(t.file, t.dir, Allowed(t), found, name);
  }

  predicate NoCommit(es: seq<Event>) {
    forall i :: 0 <= i < |es| ==> !es[i].CommitSync?
  }

  /** With no commit begun, no event changes what recovery yields: neither protecting, nor writing,
      nor crashing again, nor a restore that is interrupted at any of its steps. */
  lemma StepKeepsImage(s: State, e: Event)
    requires Inv(s) && s.attempts == {} && !s.pc.CommitSynced? && !s.pc.CommitRemoved? && !e.CommitSync?
    ensures Step(s, e).acked == s.acked && Step(s, e).attempts == {}
    ensures !Step(s, e).pc.CommitSynced? && !Step(s, e).pc.CommitRemoved?
  {
    if e.Crash? && CrashLeaves(s.file, s.dir, e.found, e.name) {
      CrashRecovers(s.file, s.dir, Allowed(s), e.found, e.name);
    }
  }

  lemma {:induction false} RunKeepsImage(s: State, es: seq<Event>)
    requires Inv(s) && s.attempts == {} && !s.pc.CommitSynced? && !s.pc.CommitRemoved? && NoCommit(es)
    ensures Inv(Run(s, es)) && Run(s, es).acked == s.acked && Run(s, es).attempts == {}
    ensures !Run(s, es).pc.CommitSynced? && !Run(s, es).pc.CommitRemoved?
  {
    if es != [] {
      var init := es[..|es| - 1];
      assert NoCommit(init);
      RunKeepsImage(s, init);
      StepInv(Run(s, init), es[|es| - 1]);
      StepKeepsImage(Run(s, init), es[|es| - 1]);
    }
  }

  lemma {:induction false} RunAppend(s: State, es: seq<Event>, more: seq<Event>)
    ensures Run(s, es + more) == Run(Run(s, es), more)
  {
    if more == [] {
      assert es + more == es;
    } else {
      var init := more[..|more| - 1];
      assert (es + more)[..|es + more| - 1] == es + init;
      RunAppend(s, es, init);
    }
  }

  /** Once commitUndo has returned success, the committed image survives everything that follows
      until another commit is begun: later writes, failed calls, and any number of crashes. */
  lemma CommittedImageSurvives(s: State, es: seq<Event>, more: seq<Event>, found: Bytes, name: Entry)
    requires Initial(s) && Run(s, es).pc.CommitRemoved? && NoCommit(more)
    requires var t := Run(s, es + [CommitDirSync(true)] + more); CrashLeaves(t.file, t.dir, found, name)
    ensures Recover(found, name) == Recovered(Run(s, es).file.data)
  {
    var before := Run(s, es);
    RunInv(s, es);
    RunAppend(s, es, [CommitDirSync(true)]);
    var done := Step(before, CommitDirSync(true));
    assert Run(before, [CommitDirSync(true)]) == done by {
      assert Run(before, [CommitDirSync(true)]) == Step(Run(before, [CommitDirSync(true)][..0]), CommitDirSync(true));
    }
    StepInv(before, CommitDirSync(true));
    RunAppend(s, es + [CommitDirSync(true)], more);
    RunKeepsImage(done, more);
    var t := Run(done, more);
    CrashRecovers(t.file, t.dir, Allowed(t), found, name);
  }

  /** A crash decides the image once: whatever the interrupted, repeated or failing restore does
      afterwards, and however often it crashes, recovery yields that same image. */
  lemma RestoreIsRepeatable(s: State, es: seq<Event>, found: Bytes, name: Entry, leftover: Temp, more: seq<Event>, found': Bytes, name': Entry)
    requires Initial(s) && CrashLeaves(Run(s, es).file, Run(s, es).dir, found, name) && NoCommit(more)
    requires var t := Run(s, es + [Crash(found, name, leftover)] + more); CrashLeaves(t.file, t.dir, found', name')
    ensures Recover(found', name') == Recover(found, name)
  {
    var before, crash := Run(s, es), Crash(found, name, leftover);
    RunInv(s, es);
    CrashRecovers(before.file, before.dir, Allowed(before), found, name);
    RunAppend(s, es, [crash]);
    assert Run(before, [crash]) == Step(Run(before, [crash][..0]), crash);
    StepInv(before, crash);
    RunAppend(s, es + [crash], more);
    RunKeepsImage(Step(before, crash), more);
    var t := Run(Step(before, crash), more);
    CrashRecovers(t.file, t.dir, Allowed(t), found', name');
  }

  /* ---- the calls of a restart as the program makes them ---- */

  /** discardUndoTemp. */
  function WithoutTemp(s: State): State {
    s.(dir := s.dir.(temp := NoTemp))
  }

  /** A data file found after a power loss, and the calls that bring it back. Every assignment to `s` is one
      system call and keeps `Inv`, so CrashRecovers applies to a crash between any two of them. */
  class JournaledFile {
    var s: State

    /** What a power loss left of the state `before`. */
    constructor Crashed(ghost before: State, found: Bytes, name: Entry, leftover: Temp)
      requires Inv(before) && CrashLeaves(before.file, before.dir, found, name)
      ensures s == StepCrash(before, found, name, leftover) && Inv(s) && s.pc.Closed? && s.attempts == {}
      ensures s.acked in Allowed(before)
    {
      CrashRecovers(before.file, before.dir, Allowed(before), found, name);
      StepCrashInv(before, found, name, leftover);
      s := State(File(found, found, false, |found|), Dir(name, {name}, leftover), Closed, false, 0, Recover(found, name).image, {});
    }

    /** The copy, the truncate and the sync of restoreUndo; the copy may stop anywhere. */
    method Replay() returns (ok: bool)
      requires Inv(s) && s.pc.RestoreCopying?
      modifies this
      ensures Inv(s) && s.acked == old(s.acked) && s.attempts == old(s.attempts)
      ensures ok ==> s.pc.RestoreSynced?
      ensures ok ==> Recover(old(s.file.data), old(s.dir.entry)) == Recovered(s.file.data)
      ensures !ok ==> s.pc.Closed?
    {
      var progress: nat := *;
      StepRestoreCopyInv(s, progress);
      if progress == |s.pc.record.suffix| {
        ReplayImage(s, progress);
      }
      s := StepRestoreCopy(s, progress);
      if !s.pc.RestoreCopied? {
        s := s.(pc := Closed);
        return false;
      }
      StepRestoreTruncateInv(s);
      s := StepRestoreTruncate(s);
      ok := *;
      StepRestoreSyncInv(s, ok);
      s := StepRestoreSync(s, ok);
    }

    /** restoreUndo on open: success leaves exactly the image recovery decides, durable and with no
        journal left that could come back. */
    method RestoreUndo() returns (ok: bool)
      requires Inv(s) && s.pc.Closed?
      modifies this
      ensures Inv(s) && s.acked == old(s.acked) && s.attempts == old(s.attempts)
      ensures ok ==> s.pc.Idle? && s.dir.mayBe == {Absent}
      ensures ok ==> !s.file.dirty && s.file.data in Allowed(s)
      ensures ok ==> Recover(old(s.file.data), old(s.dir.entry)) == Recovered(s.file.data)
      ensures ok && old(s.attempts) == {} ==> Initial(WithoutTemp(s))
      ensures !ok ==> s.pc.Closed?
    {
      StepRestoreOpenInv(s);
      s := StepRestoreOpen(s);
      if s.pc.Closed? {
        return false;
      }
      if s.pc.RestoreCopying? {
        ok := Replay();
        if !ok {
          return;
        }
        var removed: bool := *;
        StepRestoreRemoveInv(s, removed);
        s := StepRestoreRemove(s, removed);
        if !removed {
          return false;
        }
      }
      ok := *;
      StepRestoreDirSyncInv(s, ok);
      s := StepRestoreDirSync(s, ok);
    }
  }
}
