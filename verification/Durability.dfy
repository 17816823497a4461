/**
 The log's operations as the journal sees them (storage/plog.go, storage/undo.go): every system call is one
 journal step, and every moment between two of them knows which logs a power loss may bring back.
 */
module Durability {
  import opened Bytes
  import J = Journal
  import opened PlogLayout
  import opened PlogImage

  /** How the operating system answers the calls of one operation; a write that fails leaves `torn` behind. */
  datatype Outcome = Outcome(undoSynced: bool, undoRenamed: bool, undoNamed: bool, written: bool, trailer: bool, resized: bool,
                             synced: bool, removed: bool, unnamed: bool, torn: Bytes)
  {
    /** saveUndo gets through all its calls. */
    predicate Saved() { undoSynced && undoRenamed && undoNamed }

    /** commitUndo gets through all its calls. */
    predicate Retired() { synced && removed && unnamed }
  }

  /** A log: its sealed sectors and the tail behind them. */
  datatype Log = Log(sealed: Bytes, tail: Bytes) {
    function Stream(): Bytes { sealed + tail }
  }

  /** The journal between two calls, the log of the last acknowledged commit, and the logs whose commit was begun since. */
  datatype Moment = Moment(j: J.State, kept: Log, begun: set<Log>) {
    function Survivors(): set<Log> { begun + {kept} }
  }

  /** `image` is the committed form of one of the logs. */
  predicate Stands(cr: Crypto, image: Bytes, logs: set<Log>) {
    exists log :: log in logs && Committed(cr, image, log.sealed, log.tail)
  }

  /** Whatever restoring the journal may yield now is the committed form of a surviving log. */
  ghost predicate Known(cr: Crypto, m: Moment) {
    J.Inv(m.j) && forall image :: image in J.Allowed(m.j) ==> Stands(cr, image, m.Survivors())
  }

  /** One journal step of the log `now`. */
  function Next(m: Moment, e: J.Event, now: Log): Moment {
    if e.CommitDirSync? && e.ok && m.j.pc.CommitRemoved? then Moment(J.Step(m.j, e), now, {})
    else Moment(J.Step(m.j, e), m.kept, if e.CommitSync? && m.j.pc.Idle? then m.begun + {now} else m.begun)
  }

  lemma StandsIn(cr: Crypto, image: Bytes, logs: set<Log>, more: set<Log>)
    requires Stands(cr, image, logs) && logs <= more
    ensures Stands(cr, image, more)
  {
  }

  lemma NextKnown(cr: Crypto, m: Moment, e: J.Event, now: Log)
    requires Known(cr, m) && !e.Crash?
    requires e.CommitSync? || e.CommitDirSync? ==> Committed(cr, m.j.file.data, now.sealed, now.tail)
    ensures Known(cr, Next(m, e, now))
  {
    hide J.Inv, Committed;
    J.StepInv(m.j, e);
    var n := Next(m, e, now);
    forall image | image in J.Allowed(n.j) ensures Stands(cr, image, n.Survivors()) {
      if image in J.Allowed(m.j) && m.Survivors() <= n.Survivors() {
        StandsIn(cr, image, m.Survivors(), n.Survivors());
      } else {
        assert now in n.Survivors() && image == m.j.file.data;
      }
    }
  }

  ghost predicate Follows(m: Moment, n: Moment) {
    exists e, now :: n == Next(m, e, now)
  }

  function Extend(trail: seq<Moment>, e: J.Event, now: Log): seq<Moment> {
    if trail == [] then [] else trail + [Next(trail[|trail| - 1], e, now)]
  }

  /** A run of journal steps from a freshly opened file, safe at every moment. */
  ghost predicate Recorded(cr: Crypto, trail: seq<Moment>) {
    && trail != [] && J.Initial(trail[0].j)
    && (forall k :: 0 <= k < |trail| ==> Known(cr, trail[k]))
    && (forall k :: 0 < k < |trail| ==> Follows(trail[k - 1], trail[k]))
  }

  lemma ExtendRecorded(cr: Crypto, trail: seq<Moment>, e: J.Event, now: Log)
    requires Recorded(cr, trail) && !e.Crash?
    requires var data := trail[|trail| - 1].j.file.data; e.CommitSync? || e.CommitDirSync? ==> Committed(cr, data, now.sealed, now.tail)
    ensures Recorded(cr, Extend(trail, e, now))
  {
    hide Known, Committed;
    var n := |trail|;
    NextKnown(cr, trail[n - 1], e, now);
    assert Follows(trail[n - 1], Next(trail[n - 1], e, now));
    var next := Extend(trail, e, now);
    forall k | 0 < k < |next| ensures Follows(next[k - 1], next[k]) {
      assert k < n ==> next[k - 1] == trail[k - 1] && next[k] == trail[k];
    }
  }

  /** The log's view of its file and journal is the present moment of such a run. */
  ghost predicate Backs(cr: Crypto, trail: seq<Moment>, file: Bytes, undo: J.Entry, active: bool, start: nat) {
    && Recorded(cr, trail)
    && var j := trail[|trail| - 1].j;
       && j.pc.Idle? && j.file.data == file && j.dir.entry == undo && j.active == active
       && (active ==> j.start == start <= |file|)
  }

  /** The run went on, and the surviving logs stayed the same throughout. */
  predicate Quietly(before: seq<Moment>, after: seq<Moment>) {
    && before != [] && before <= after
    && forall k :: |before| <= k < |after| ==>
                     after[k].kept == before[|before| - 1].kept && after[k].begun == before[|before| - 1].begun
  }

  lemma QuietHere(cr: Crypto, trail: seq<Moment>, file: Bytes, undo: J.Entry, active: bool, start: nat)
    requires Backs(cr, trail, file, undo, active, start)
    ensures Quietly(trail, trail)
  {
  }

  lemma QuietTrans(a: seq<Moment>, b: seq<Moment>, c: seq<Moment>)
    requires Quietly(a, b) && Quietly(b, c)
    ensures Quietly(a, c)
  {
    assert b[|b| - 1].kept == a[|a| - 1].kept && b[|b| - 1].begun == a[|a| - 1].begun;
    forall k | |a| <= k < |c|
      ensures c[k].kept == a[|a| - 1].kept && c[k].begun == a[|a| - 1].begun
    {
      assert k < |b| ==> c[k] == b[k];
    }
  }

  lemma QuietCommit(a: seq<Moment>, b: seq<Moment>, now: Log)
    requires Quietly(a, b)
    ensures Committing(a, b, now) && Acknowledges(a[|a| - 1], b[|b| - 1], now, false)
  {
  }

  lemma QuietThen(a: seq<Moment>, b: seq<Moment>, c: seq<Moment>, now: Log, ok: bool)
    requires Quietly(a, b) && Committing(b, c, now) && Acknowledges(b[|b| - 1], c[|c| - 1], now, ok)
    ensures Committing(a, c, now) && Acknowledges(a[|a| - 1], c[|c| - 1], now, ok)
  {
    forall k | |a| <= k < |c| ensures c[k].Survivors() <= a[|a| - 1].Survivors() + {now} {
      assert k < |b| ==> c[k] == b[k];
    }
  }

  /* ---- protectPrefixLocked ---- */

  /** The calls of saveUndo; the ones an earlier failure or an existing journal leaves out change nothing. */
  function SaveCalls(trail: seq<Moment>, from: nat, o: Outcome, now: Log): seq<Moment> {
    var a := Extend(trail, J.Save(from), now);
    var b := Extend(a, J.SaveSync(o.undoSynced), now);
    var c := Extend(b, J.SaveRename(o.undoRenamed), now);
    Extend(c, J.SaveDirSync(o.undoNamed), now)
  }

  /** The journal file after saveUndo, and whether it reported success. */
  function SaveEntry(file: Bytes, undo: J.Entry, from: nat, o: Outcome): (J.Entry, bool) {
    match J.PlanSave(file, undo, from)
    case Fail => (undo, false)
    case Resync => (undo, o.undoNamed)
    case Fresh(record) => if o.undoSynced && o.undoRenamed then (J.Saved(record), o.undoNamed) else (undo, false)
  }

  function Saving(s: J.State, o: Outcome): J.State {
    J.Step(J.Step(J.Step(s, J.SaveSync(o.undoSynced)), J.SaveRename(o.undoRenamed)), J.SaveDirSync(o.undoNamed))
  }

  lemma SaveFresh(s: J.State, from: nat, o: Outcome)
    requires s.pc == J.SaveWritten(from) && s.dir.temp.Written?
    ensures var t, named := Saving(s, o), o.undoSynced && o.undoRenamed;
            && t.pc.Idle? && t.file == s.file && t.dir.entry == (if named then J.Saved(s.dir.temp.record) else s.dir.entry)
            && (if named && o.undoNamed then t.active && t.start == from else t.active == s.active && t.start == s.start)
  {
  }

  lemma SaveSteps(s: J.State, from: nat, o: Outcome)
    requires s.pc.Idle? && from >= SECTOR && !(s.active && from >= s.start)
    ensures var t := Saving(J.Step(s, J.Save(from)), o);
            var (entry, ok) := SaveEntry(s.file.data, s.dir.entry, from, o);
            && t.pc.Idle? && t.file == s.file && t.dir.entry == entry
            && (if ok then t.active && t.start == from else t.active == s.active && t.start == s.start)
  {
    hide J.PlanSave;
    if J.PlanSave(s.file.data, s.dir.entry, from).Fresh? {
      hide Saving;
      SaveFresh(J.Step(s, J.Save(from)), from, o);
    }
  }

  /** Under the journal's invariant a save that no call refuses succeeds. */
  lemma PlanSucceeds(s: J.State, from: nat)
    requires J.Inv(s) && SECTOR <= from <= |s.file.data|
    ensures !J.PlanSave(s.file.data, s.dir.entry, from).Fail?
  {
    assert J.Safe(s.file, J.Allowed(s), s.dir.entry);
    if s.dir.entry.Saved? {
      J.Agrees(s.file, s.dir.entry.record.start);
      J.Shorter(s.file.data, s.file.durable, s.dir.entry.record.start, SECTOR);
    }
  }

  lemma SaveBacked(cr: Crypto, trail: seq<Moment>, file: Bytes, undo: J.Entry, active: bool, start: nat, from: nat, o: Outcome, now: Log)
    requires Backs(cr, trail, file, undo, active, start) && SECTOR <= from <= |file| && !(active && from >= start)
    ensures var (entry, ok) := SaveEntry(file, undo, from, o);
            && Backs(cr, SaveCalls(trail, from, o, now), file, entry, active || ok, if ok then from else start)
            && (o.Saved() ==> ok)
    ensures Quietly(trail, SaveCalls(trail, from, o, now))
  {
    hide J.Step, J.PlanSave, J.Inv, Known, Committed;
    var m := trail[|trail| - 1];
    var a := Extend(trail, J.Save(from), now);
    var b := Extend(a, J.SaveSync(o.undoSynced), now);
    var c := Extend(b, J.SaveRename(o.undoRenamed), now);
    ExtendRecorded(cr, trail, J.Save(from), now);
    ExtendRecorded(cr, a, J.SaveSync(o.undoSynced), now);
    ExtendRecorded(cr, b, J.SaveRename(o.undoRenamed), now);
    ExtendRecorded(cr, c, J.SaveDirSync(o.undoNamed), now);
    SaveSteps(m.j, from, o);
    assert J.Inv(m.j) by {
      KnownInv(cr, m);
    }
    PlanSucceeds(m.j, from);
  }

  lemma KnownInv(cr: Crypto, m: Moment)
    requires Known(cr, m)
    ensures J.Inv(m.j)
  {
  }

  /* ---- writePhysical and truncate ---- */

  lemma StartInside(cr: Crypto, trail: seq<Moment>, file: Bytes, undo: J.Entry, active: bool, start: nat)
    requires Backs(cr, trail, file, undo, active, start) && active
    ensures start <= |file|
  {
  }

  /** A change at or above the protected start, or none at all. */
  lemma ChangeBacked(cr: Crypto, trail: seq<Moment>, file: Bytes, undo: J.Entry, active: bool, start: nat, image: Bytes, now: Log)
    requires Backs(cr, trail, file, undo, active, start)
    requires image == file || (active && start <= |image| && image[..start] == file[..start])
    ensures Backs(cr, Extend(trail, J.Mutate(image), now), image, undo, active, start)
    ensures Quietly(trail, Extend(trail, J.Mutate(image), now))
  {
    hide J.Inv, Known, Committed;
    ExtendRecorded(cr, trail, J.Mutate(image), now);
  }

  /* ---- commitUndo ---- */

  function RetireCalls(trail: seq<Moment>, o: Outcome, now: Log): seq<Moment> {
    var a := Extend(trail, J.CommitSync(o.synced), now);
    var b := Extend(a, J.CommitRemove(o.removed), now);
    Extend(b, J.CommitDirSync(o.unnamed), now)
  }

  /** The journal file after commitUndo, and whether it reported success. */
  function RetireEntry(undo: J.Entry, o: Outcome): (J.Entry, bool) {
    if o.synced && (undo.Absent? || o.removed) then (J.Absent, o.unnamed) else (undo, false)
  }

  /** While a commit of `now` is under way, `now` may survive besides what already could. */
  predicate Committing(before: seq<Moment>, after: seq<Moment>, now: Log) {
    && before != [] && before <= after
    && forall k :: |before| <= k < |after| ==> after[k].Survivors() <= before[|before| - 1].Survivors() + {now}
  }

  /** What a commit leaves: its own log alone once it is acknowledged, else the logs of before and possibly its own. */
  predicate Acknowledges(before: Moment, after: Moment, now: Log, ok: bool) {
    if ok then after.kept == now && after.begun == {}
    else after.kept == before.kept && before.begun <= after.begun <= before.begun + {now}
  }

  lemma RetireSteps(s: J.State, o: Outcome)
    requires s.pc.Idle?
    ensures var t := J.Step(J.Step(s, J.CommitSync(o.synced)), J.CommitRemove(o.removed));
            var u := J.Step(t, J.CommitDirSync(o.unnamed));
            var (entry, ok) := RetireEntry(s.dir.entry, o);
            && t.file.data == s.file.data && u.pc.Idle? && u.file.data == s.file.data && u.dir.entry == entry && !u.active
            && J.Step(s, J.CommitSync(o.synced)).file.data == s.file.data
            && !J.Step(s, J.CommitSync(o.synced)).pc.CommitRemoved?
            && (ok <==> t.pc.CommitRemoved? && o.unnamed)
  {
  }

  lemma RetireBacked(cr: Crypto, trail: seq<Moment>, file: Bytes, undo: J.Entry, active: bool, start: nat, o: Outcome, now: Log)
    requires Backs(cr, trail, file, undo, active, start) && Committed(cr, file, now.sealed, now.tail)
    ensures var (entry, ok) := RetireEntry(undo, o);
            var after := RetireCalls(trail, o, now);
            && Backs(cr, after, file, entry, false, start) && Committing(trail, after, now)
            && Acknowledges(trail[|trail| - 1], after[|after| - 1], now, ok)
  {
    hide J.Step, J.Inv, Known, Committed;
    var m := trail[|trail| - 1];
    var a := Extend(trail, J.CommitSync(o.synced), now);
    var b := Extend(a, J.CommitRemove(o.removed), now);
    RetireSteps(m.j, o);
    ExtendRecorded(cr, trail, J.CommitSync(o.synced), now);
    ExtendRecorded(cr, a, J.CommitRemove(o.removed), now);
    ExtendRecorded(cr, b, J.CommitDirSync(o.unnamed), now);
  }

  /* ---- the first moment ---- */

  /** A file just opened, with no journal left: only its own log survives. */
  lemma OpenBacked(cr: Crypto, file: Bytes, now: Log)
    requires Committed(cr, file, now.sealed, now.tail)
    ensures Backs(cr, [Moment(J.Opened(file), now, {})], file, J.Absent, false, 0)
  {
    hide Committed;
    var j := J.Opened(file);
    assert |file| >= SECTOR by {
      CommittedSize(cr, file, now);
    }
    assert J.Inv(j);
    assert J.Allowed(j) == {file};
    assert Stands(cr, file, {now});
  }

  lemma CommittedSize(cr: Crypto, file: Bytes, log: Log)
    requires Committed(cr, file, log.sealed, log.tail)
    ensures |file| >= SECTOR
  {
  }
}
