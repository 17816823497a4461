/**
 The journal and the log together: power loss, rollback and reopening, end to end.
 */
module Recovery {
  import opened Bytes
  import J = Journal
  import opened PlogLayout
  import opened PlogTrailer
  import opened PlogImage
  import opened Durability
  import opened PlogModel

  /** What comes back is `log`, or something shorter when that log is confusable. */
  ghost predicate CameBack(q: Plog, log: Log)
    reads q
  {
    && Committed(q.cr, q.file, log.sealed, log.tail)
    && q.trail == [Moment(J.Opened(q.file), log, {})]
    && if Confusable(q.cr, log.sealed, log.tail) then q.logicalLength < |log.Stream()|
       else q.Sound() && q.Contents() == log.Stream()
  }

  /** Power loss at any moment of any log's life, then restoreUndo and OpenPlog: if the calls of the restart succeed,
      the reopened log is the one last acknowledged at that moment, or one whose commit was begun after it. */
  method ReopenAfterCrash(p: Plog, ghost k: nat, found: Bytes, name: J.Entry, leftover: J.Temp) returns (ok: bool, q: Plog?)
    requires p.Backed() && k < |p.trail| && J.CrashLeaves(p.trail[k].j.file, p.trail[k].j.dir, found, name)
    ensures ok ==> q != null && fresh(q) && q.cr == p.cr
    ensures ok ==> exists log :: log in p.trail[k].Survivors() && CameBack(q, log)
  {
    ghost var m := p.trail[k];
    assert Known(p.cr, m);
    var f := new J.JournaledFile.Crashed(m.j, found, name, leftover);
    q := null;
    ok := f.RestoreUndo();
    if !ok {
      return;
    }
    var image := f.s.file.data;
    assert image == f.s.acked && image in J.Allowed(m.j);
    ghost var log: Log :| log in m.Survivors() && Committed(p.cr, image, log.sealed, log.tail);
    CommittedSize(p.cr, image, log);
    q := new Plog.Open(p.cr, image, log.sealed, log.tail);
    assert CameBack(q, log);
  }

  /** The same over a whole session: power loss while operation `i` runs brings back the stream acknowledged before it,
      one handed to a commit since then, or, if it is a commit itself, the stream it commits; before its first call only
      what the operations before it left, after its last only what it leaves. */
  method ReopenAfterSession(p: Plog, ghost r: Record, ghost i: nat, ghost k: nat, found: Bytes, name: J.Entry, leftover: J.Temp)
    returns (ok: bool, q: Plog?)
    requires p.Backed() && r.Tells(p.trail) && i < |r.took| && r.marks[i] <= k + 1 && k < r.marks[i + 1] <= |p.trail|
    requires J.CrashLeaves(p.trail[k].j.file, p.trail[k].j.dir, found, name)
    ensures ok ==> q != null && fresh(q) && q.cr == p.cr
    ensures ok ==> exists log: Log :: log.Stream() in r.Outlasting(i, k) && CameBack(q, log)
  {
    hide CameBack, Backs;
    RecordAmong(r, p.trail, i, k);
    ok, q := ReopenAfterCrash(p, k, found, name, leftover);
    if ok {
      ghost var log :| log in p.trail[k].Survivors() && CameBack(q, log);
      assert log.Stream() in r.Outlasting(i, k);
    }
  }

  /** After a commit that was acknowledged, and until another one is begun, exactly its stream comes back. */
  method ReopenAcknowledged(p: Plog, ghost r: Record, ghost s: nat, ghost k: nat, found: Bytes, name: J.Entry, leftover: J.Temp)
    returns (ok: bool, q: Plog?)
    requires p.Backed() && r.Tells(p.trail) && s < |r.took| && r.took[s] && r.ops[s].Sync?
    requires r.marks[s + 1] <= k + 1 <= |p.trail| && NoSyncUntil(r, s, k)
    requires J.CrashLeaves(p.trail[k].j.file, p.trail[k].j.dir, found, name)
    ensures ok ==> q != null && fresh(q) && q.cr == p.cr
    ensures ok ==> exists log: Log :: log.Stream() == r.flats[s].now && CameBack(q, log)
  {
    hide CameBack, Backs;
    AcknowledgedAlone(r, p.trail, s, k);
    ok, q := ReopenAfterCrash(p, k, found, name, leftover);
    if ok {
      ghost var log :| log in p.trail[k].Survivors() && CameBack(q, log);
      assert log.Stream() == r.flats[s].now;
    }
  }
}
