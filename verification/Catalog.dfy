/**
 The catalog (meta/queries.go, meta/write_ops.go, meta/write_result_retention.go, meta/version_gc.go,
 meta/jobs.go): every transaction is one atomic step on the tables. A step that fails leaves them as
 they were.
 */
module Catalog {
  import opened Results
  import opened Paths
  import opened Namespace
  import opened Refs

  datatype OpState = Prepared | Committed | Abandoned | Cancelled | Expired

  datatype Op = Op(path: Path, state: OpState, file: nat)

  datatype Root = Root(file: nat, expires: int)

  /** A snapshot keeps its own copy of the namespace rows. */
  datatype Snapshot = Snapshot(name: string, created: int, names: Names)

  datatype Db = Db(
    chunks: Chunks,
    files: Files,
    names: Names,
    snaps: map<nat, Snapshot>,
    roots: map<nat, Root>,
    ops: map<nat, Op>,
    destinations: set<nat>)  // vlogs owned by running jobs

  function HeadIds(ns: Names): map<Path, nat> {
    map p | p in ns.heads :: ns.heads[p].body
  }

  function RootIds(roots: map<nat, Root>): map<nat, nat> {
    map o | o in roots :: roots[o].file
  }

  /* ---- what the reference counts have to be ---- */

  ghost function SnapTotal(files: Files, snaps: map<nat, Snapshot>): multiset<Hash> {
    if snaps == map[] then multiset{}
    else
      var k :| k in snaps;
      Total(files, HeadIds(snaps[k].names)) + SnapTotal(files, snaps - {k})
  }

  /** Occurrences over file heads, snapshot files and retry roots. */
  ghost function Uses(files: Files, ns: Names, snaps: map<nat, Snapshot>, roots: map<nat, Root>): multiset<Hash> {
    Total(files, HeadIds(ns)) + SnapTotal(files, snaps) + Total(files, RootIds(roots))
  }

  /** Every version a head, a snapshot, a retry root or a committed operation refers to exists. */
  ghost predicate HeadsOwn(files: Files, ns: Names) {
    forall p :: p in ns.heads ==> ns.heads[p].body in files
  }

  ghost predicate SnapsOk(files: Files, snaps: map<nat, Snapshot>) {
    forall s :: s in snaps ==> HeadsOwn(files, snaps[s].names)
  }

  ghost predicate RootsOk(files: Files, roots: map<nat, Root>, ops: map<nat, Op>) {
    && (forall o :: o in roots ==> roots[o].file in files && o in ops && ops[o].state.Committed? && ops[o].file == roots[o].file)
    && (forall o :: o in ops && ops[o].state.Committed? ==> ops[o].file in files)
  }

  ghost predicate Inv(db: Db) {
    && Exact(db.chunks, Uses(db.files, db.names, db.snaps, db.roots))
    && HeadsOwn(db.files, db.names) && SnapsOk(db.files, db.snaps) && RootsOk(db.files, db.roots, db.ops)
  }

  /** The namespace and every snapshot of it are trees. */
  ghost predicate Trees(db: Db) {
    Tree(db.names) && forall s :: s in db.snaps ==> Tree(db.snaps[s].names)
  }

  lemma {:induction false} SnapRemove(files: Files, snaps: map<nat, Snapshot>, k: nat)
    requires k in snaps
    ensures SnapTotal(files, snaps) == Total(files, HeadIds(snaps[k].names)) + SnapTotal(files, snaps - {k})
    decreases |snaps|
  {
    hide Total, HeadIds;
    var j :| j in snaps && SnapTotal(files, snaps) == Total(files, HeadIds(snaps[j].names)) + SnapTotal(files, snaps - {j});
    if j != k {
      assert snaps - {k} - {j} == snaps - {j} - {k};
      assert (snaps - {j}).Keys == snaps.Keys - {j} && (snaps - {k}).Keys == snaps.Keys - {k};
      SnapRemove(files, snaps - {j}, k);
      SnapRemove(files, snaps - {k}, j);
    }
  }

  lemma SnapInsert(files: Files, snaps: map<nat, Snapshot>, k: nat, s: Snapshot)
    requires k !in snaps
    ensures SnapTotal(files, snaps[k := s]) == Total(files, HeadIds(s.names)) + SnapTotal(files, snaps)
  {
    hide Total, HeadIds;
    SnapRemove(files, snaps[k := s], k);
    assert snaps[k := s] - {k} == snaps;
  }

  /** The two file tables hold the same versions for everything this namespace refers to. */
  ghost predicate SameHeads(files: Files, files': Files, ns: Names) {
    forall p :: p in ns.heads ==> Extents(files, ns.heads[p].body) == Extents(files', ns.heads[p].body)
  }

  ghost predicate SameSnaps(files: Files, files': Files, snaps: map<nat, Snapshot>) {
    forall s :: s in snaps ==> SameHeads(files, files', snaps[s].names)
  }

  ghost predicate SameRoots(files: Files, files': Files, roots: map<nat, Root>) {
    forall o :: o in roots ==> Extents(files, roots[o].file) == Extents(files', roots[o].file)
  }

  lemma {:induction false} SnapSame(files: Files, files': Files, snaps: map<nat, Snapshot>)
    requires SameSnaps(files, files', snaps)
    ensures SnapTotal(files, snaps) == SnapTotal(files', snaps)
    decreases |snaps|
  {
    hide Total;
    if snaps != map[] {
      var k :| k in snaps;
      assert (snaps - {k}).Keys == snaps.Keys - {k};
      SnapRemove(files, snaps, k);
      SnapRemove(files', snaps, k);
      assert SameHeads(files, files', snaps[k].names);
      TotalSame(files, files', HeadIds(snaps[k].names));
      SnapSame(files, files', snaps - {k});
    }
  }

  lemma UsesSame(files: Files, files': Files, ns: Names, snaps: map<nat, Snapshot>, roots: map<nat, Root>)
    requires SameHeads(files, files', ns) && SameSnaps(files, files', snaps) && SameRoots(files, files', roots)
    ensures Uses(files, ns, snaps, roots) == Uses(files', ns, snaps, roots)
  {
    hide Total, SnapTotal;
    TotalSame(files, files', HeadIds(ns));
    SnapSame(files, files', snaps);
    TotalSame(files, files', RootIds(roots));
  }

  /** A fresh version is referred to by nobody yet. */
  lemma AddVersion(db: Db, id: nat, extents: seq<Hash>)
    requires Inv(db) && id !in db.files
    ensures Inv(db.(files := db.files[id := extents]))
  {
    hide Uses, Exact;
    var files' := db.files[id := extents];
    UsesSame(db.files, files', db.names, db.snaps, db.roots);
    forall s | s in db.snaps ensures HeadsOwn(files', db.snaps[s].names) {
    }
  }

  /* ---- heads ---- */

  function OldExtents(db: Db, path: Path): seq<Hash> {
    if path in db.names.heads then Extents(db.files, db.names.heads[path].body) else []
  }

  /** Occurrences with the head at `path` taken out. */
  ghost function UsesWithout(db: Db, path: Path): multiset<Hash> {
    Total(db.files, HeadIds(db.names) - {path}) + SnapTotal(db.files, db.snaps) + Total(db.files, RootIds(db.roots))
  }

  lemma TakeHead(db: Db, path: Path)
    ensures Uses(db.files, db.names, db.snaps, db.roots) == UsesWithout(db, path) + multiset(OldExtents(db, path))
  {
    hide Total, SnapTotal;
    if path in db.names.heads {
      TotalRemove(db.files, HeadIds(db.names), path);
    } else {
      assert HeadIds(db.names) - {path} == HeadIds(db.names);
    }
  }

  lemma GiveHead(db: Db, path: Path, row: Entry<nat>, dirs: Table<()>)
    ensures Uses(db.files, Names(db.names.heads[path := row], dirs), db.snaps, db.roots)
            == UsesWithout(db, path) + multiset(Extents(db.files, row.body))
  {
    hide Total, SnapTotal;
    var ids := HeadIds(db.names) - {path};
    assert HeadIds(Names(db.names.heads[path := row], dirs)) == ids[path := row.body];
    TotalInsert(db.files, ids, path, row.body);
  }

  /* ---- publishing a version ---- */

  /** publishFileVersion. `id` is the row id the database assigns. */
  function Publish(db: Db, path: Path, mtime: int, ps: seq<Placement>, id: nat): Option<Db>
    requires Clean(path)
  {
    var ns := PutHead(db.names, path, id, mtime);
    if ns.None? then None
    else
      Some(db.(chunks := Upsert(Shift(db.chunks, multiset(OldExtents(db, path)), -1), ps),
           files := db.files[id := Hashes(ps)],
           names := ns.value))
  }

  lemma PublishedParts(db: Db, path: Path, mtime: int, ps: seq<Placement>, id: nat)
    requires Clean(path) && Publish(db, path, mtime, ps, id).Some?
    ensures var r := Publish(db, path, mtime, ps, id).value;
            && r.files == db.files[id := Hashes(ps)] && path in r.names.heads && r.names.heads[path].body == id
            && r.chunks == Upsert(Shift(db.chunks, multiset(OldExtents(db, path)), -1), ps)
  {
    hide PutHead, Clean, Parent, Name, Upsert, Shift, OldExtents;
    PutHeadHeads(db.names, path, id, mtime);
  }

  lemma PublishInv(db: Db, path: Path, mtime: int, ps: seq<Placement>, id: nat)
    requires Inv(db) && Clean(path) && id !in db.files && Publish(db, path, mtime, ps, id).Some?
    ensures Inv(Publish(db, path, mtime, ps, id).value)
  {
    hide Uses, UsesWithout, Exact, PutHead, Upsert, Shift, Ancestors, Parent, Name, Canonical;
    var r := Publish(db, path, mtime, ps, id).value;
    var db1 := db.(files := db.files[id := Hashes(ps)]);
    AddVersion(db, id, Hashes(ps));
    PutHeadHeads(db.names, path, id, mtime);
    TakeHead(db1, path);
    GiveHead(db1, path, Row(path, mtime, id), r.names.dirs);
    assert OldExtents(db1, path) == OldExtents(db, path);
    ShiftDown(db.chunks, UsesWithout(db1, path), multiset(OldExtents(db, path)));
    UpsertExact(Shift(db.chunks, multiset(OldExtents(db, path)), -1), UsesWithout(db1, path), ps);
  }

  /** Publishing never loses a chunk of the new version: each has a live row afterwards. */
  lemma PublishedIsLive(db: Db, path: Path, mtime: int, ps: seq<Placement>, id: nat, i: nat)
    requires Inv(db) && Clean(path) && id !in db.files && Publish(db, path, mtime, ps, id).Some? && i < |ps|
    ensures var r := Publish(db, path, mtime, ps, id).value;
            ps[i].hash in r.chunks && r.chunks[ps[i].hash].refs > 0 && path in r.names.heads && r.files[r.names.heads[path].body] == Hashes(ps)
  {
    hide Uses, PutHead, Upsert, Shift, Total, SnapTotal, Ancestors, Parent, Name, Canonical;
    var r := Publish(db, path, mtime, ps, id).value;
    PublishInv(db, path, mtime, ps, id);
    PutHeadHeads(db.names, path, id, mtime);
    TakeHead(r, path);
    assert Hashes(ps)[i] in Hashes(ps);
  }

  /** commitWriteOpVersion; `expires` is 0 when no retry root is kept. A committed operation is answered again. */
  function CommitOp(db: Db, op: nat, path: Path, mtime: int, ps: seq<Placement>, expires: int, id: nat): Option<(Db, nat)>
    requires Clean(path)
  {
    if op !in db.ops then None
    else if db.ops[op].state.Committed? then Some((db, db.ops[op].file))
    else if !db.ops[op].state.Prepared? then None
    else
      var r := Publish(db, path, mtime, ps, id);
      if r.None? then None
      else
        var done := r.value.(ops := db.ops[op := Op(db.ops[op].path, Committed, id)]);
        if expires == 0 then Some((done, id))
        else Some((Retain(done, op, id, expires), id))
  }

  /** A retry root takes one reference per extent. */
  function Retain(db: Db, op: nat, id: nat, expires: int): Db {
    db.(chunks := Shift(db.chunks, multiset(Extents(db.files, id)), 1), roots := db.roots[op := Root(id, expires)])
  }

  lemma CommittedOps(db: Db, op: nat, row: Op)
    requires Inv(db) && op !in db.roots && (row.state.Committed? ==> row.file in db.files)
    ensures Inv(db.(ops := db.ops[op := row]))
  {
  }

  lemma RetainInv(db: Db, op: nat, id: nat, expires: int)
    requires Inv(db) && op !in db.roots && op in db.ops && db.ops[op] == Op(db.ops[op].path, Committed, id)
    requires exists p :: p in db.names.heads && db.names.heads[p].body == id
    ensures Inv(Retain(db, op, id, expires))
  {
    hide Total, SnapTotal, Exact, Shift;
    var p :| p in db.names.heads && db.names.heads[p].body == id;
    var uses, m := Uses(db.files, db.names, db.snaps, db.roots), multiset(Extents(db.files, id));
    TotalRemove(db.files, HeadIds(db.names), p);
    assert m <= uses;
    ShiftUp(db.chunks, uses, m);
    var roots' := db.roots[op := Root(id, expires)];
    assert RootIds(roots') == RootIds(db.roots)[op := id];
    TotalInsert(db.files, RootIds(db.roots), op, id);
    assert Uses(db.files, db.names, db.snaps, roots') == uses + m;
  }

  lemma CommitOpInv(db: Db, op: nat, path: Path, mtime: int, ps: seq<Placement>, expires: int, id: nat)
    requires Inv(db) && Clean(path) && id !in db.files && CommitOp(db, op, path, mtime, ps, expires, id).Some?
    ensures Inv(CommitOp(db, op, path, mtime, ps, expires, id).value.0)
  {
    hide Uses, Exact, Shift, PutHead, Upsert, Ancestors, Parent, Name, Canonical;
    if db.ops[op].state.Prepared? {
      var r := Publish(db, path, mtime, ps, id).value;
      PublishInv(db, path, mtime, ps, id);
      PutHeadHeads(db.names, path, id, mtime);
      assert op !in db.roots;
      CommittedOps(r, op, Op(db.ops[op].path, Committed, id));
      var done := r.(ops := db.ops[op := Op(db.ops[op].path, Committed, id)]);
      assert path in done.names.heads && done.names.heads[path].body == id;
      RetainInv(done, op, id, expires);
    }
  }

  /** A prepared operation that commits owns the version now at its path, with a retry root exactly when one was asked
      for; every other operation and root is as it was. */
  lemma CommittedResult(db: Db, op: nat, path: Path, mtime: int, ps: seq<Placement>, expires: int, id: nat)
    requires Inv(db) && Clean(path) && op in db.ops && db.ops[op].state.Prepared?
    requires CommitOp(db, op, path, mtime, ps, expires, id).Some?
    ensures var r := CommitOp(db, op, path, mtime, ps, expires, id).value;
            && r.1 == id && r.0.ops == db.ops[op := Op(db.ops[op].path, Committed, id)]
            && path in r.0.names.heads && r.0.names.heads[path].body == id && id in r.0.files && r.0.files[id] == Hashes(ps)
            && r.0.roots == if expires == 0 then db.roots else db.roots[op := Root(id, expires)]
  {
    hide Uses, Exact, Shift, PutHead, Upsert, Ancestors, Parent, Name, Canonical;
    PutHeadHeads(db.names, path, id, mtime);
  }

  /* ---- operations that lose their name ---- */

  /** Only operations that were still prepared change, and none becomes committed. */
  ghost predicate OnlyPrepared(ops: map<nat, Op>, ops': map<nat, Op>) {
    && ops.Keys == ops'.Keys
    && forall o :: o in ops ==> (ops[o].state.Prepared? && !ops'[o].state.Committed?) || ops'[o] == ops[o]
  }

  lemma OpsInv(db: Db, ops': map<nat, Op>)
    requires Inv(db) && OnlyPrepared(db.ops, ops')
    ensures Inv(db.(ops := ops'))
  {
  }

  function Cancel(ops: map<nat, Op>, path: Path): (r: map<nat, Op>)
    ensures OnlyPrepared(ops, r)
  {
    map o | o in ops :: if ops[o].state.Prepared? && ops[o].path == path then ops[o].(state := Cancelled) else ops[o]
  }

  function CancelUnder(ops: map<nat, Op>, path: Path): (r: map<nat, Op>)
    ensures OnlyPrepared(ops, r)
  {
    map o | o in ops :: if ops[o].state.Prepared? && Like(ops[o].path, path) then ops[o].(state := Cancelled) else ops[o]
  }

  function Repoint(ops: map<nat, Op>, o: Path, n: Path): (r: map<nat, Op>)
    ensures OnlyPrepared(ops, r)
  {
    map k | k in ops :: if ops[k].state.Prepared? && ops[k].path == o then ops[k].(path := n) else ops[k]
  }

  /** finishPreparedWriteOp. */
  function Finish(db: Db, op: nat, state: OpState): (r: Db)
    requires state.Abandoned? || state.Cancelled?
    ensures OnlyPrepared(db.ops, r.ops) && r == db.(ops := r.ops)
  {
    if op in db.ops && db.ops[op].state.Prepared? then db.(ops := db.ops[op := db.ops[op].(state := state)]) else db
  }

  /** UnlinkFile. Unlinking what is not there still cancels the operations waiting for the name. */
  function Unlink(db: Db, path: Path): Db {
    db.(ops := Cancel(db.ops, path),
    chunks := Shift(db.chunks, multiset(OldExtents(db, path)), -1),
    names := Names(db.names.heads - {path}, db.names.dirs))
  }

  lemma UnlinkInv(db: Db, path: Path)
    requires Inv(db)
    ensures Inv(Unlink(db, path))
  {
    hide Exact, Shift, Total, SnapTotal, Cancel;
    TakeHead(db, path);
    ShiftDown(db.chunks, UsesWithout(db, path), multiset(OldExtents(db, path)));
    var ns := Names(db.names.heads - {path}, db.names.dirs);
    assert HeadIds(ns) == HeadIds(db.names) - {path};
    OpsInv(db, Cancel(db.ops, path));
  }

  /* ---- renaming ---- */

  /** RenameFile as one transaction: the namespace moves, a replaced file gives its references back. */
  ghost function RenameTx(db: Db, o: Path, n: Path, now: int, late: bool): Option<Db>
    requires Clean(o) && Clean(n)
  {
    var ns := Rename(db.names, o, n, now, late);
    if ns.None? then None
    else if o == n then Some(db)
    else
      Some(db.(names := ns.value,
           chunks := if o in db.names.heads then Shift(db.chunks, multiset(OldExtents(db, n)), -1) else db.chunks,
           ops := Repoint(Cancel(db.ops, n), o, n)))
  }

  lemma MoveFileUses(db: Db, o: Path, n: Path, dirs: Table<()>)
    requires o in db.names.heads && o != n
    ensures Uses(db.files, Names(db.names.heads[n := At(n, db.names.heads[o])] - {o}, dirs), db.snaps, db.roots) == UsesWithout(db, n)
  {
    hide Total, SnapTotal, At;
    var ids, id := HeadIds(db.names), db.names.heads[o].body;
    assert At(n, db.names.heads[o]).body == id by { MovedBody(n, db.names.heads[o]); }
    var ids' := HeadIds(Names(db.names.heads[n := At(n, db.names.heads[o])] - {o}, dirs));
    assert ids' == (ids - {n} - {o})[n := id];
    TotalInsert(db.files, ids - {n} - {o}, n, id);
    TotalRemove(db.files, ids - {n}, o);
  }

  lemma MovedBody(n: Path, e: Entry<nat>)
    ensures At(n, e).body == e.body
  {
  }

  ghost function MovedTo(p: Path, o: Path, n: Path): Path {
    if Like(p, o) then Relocated(p, o, n) else p
  }

  ghost function MovedFrom(t: Table<nat>, o: Path, n: Path, q: Path): Path {
    if q in Places(t, o, n) then Source(t, o, n, q) else q
  }

  lemma RowGoes(t: Table<nat>, o: Path, n: Path, late: bool, p: Path)
    requires RewriteLike(t, o, n, late).Some? && p in t
    ensures var r := RewriteLike(t, o, n, late).value;
            && MovedTo(p, o, n) in r && r[MovedTo(p, o, n)].body == t[p].body && MovedFrom(t, o, n, MovedTo(p, o, n)) == p
  {
    hide Parent, Name, Like, Relocated;
    if Like(p, o) {
      assert p in Caught(t, o) && Relocated(p, o, n) in Places(t, o, n);
    }
  }

  lemma RowCame(t: Table<nat>, o: Path, n: Path, late: bool, q: Path)
    requires RewriteLike(t, o, n, late).Some? && q in RewriteLike(t, o, n, late).value
    ensures MovedFrom(t, o, n, q) in t && MovedTo(MovedFrom(t, o, n, q), o, n) == q
  {
    hide Parent, Name, Like, Relocated;
    if q !in Places(t, o, n) {
      assert q in t && q !in Caught(t, o);
    }
  }

  /** A directory move renames the keys of the head table and nothing else. */
  lemma MoveDirTotal(files: Files, before: Table<nat>, o: Path, n: Path, dirs: Table<()>, dirs': Table<()>, late: bool)
    requires RewriteLike(before, o, n, late).Some?
    ensures var after := RewriteLike(before, o, n, late).value;
            && Total(files, HeadIds(Names(before, dirs))) == Total(files, HeadIds(Names(after, dirs')))
            && forall q :: q in after ==> exists p :: p in before && before[p].body == after[q].body
  {
    hide Total, RewriteLike, MovedTo, MovedFrom;
    var after := RewriteLike(before, o, n, late).value;
    var to := map p | p in before :: MovedTo(p, o, n);
    var back := map q | q in after :: MovedFrom(before, o, n, q);
    forall p | p in before ensures to[p] in after && back[to[p]] == p && after[to[p]].body == before[p].body {
      RowGoes(before, o, n, late, p);
    }
    forall q | q in after ensures back[q] in before && to[back[q]] == q && before[back[q]].body == after[q].body {
      RowCame(before, o, n, late, q);
    }
    TotalRenamed(files, HeadIds(Names(before, dirs)), HeadIds(Names(after, dirs')), to, back);
  }

  lemma RenameTxInv(db: Db, o: Path, n: Path, now: int, late: bool)
    requires Inv(db) && Clean(o) && Clean(n) && RenameTx(db, o, n, now, late).Some?
    ensures Inv(RenameTx(db, o, n, now, late).value)
  {
    hide Exact, Shift, Total, SnapTotal, Cancel, Repoint, RewriteLike, Ancestors, EnsureAll, Parent, Name, HasChild, Like;
    if o != n {
      var ops' := Repoint(Cancel(db.ops, n), o, n);
      var ns := Rename(db.names, o, n, now, late).value;
      OpsInv(db, ops');
      if o in db.names.heads {
        MoveFileUses(db, o, n, ns.dirs);
        TakeHead(db, n);
        ShiftDown(db.chunks, UsesWithout(db, n), multiset(OldExtents(db, n)));
      } else {
        MoveDirTotal(db.files, db.names.heads, o, n, db.names.dirs, ns.dirs, late);
      }
    }
  }

  /* ---- snapshots ---- */

  predicate HasSnapshot(snaps: map<nat, Snapshot>, name: string) {
    exists s :: s in snaps && snaps[s].name == name
  }

  /** CreateSnapshot: an existing name is answered without taking anything. */
  ghost function CreateSnapshot(db: Db, name: string, created: int, id: nat): Db {
    if HasSnapshot(db.snaps, name) then db
    else
      db.(snaps := db.snaps[id := Snapshot(name, created, db.names)],
      chunks := Shift(db.chunks, Total(db.files, HeadIds(db.names)), 1))
  }

  lemma CreateSnapshotInv(db: Db, name: string, created: int, id: nat)
    requires Inv(db) && id !in db.snaps
    ensures Inv(CreateSnapshot(db, name, created, id))
  {
    hide Exact, Shift, Total, SnapTotal, HeadIds, HasSnapshot;
    var m := Total(db.files, HeadIds(db.names));
    SnapInsert(db.files, db.snaps, id, Snapshot(name, created, db.names));
    ShiftUp(db.chunks, Uses(db.files, db.names, db.snaps, db.roots), m);
    assert Uses(db.files, db.names, db.snaps, db.roots) + m
        == Uses(db.files, db.names, db.snaps[id := Snapshot(name, created, db.names)], db.roots);
  }

  /** deleteSnapshotTx: its rows go with it. */
  ghost function DeleteSnapshot(db: Db, id: nat): Db {
    if id !in db.snaps then db
    else db.(snaps := db.snaps - {id}, chunks := Shift(db.chunks, Total(db.files, HeadIds(db.snaps[id].names)), -1))
  }

  lemma DeleteSnapshotInv(db: Db, id: nat)
    requires Inv(db)
    ensures Inv(DeleteSnapshot(db, id))
  {
    hide Exact, Shift, Total, SnapTotal, HeadIds;
    if id in db.snaps {
      var m := Total(db.files, HeadIds(db.snaps[id].names));
      SnapRemove(db.files, db.snaps, id);
      assert Uses(db.files, db.names, db.snaps, db.roots) == Uses(db.files, db.names, db.snaps - {id}, db.roots) + m;
      ShiftDown(db.chunks, Uses(db.files, db.names, db.snaps - {id}, db.roots), m);
    }
  }

  /** Creating a snapshot and deleting it again gives back the same catalog. */
  lemma SnapshotRoundTrip(db: Db, name: string, created: int, id: nat)
    requires id !in db.snaps && !HasSnapshot(db.snaps, name)
    ensures DeleteSnapshot(CreateSnapshot(db, name, created, id), id) == db
  {
    hide Total, HeadIds, HasSnapshot;
    var m := Total(db.files, HeadIds(db.names));
    var up := Shift(db.chunks, m, 1);
    assert Shift(up, m, -1) == db.chunks;
    assert db.snaps[id := Snapshot(name, created, db.names)] - {id} == db.snaps;
  }

  /* ---- retry roots ---- */

  function Due(roots: map<nat, Root>, now: int): set<nat> {
    set o | o in roots && roots[o].expires <= now
  }

  /** A root owns its committed result. */
  predicate Owns(db: Db, o: nat)
    requires o in db.roots
  {
    o in db.ops && db.ops[o].state.Committed? && db.ops[o].file == db.roots[o].file
  }

  function Fence(ops: map<nat, Op>, due: set<nat>): map<nat, Op> {
    map o | o in ops :: if o in due then ops[o].(state := Expired) else ops[o]
  }

  function Only<V>(m: map<nat, V>, keys: set<nat>): map<nat, V> {
    map o | o in m && o in keys :: m[o]
  }

  /** ExpireWriteResults. */
  ghost function Expire(db: Db, now: int): Option<Db> {
    var due := Due(db.roots, now);
    if exists o :: o in due && !Owns(db, o) then None
    else Some(Release(db, due))
  }

  ghost function Release(db: Db, due: set<nat>): Db {
    db.(roots := db.roots - due, ops := Fence(db.ops, due), chunks := Shift(db.chunks, Total(db.files, RootIds(Only(db.roots, due))), -1))
  }

  lemma {:induction false} TotalSplit(files: Files, ids: map<nat, nat>, keys: set<nat>)
    requires keys <= ids.Keys
    ensures Total(files, ids) == Total(files, Only(ids, keys)) + Total(files, ids - keys)
    decreases |keys|
  {
    hide Total;
    if keys == {} {
      assert Only(ids, keys) == map[] && ids - keys == ids;
      TotalNone<nat>(files);
    } else {
      var k :| k in keys;
      TotalSplit(files, ids, keys - {k});
      var low := Only(ids, keys - {k});
      assert Only(ids, keys) == low[k := ids[k]];
      TotalInsert(files, low, k, ids[k]);
      assert ids - (keys - {k}) - {k} == ids - keys;
      TotalRemove(files, ids - (keys - {k}), k);
    }
  }

  lemma TotalNone<K(!new)>(files: Files)
    ensures Total<K>(files, map[]) == multiset{}
  {
  }

  /** Expiry never fails on a reachable catalog, and releases exactly what the due roots held. */
  lemma ExpireInv(db: Db, now: int)
    requires Inv(db)
    ensures Expire(db, now).Some? && Inv(Expire(db, now).value)
  {
    ReleaseInv(db, Due(db.roots, now));
  }

  lemma ReleaseInv(db: Db, due: set<nat>)
    requires Inv(db) && due <= db.roots.Keys
    ensures Inv(Release(db, due))
  {
    hide Exact, Shift, Total, SnapTotal;
    var ids := RootIds(db.roots);
    TotalSplit(db.files, ids, due);
    assert RootIds(db.roots - due) == ids - due;
    assert RootIds(Only(db.roots, due)) == Only(ids, due);
    var m := Total(db.files, Only(ids, due));
    assert Uses(db.files, db.names, db.snaps, db.roots) == Uses(db.files, db.names, db.snaps, db.roots - due) + m;
    ShiftDown(db.chunks, Uses(db.files, db.names, db.snaps, db.roots - due), m);
  }

  /** A second expiry at the same time finds nothing to release. */
  lemma ExpireTwice(db: Db, now: int)
    requires Inv(db)
    ensures Expire(Expire(db, now).value, now) == Some(Expire(db, now).value)
  {
    hide Total, SnapTotal, Exact;
    ExpireInv(db, now);
    var r := Expire(db, now).value;
    assert Due(r.roots, now) == {};
    assert RootIds(Only(r.roots, {})) == map[];
    TotalNone<nat>(db.files);
    assert Shift(r.chunks, multiset{}, -1) == r.chunks;
    assert Fence(r.ops, {}) == r.ops && r.roots - {} == r.roots;
  }

  /* ---- collection, relocation and retirement ---- */

  /** GCChunks. */
  function Collect(db: Db, pinned: set<Hash>): Db {
    db.(chunks := map h | h in db.chunks && (db.chunks[h].refs > 0 || h in pinned) :: db.chunks[h])
  }

  lemma CollectInv(db: Db, pinned: set<Hash>)
    requires Inv(db)
    ensures Inv(Collect(db, pinned))
    ensures forall h :: h in Uses(db.files, db.names, db.snaps, db.roots) || (h in pinned && h in db.chunks) ==> h in Collect(db, pinned).chunks
  {
  }

  /** Versions GCFileVersions may delete. */
  ghost predicate Unowned(db: Db, id: nat) {
    && (forall p :: p in db.names.heads ==> db.names.heads[p].body != id)
    && (forall s, p :: s in db.snaps && p in db.snaps[s].names.heads ==> db.snaps[s].names.heads[p].body != id)
    && (forall o :: o in db.roots ==> db.roots[o].file != id)
    && (forall o :: o in db.ops && (db.ops[o].state.Prepared? || db.ops[o].state.Committed?) ==> db.ops[o].file != id)
  }

  /** GCFileVersions with the rows its LIMIT selects. */
  function DropVersions(db: Db, victims: set<nat>): Db {
    db.(files := db.files - victims)
  }

  lemma DropVersionsInv(db: Db, victims: set<nat>)
    requires Inv(db) && forall id :: id in victims ==> Unowned(db, id)
    ensures Inv(DropVersions(db, victims))
  {
    hide Uses, Exact;
    var files' := db.files - victims;
    forall s | s in db.snaps ensures SameHeads(db.files, files', db.snaps[s].names) && HeadsOwn(files', db.snaps[s].names) {
    }
    UsesSame(db.files, files', db.names, db.snaps, db.roots);
  }

  /** RelocateChunk. */
  function Relocate(db: Db, h: Hash, vlog: nat, offset: nat): Db {
    if h in db.chunks then db.(chunks := db.chunks[h := Chunk(db.chunks[h].refs, db.chunks[h].at.(vlog := vlog, offset := offset))]) else db
  }

  lemma RelocateInv(db: Db, h: Hash, vlog: nat, offset: nat)
    requires Inv(db)
    ensures Inv(Relocate(db, h, vlog, offset))
  {
  }

  /** retireVlogTx: refused for a running job's destination and while a live chunk lies there. */
  function Retire(db: Db, vlog: nat): Option<Db> {
    if vlog in db.destinations || exists h :: h in db.chunks && db.chunks[h].at.vlog == vlog && db.chunks[h].refs > 0 then None
    else Some(db.(chunks := map h | h in db.chunks && db.chunks[h].at.vlog != vlog :: db.chunks[h]))
  }

  /** Retirement is refused exactly when something live would go, and never loses a referenced chunk. */
  lemma RetireInv(db: Db, vlog: nat)
    requires Inv(db)
    ensures Retire(db, vlog).None? <==>
              vlog in db.destinations || exists h :: h in db.chunks && db.chunks[h].at.vlog == vlog && h in Uses(db.files, db.names, db.snaps, db.roots)
    ensures Retire(db, vlog).Some? ==> Inv(Retire(db, vlog).value)
  {
  }

  /* ---- every transaction, every run ---- */

  datatype Event =
    | PublishFile(path: Path, mtime: int, ps: seq<Placement>, id: nat)
    | PrepareOp(op: nat, path: Path)
    | CommitWriteOp(op: nat, path: Path, mtime: int, ps: seq<Placement>, expires: int, id: nat)
    | FinishOp(op: nat, state: OpState)
    | UnlinkFile(path: Path)
    | RenameFile(o: Path, n: Path, now: int, late: bool)
    | MakeDir(path: Path, mtime: int)
    | RemoveDir(path: Path)
    | TakeSnapshot(name: string, created: int, id: nat)
    | DropSnapshot(id: nat)
    | ExpireResults(now: int)
    | CollectChunks(pinned: set<Hash>)
    | CollectVersions(victims: set<nat>)
    | RelocateChunk(h: Hash, vlog: nat, offset: nat)
    | RetireVlog(vlog: nat)
    | SetDestinations(vlogs: set<nat>)

  /** What callers and the database supply: canonical paths, unused row ids, rows that match a query. */
  ghost predicate Enabled(db: Db, e: Event) {
    match e
    case PublishFile(path, _, _, id) => Clean(path) && id !in db.files
    case PrepareOp(op, _) => op !in db.ops
    case CommitWriteOp(_, path, _, _, _, id) => Clean(path) && id !in db.files
    case FinishOp(_, state) => state.Abandoned? || state.Cancelled?
    case RenameFile(o, n, _, _) => Clean(o) && Clean(n)
    case MakeDir(path, _) => Clean(path)
    case TakeSnapshot(_, _, id) => id !in db.snaps
    case CollectVersions(victims) => forall id :: id in victims ==> Unowned(db, id)
    case _ => true
  }

  function Keep(r: Option<Db>, db: Db): Db {
    if r.Some? then r.value else db
  }

  ghost function Step(db: Db, e: Event): Db
    requires Enabled(db, e)
  {
    match e
    case PublishFile(path, mtime, ps, id) => Keep(Publish(db, path, mtime, ps, id), db)
    case PrepareOp(op, path) => db.(ops := db.ops[op := Op(path, Prepared, 0)])
    case CommitWriteOp(op, path, mtime, ps, expires, id) =>
      var r := CommitOp(db, op, path, mtime, ps, expires, id);
      if r.Some? then r.value.0 else db
    case FinishOp(op, state) => Finish(db, op, state)
    case UnlinkFile(path) => Unlink(db, path)
    case RenameFile(o, n, now, late) => Keep(RenameTx(db, o, n, now, late), db)
    case MakeDir(path, mtime) =>
      var ns := Mkdir(db.names, path, mtime);
      if ns.Some? then db.(names := ns.value) else db
    case RemoveDir(path) =>
      var ns := Rmdir(db.names, path);
      if ns.Some? then db.(names := ns.value, ops := CancelUnder(db.ops, path)) else db
    case TakeSnapshot(name, created, id) => CreateSnapshot(db, name, created, id)
    case DropSnapshot(id) => DeleteSnapshot(db, id)
    case ExpireResults(now) => Keep(Expire(db, now), db)
    case CollectChunks(pinned) => Collect(db, pinned)
    case CollectVersions(victims) => DropVersions(db, victims)
    case RelocateChunk(h, vlog, offset) => Relocate(db, h, vlog, offset)
    case RetireVlog(vlog) => Keep(Retire(db, vlog), db)
    case SetDestinations(vlogs) => db.(destinations := vlogs)
  }

  lemma NamesInv(db: Db, ns: Names, ops': map<nat, Op>)
    requires Inv(db) && ns.heads == db.names.heads && OnlyPrepared(db.ops, ops')
    ensures Inv(db.(names := ns, ops := ops'))
  {
  }

  lemma DirInv(db: Db, e: Event)
    requires Inv(db) && Enabled(db, e) && (e.MakeDir? || e.RemoveDir?)
    ensures Inv(Step(db, e))
  {
    hide Inv, HasChild, EnsureDirs, AddDir, CancelUnder;
    if e.MakeDir? {
      if Mkdir(db.names, e.path, e.mtime).Some? {
        NamesInv(db, Mkdir(db.names, e.path, e.mtime).value, db.ops);
      }
    } else if Rmdir(db.names, e.path).Some? {
      NamesInv(db, Rmdir(db.names, e.path).value, CancelUnder(db.ops, e.path));
    }
  }

  lemma PrepareInv(db: Db, op: nat, path: Path)
    requires Inv(db) && op !in db.ops
    ensures Inv(db.(ops := db.ops[op := Op(path, Prepared, 0)]))
  {
  }

  lemma StepInv(db: Db, e: Event)
    requires Inv(db) && Enabled(db, e)
    ensures Inv(Step(db, e))
  {
    hide Inv, Publish, CommitOp, Unlink, RenameTx, CreateSnapshot, DeleteSnapshot, Expire, Collect, DropVersions, Relocate, Retire, Mkdir, Rmdir, Unowned;
    match e {
      case PublishFile(path, mtime, ps, id) =>
        if Publish(db, path, mtime, ps, id).Some? {
          PublishInv(db, path, mtime, ps, id);
        }
      case PrepareOp(op, path) => PrepareInv(db, op, path);
      case CommitWriteOp(op, path, mtime, ps, expires, id) =>
        if CommitOp(db, op, path, mtime, ps, expires, id).Some? {
          CommitOpInv(db, op, path, mtime, ps, expires, id);
        }
      case FinishOp(op, state) => OpsInv(db, Finish(db, op, state).ops);
      case UnlinkFile(path) => UnlinkInv(db, path);
      case RenameFile(o, n, now, late) =>
        if RenameTx(db, o, n, now, late).Some? {
          RenameTxInv(db, o, n, now, late);
        }
      case MakeDir(_, _) => DirInv(db, e);
      case RemoveDir(_) => DirInv(db, e);
      case TakeSnapshot(name, created, id) => CreateSnapshotInv(db, name, created, id);
      case DropSnapshot(id) => DeleteSnapshotInv(db, id);
      case ExpireResults(now) => ExpireInv(db, now);
      case CollectChunks(pinned) => CollectInv(db, pinned);
      case CollectVersions(victims) => DropVersionsInv(db, victims);
      case RelocateChunk(h, vlog, offset) => RelocateInv(db, h, vlog, offset);
      case RetireVlog(vlog) => RetireInv(db, vlog);
      case SetDestinations(vlogs) => DestinationsInv(db, vlogs);
    }
  }

  lemma DestinationsInv(db: Db, vlogs: set<nat>)
    requires Inv(db)
    ensures Inv(db.(destinations := vlogs))
  {
  }

  ghost predicate Run(db: Db, es: seq<Event>, last: Db)
    decreases |es|
  {
    if es == [] then db == last else Enabled(db, es[0]) && Run(Step(db, es[0]), es[1..], last)
  }

  lemma {:induction false} RunInv(db: Db, es: seq<Event>, last: Db)
    requires Inv(db) && Run(db, es, last)
    ensures Inv(last)
    decreases |es|
  {
    hide Inv, Enabled, Step;
    if es != [] {
      StepInv(db, es[0]);
      RunInv(Step(db, es[0]), es[1..], last);
    }
  }

  function Empty(): Db {
    Db(map[], map[], Names(map[], map[]), map[], map[], map[], {})
  }

  /** Not a directory rename to beneath a case variant of its own name, nor one that gives a file and a directory the same
      path. */
  ghost predicate Gentle(db: Db, e: Event)
    requires Enabled(db, e)
  {
    e.RenameFile? && Rename(db.names, e.o, e.n, e.now, e.late).Some? ==> Moves(db.names, e.o, e.n)
  }

  ghost predicate GentleRun(db: Db, es: seq<Event>)
    decreases |es|
  {
    es == [] || (Enabled(db, es[0]) && Gentle(db, es[0]) && GentleRun(Step(db, es[0]), es[1..]))
  }

  /** A transaction keeps the trees if and only if it is not such a rename. */
  lemma StepTrees(db: Db, e: Event)
    requires Trees(db) && Enabled(db, e)
    ensures Trees(Step(db, e)) <==> Gentle(db, e)
  {
    hide Trees, PutHead, Upsert, Shift, Total, Rename, Mkdir, Rmdir, HasChild, Clean, Unowned, HasSnapshot, Cancel, Repoint, Movable;
    NamesTrees(db, e);
    SnapsTrees(db, Step(db, e));
  }

  lemma SnapsTrees(db: Db, next: Db)
    requires Trees(db)
    requires forall s :: s in next.snaps ==> next.snaps[s].names == db.names || (s in db.snaps && next.snaps[s] == db.snaps[s])
    ensures Trees(next) <==> Tree(next.names)
  {
    hide Tree;
  }

  lemma PublishTree(db: Db, path: Path, mtime: int, ps: seq<Placement>, id: nat)
    requires Tree(db.names) && Clean(path)
    ensures var r := Publish(db, path, mtime, ps, id); r.Some? ==> Tree(r.value.names)
  {
    hide Tree, PutHead, Ancestors, Clean, Upsert, Shift, OldExtents, Row;
    PutHeadTree(db.names, path, id, mtime);
  }

  lemma NamesTrees(db: Db, e: Event)
    requires Trees(db) && Enabled(db, e)
    ensures Tree(Step(db, e).names) <==> Gentle(db, e)
  {
    hide Tree, Publish, Upsert, Shift, Total, Rename, Mkdir, Rmdir, HasChild, Clean, Unowned, HasSnapshot, Cancel, Repoint, Movable;
    hide OldExtents, Extents, CancelUnder;
    match e {
      case PublishFile(path, mtime, ps, id) => PublishTree(db, path, mtime, ps, id);
      case CommitWriteOp(op, path, mtime, ps, expires, id) => PublishTree(db, path, mtime, ps, id);
      case UnlinkFile(path) => DropHeadTree(db.names, path);
      case RenameFile(o, n, now, late) =>
        if Rename(db.names, o, n, now, late).Some? {
          RenameTree(db.names, o, n, now, late);
        }
      case MakeDir(path, mtime) => MkdirTree(db.names, path, mtime);
      case RemoveDir(path) => RmdirTree(db.names, path);
      case _ =>
    }
  }

  lemma {:induction false} RunTrees(db: Db, es: seq<Event>, last: Db)
    requires Trees(db) && Run(db, es, last) && GentleRun(db, es)
    ensures Trees(last)
    decreases |es|
  {
    hide Trees, Enabled, Step, Gentle;
    if es != [] {
      StepTrees(db, es[0]);
      RunTrees(Step(db, es[0]), es[1..], last);
    }
  }

  /** In every catalog that any run of transactions reaches from the empty one: each chunk's reference count is the
      number of its occurrences over file heads, snapshot files and retry roots, and everything that occurs has a row. The
      namespace and every snapshot of it are trees as long as no directory rename broke the tree. */
  lemma CatalogConsistent(es: seq<Event>, last: Db)
    requires Run(Empty(), es, last)
    ensures Exact(last.chunks, Uses(last.files, last.names, last.snaps, last.roots))
    ensures GentleRun(Empty(), es) ==> Trees(last)
  {
    TotalNone<nat>(map[]);
    TotalNone<Path>(map[]);
    assert HeadIds(Names(map[], map[])) == map[] && RootIds(map[]) == map[];
    assert Inv(Empty());
    RunInv(Empty(), es, last);
    if GentleRun(Empty(), es) {
      assert Trees(Empty());
      RunTrees(Empty(), es, last);
    }
  }

  /* ---- repeating a commit ---- */

  /** No expiry at or after the time the operation's retry root is kept until. */
  predicate Unexpired(db: Db, op: nat, es: seq<Event>) {
    op in db.roots ==> forall i :: 0 <= i < |es| && es[i].ExpireResults? ==> es[i].now < db.roots[op].expires
  }

  /** The operation, its version and its retry root are what they were. */
  ghost predicate SameResult(db: Db, next: Db, op: nat)
    requires op in db.ops
  {
    && op in next.ops && next.ops[op] == db.ops[op] && (op in next.roots <==> op in db.roots)
    && (op in db.roots ==> next.roots[op] == db.roots[op])
    && db.ops[op].file in db.files && db.ops[op].file in next.files && next.files[db.ops[op].file] == db.files[db.ops[op].file]
  }

  lemma PublishKeepsResult(db: Db, path: Path, mtime: int, ps: seq<Placement>, id: nat, op: nat)
    requires Clean(path) && id !in db.files && op in db.ops && db.ops[op].file in db.files
    requires Publish(db, path, mtime, ps, id).Some?
    ensures SameResult(db, Publish(db, path, mtime, ps, id).value, op)
  {
    hide PutHead, Clean, Upsert, Shift, OldExtents;
  }

  lemma CommitKeepsResult(db: Db, other: nat, path: Path, mtime: int, ps: seq<Placement>, expires: int, id: nat, op: nat)
    requires Clean(path) && id !in db.files && op in db.ops && db.ops[op].file in db.files && db.ops[op].state.Committed?
    requires CommitOp(db, other, path, mtime, ps, expires, id).Some?
    ensures SameResult(db, CommitOp(db, other, path, mtime, ps, expires, id).value.0, op)
  {
    hide Publish, Clean, Shift, Extents;
    if db.ops[other].state.Prepared? {
      PublishKeepsResult(db, path, mtime, ps, id, op);
    }
  }

  lemma CommittedHasFile(db: Db, op: nat)
    requires Inv(db) && op in db.ops && db.ops[op].state.Committed?
    ensures db.ops[op].file in db.files
  {
    hide Exact, Uses;
  }

  lemma CommittedIsOwned(db: Db, op: nat)
    requires op in db.ops && db.ops[op].state.Committed?
    ensures !Unowned(db, db.ops[op].file)
  {
  }

  lemma RenameKeepsOps(db: Db, o: Path, n: Path, now: int, late: bool)
    requires Clean(o) && Clean(n) && RenameTx(db, o, n, now, late).Some?
    ensures var next := RenameTx(db, o, n, now, late).value;
            next.files == db.files && next.roots == db.roots && OnlyPrepared(db.ops, next.ops)
  {
    hide Rename, Clean, Shift, OldExtents, Cancel, Repoint;
  }

  lemma ExpireKeepsResult(db: Db, now: int, op: nat)
    requires op in db.ops && db.ops[op].file in db.files && (op in db.roots ==> now < db.roots[op].expires)
    ensures SameResult(db, Keep(Expire(db, now), db), op)
  {
    hide Shift, Total, Owns;
  }

  /** Nothing but its own expiry touches a committed operation, its version or its retry root. */
  lemma StepKeepsResult(db: Db, e: Event, op: nat)
    requires Inv(db) && Enabled(db, e) && op in db.ops && db.ops[op].state.Committed?
    requires e.ExpireResults? && op in db.roots ==> e.now < db.roots[op].expires
    ensures SameResult(db, Step(db, e), op)
  {
    hide Inv, Publish, CommitOp, RenameTx, Expire, Shift, Mkdir, Rmdir, HasSnapshot, OldExtents, Clean, Unowned;
    hide Cancel, CancelUnder, Finish;
    assert db.ops[op].file in db.files by { CommittedHasFile(db, op); }
    match e {
      case PublishFile(path, mtime, ps, id) =>
        if Publish(db, path, mtime, ps, id).Some? {
          PublishKeepsResult(db, path, mtime, ps, id, op);
        }
      case CommitWriteOp(other, path, mtime, ps, expires, id) =>
        if CommitOp(db, other, path, mtime, ps, expires, id).Some? {
          CommitKeepsResult(db, other, path, mtime, ps, expires, id, op);
        }
      case RenameFile(o, n, now, late) =>
        if RenameTx(db, o, n, now, late).Some? {
          RenameKeepsOps(db, o, n, now, late);
        }
      case ExpireResults(now) => ExpireKeepsResult(db, now, op);
      case CollectVersions(victims) => assert db.ops[op].file !in victims by { CommittedIsOwned(db, op); }
      case _ =>
    }
  }

  lemma {:induction false} RunKeepsResult(db: Db, es: seq<Event>, last: Db, op: nat)
    requires Inv(db) && Run(db, es, last) && op in db.ops && db.ops[op].state.Committed? && Unexpired(db, op, es)
    ensures Inv(last) && SameResult(db, last, op)
    decreases |es|
  {
    hide Enabled, Step, Exact, Uses;
    if es != [] {
      assert es[0].ExpireResults? && op in db.roots ==> es[0].now < db.roots[op].expires;
      StepInv(db, es[0]);
      StepKeepsResult(db, es[0], op);
      var next := Step(db, es[0]);
      forall i | 0 <= i < |es[1..]| && es[1..][i].ExpireResults? && op in next.roots ensures es[1..][i].now < next.roots[op].expires {
        assert es[1..][i] == es[i + 1];
      }
      RunKeepsResult(next, es[1..], last, op);
    }
  }

  /** What a retry root refers to has live rows. */
  lemma RootIsLive(db: Db, op: nat, h: Hash)
    requires Inv(db) && op in db.roots && h in Extents(db.files, db.roots[op].file)
    ensures h in db.chunks && db.chunks[h].refs > 0
  {
    hide Total, SnapTotal;
    TotalRemove(db.files, RootIds(db.roots), op);
    assert h in multiset(Extents(db.files, db.roots[op].file));
  }

  /** A committed operation that is retried, with whatever arguments and whatever other transactions in between, changes
      nothing and answers the version it published, which is still there with its extents; with a retry root its chunks are
      live. This holds until an expiry at or after the time the root is kept until. */
  lemma RetryAnswersTheSame(db: Db, op: nat, path: Path, mtime: int, ps: seq<Placement>, expires: int, id: nat, es: seq<Event>, last: Db)
    requires Inv(db) && Clean(path) && id !in db.files && op in db.ops && db.ops[op].state.Prepared?
    requires CommitOp(db, op, path, mtime, ps, expires, id).Some? && Run(CommitOp(db, op, path, mtime, ps, expires, id).value.0, es, last)
    requires expires != 0 ==> forall i :: 0 <= i < |es| && es[i].ExpireResults? ==> es[i].now < expires
    ensures forall path', mtime', ps', expires', id' :: Clean(path') ==> CommitOp(last, op, path', mtime', ps', expires', id') == Some((last, id))
    ensures id in last.files && last.files[id] == Hashes(ps)
    ensures expires != 0 ==> forall i :: 0 <= i < |ps| ==> ps[i].hash in last.chunks && last.chunks[ps[i].hash].refs > 0
  {
    hide Publish, Run, Uses, Exact;
    var r := CommitOp(db, op, path, mtime, ps, expires, id).value;
    CommitOpInv(db, op, path, mtime, ps, expires, id);
    CommittedResult(db, op, path, mtime, ps, expires, id);
    assert expires == 0 ==> op !in db.roots;
    RunKeepsResult(r.0, es, last, op);
    if expires != 0 {
      forall i | 0 <= i < |ps| ensures ps[i].hash in last.chunks && last.chunks[ps[i].hash].refs > 0 {
        assert Hashes(ps)[i] in Hashes(ps);
        RootIsLive(last, op, ps[i].hash);
      }
    }
  }
}
