/**
 The catalog transactions in the form they are executed: loops over rows, each proved to be the one
 atomic step the specification says.
 */
module CatalogStore {
  import opened Results
  import opened Paths
  import opened Namespace
  import opened Refs
  import opened Catalog

  /** One reference per extent of every version the table refers to, row by row in any order. */
  method AdjustAll<K(!new, ==)>(chunks: Chunks, files: Files, rows: map<K, nat>, sign: int) returns (r: Chunks)
    ensures r == Shift(chunks, Total(files, rows), sign)
  {
    hide Total, Shift;
    r := chunks;
    var rest := rows;
    ghost var done := multiset{};
    ShiftNone(chunks, sign);
    TotalNone<K>(files);
    while rest != map[]
      invariant Total(files, rows) == done + Total(files, rest)
      invariant r == Shift(chunks, done, sign)
      decreases |rest|
    {
      var k :| k in rest;
      var hashes := Extents(files, rest[k]);
      TotalRemove(files, rest, k);
      Smaller(rest, k);
      AdjustIsShift(r, hashes, sign);
      ShiftShift(chunks, done, multiset(hashes), sign);
      r := AdjustLoop(r, hashes, sign);
      done := done + multiset(hashes);
      rest := rest - {k};
    }
    assert done + multiset{} == done;
  }

  lemma ShiftNone(chunks: Chunks, sign: int)
    ensures Shift(chunks, multiset{}, sign) == chunks
  {
  }

  class Store {
    var db: Db

    constructor ()
      ensures db == Empty()
    {
      db := Empty();
    }

    /** publishFileVersion and the transaction around it. */
    method Publish(path: Path, mtime: int, ps: seq<Placement>, id: nat) returns (ok: bool)
      requires Clean(path)
      modifies this
      ensures ok <==> Catalog.Publish(old(db), path, mtime, ps, id).Some?
      ensures db == Keep(Catalog.Publish(old(db), path, mtime, ps, id), old(db))
    {
      hide Ancestors, Parent, Name, EnsureAll, Upsert, Shift, Adjust;
      if path == "" || path in db.names.dirs {
        return false;
      }
      var chunks := db.chunks;
      if path in db.names.heads {
        AdjustIsShift(chunks, OldExtents(db, path), -1);
        chunks := AdjustLoop(chunks, OldExtents(db, path), -1);
      } else {
        ShiftNone(chunks, -1);
        assert multiset(OldExtents(db, path)) == multiset{};
      }
      chunks := UpsertLoop(chunks, ps);
      var heads := db.names.heads[path := Row(path, mtime, id)];
      var dirs := EnsureLoop(heads, db.names.dirs, Ancestors(path), mtime);
      if dirs.None? {
        return false;
      }
      db := db.(chunks := chunks, files := db.files[id := Hashes(ps)], names := Names(heads, dirs.value));
      return true;
    }

    /** CommitWriteOpVersion and CommitWriteOpVersionWithRetention. */
    method CommitOp(op: nat, path: Path, mtime: int, ps: seq<Placement>, expires: int, id: nat) returns (r: Option<nat>)
      requires Clean(path)
      modifies this
      ensures var spec := Catalog.CommitOp(old(db), op, path, mtime, ps, expires, id);
              if spec.Some? then r == Some(spec.value.1) && db == spec.value.0 else r == None && db == old(db)
    {
      hide Catalog.Publish, Shift, Adjust;
      if op !in db.ops {
        return None;
      }
      if db.ops[op].state.Committed? {
        return Some(db.ops[op].file);
      }
      if !db.ops[op].state.Prepared? {
        return None;
      }
      var ops := db.ops;
      var ok := Publish(path, mtime, ps, id);
      if !ok {
        return None;
      }
      db := db.(ops := ops[op := Op(ops[op].path, Committed, id)]);
      if expires != 0 {
        AdjustIsShift(db.chunks, Extents(db.files, id), 1);
        var chunks := AdjustLoop(db.chunks, Extents(db.files, id), 1);
        db := db.(chunks := chunks, roots := db.roots[op := Root(id, expires)]);
      }
      return Some(id);
    }

    /** UnlinkFile. */
    method Unlink(path: Path)
      modifies this
      ensures db == Catalog.Unlink(old(db), path)
    {
      hide Shift, Adjust, Cancel;
      AdjustIsShift(db.chunks, OldExtents(db, path), -1);
      var chunks := AdjustLoop(db.chunks, OldExtents(db, path), -1);
      db := db.(ops := Cancel(db.ops, path), chunks := chunks, names := Names(db.names.heads - {path}, db.names.dirs));
    }

    /** CreateSnapshot: one pass over the heads. */
    method CreateSnapshot(name: string, created: int, id: nat)
      modifies this
      ensures db == Catalog.CreateSnapshot(old(db), name, created, id)
    {
      hide Shift, Total;
      if !HasSnapshot(db.snaps, name) {
        var chunks := AdjustAll(db.chunks, db.files, HeadIds(db.names), 1);
        db := db.(snaps := db.snaps[id := Snapshot(name, created, db.names)], chunks := chunks);
      }
    }

    /** deleteSnapshotTx: one pass over the snapshot's rows. */
    method DeleteSnapshot(id: nat)
      modifies this
      ensures db == Catalog.DeleteSnapshot(old(db), id)
    {
      hide Shift, Total;
      if id in db.snaps {
        var chunks := AdjustAll(db.chunks, db.files, HeadIds(db.snaps[id].names), -1);
        db := db.(snaps := db.snaps - {id}, chunks := chunks);
      }
    }

    /** RenameFile. `late` tells whether the database listed a row before the one whose path it was to get. */
    method Rename(o: Path, n: Path, now: int) returns (ok: bool, ghost late: bool)
      requires Clean(o) && Clean(n)
      modifies this
      ensures ok <==> RenameTx(old(db), o, n, now, late).Some?
      ensures db == Keep(RenameTx(old(db), o, n, now, late), old(db))
    {
      hide Ancestors, Parent, Name, EnsureAll, Rewrite, Shift, Adjust, HasChild, RewriteLike;
      late := false;
      if o == "" || n == "" {
        return false, late;
      }
      if o == n {
        return o in db.names.heads || o in db.names.dirs, late;
      }
      if Under(n, o) {
        return false, late;
      }
      if o in db.names.heads {
        ok := RenameOneFile(o, n, now);
      } else if o in db.names.dirs {
        ok, late := RenameDir(o, n, now);
      } else {
        return false, late;
      }
    }

    method RenameOneFile(o: Path, n: Path, now: int) returns (ok: bool)
      requires Canonical(o) && Canonical(n) && o != n && !Under(n, o) && o in db.names.heads
      modifies this
      ensures ok <==> RenameTx(old(db), o, n, now, false).Some?
      ensures db == Keep(RenameTx(old(db), o, n, now, false), old(db))
    {
      hide Ancestors, Parent, Name, EnsureAll, Shift, Adjust, At, MoveDir;
      if n in db.names.dirs {
        return false;
      }
      AdjustIsShift(db.chunks, OldExtents(db, n), -1);
      var chunks := AdjustLoop(db.chunks, OldExtents(db, n), -1);
      var heads := db.names.heads[n := At(n, db.names.heads[o])] - {o};
      var dirs := EnsureLoop(heads, db.names.dirs, Ancestors(n), now);
      if dirs.None? {
        return false;
      }
      db := db.(chunks := chunks, names := Names(heads, dirs.value), ops := Repoint(Cancel(db.ops, n), o, n));
      return true;
    }

    method RenameDir(o: Path, n: Path, now: int) returns (ok: bool, ghost late: bool)
      requires Canonical(o) && Canonical(n) && o != n && !Under(n, o) && o !in db.names.heads && o in db.names.dirs
      modifies this
      ensures ok <==> RenameTx(old(db), o, n, now, late).Some?
      ensures db == Keep(RenameTx(old(db), o, n, now, late), old(db))
    {
      hide Ancestors, Parent, Name, EnsureAll, HasChild, MoveFile, Clash, Rewritten, Occupied, Overlap, Caught;
      late := false;
      if n in db.names.heads || (n in db.names.dirs && HasChild(db.names, n)) {
        return false, late;
      }
      var dirs := EnsureLoop(db.names.heads, db.names.dirs - {n}, Ancestors(n), now);
      if dirs.None? {
        return false, late;
      }
      var dirs' := RewriteLoop(dirs.value, o, n);
      if dirs'.None? {
        return false, true;
      }
      RewrittenIs(dirs.value, o, n, dirs'.value);
      var heads' := RewriteLoop(db.names.heads, o, n);
      if heads'.None? {
        return false, true;
      }
      RewrittenIs(db.names.heads, o, n, heads'.value);
      db := db.(names := Names(heads'.value, dirs'.value), ops := Repoint(Cancel(db.ops, n), o, n));
      return true, late;
    }

    /** ExpireWriteResults: roots are fenced and released one at a time; one that does not own its committed result
        fails the whole transaction. */
    method ExpireResults(now: int) returns (r: Option<nat>)
      modifies this
      ensures var spec := Expire(old(db), now);
              if spec.Some? then r == Some(|Due(old(db).roots, now)|) && db == spec.value else r == None && db == old(db)
    {
      var due := Due(db.roots, now);
      var next := ReleaseLoop(db, due);
      if next.None? {
        return None;
      }
      db := next.value;
      return Some(|due|);
    }
  }

  method ReleaseLoop(db: Db, due: set<nat>) returns (r: Option<Db>)
    requires due <= db.roots.Keys
    ensures r.Some? <==> forall o :: o in due ==> Owns(db, o)
    ensures r.Some? ==> r.value == Release(db, due)
  {
    hide Shift, Total, Adjust, Release;
    var rest, cur := due, db;
    ghost var done: set<nat> := {};
    ReleaseNone(db);
    while rest != {}
      invariant done + rest == due && done !! rest && cur == Release(db, done)
      invariant forall o :: o in done ==> o in db.roots && Owns(db, o)
      decreases |rest|
    {
      var o :| o in rest;
      ReleaseRow(db, done, o);
      if !(o in cur.ops && cur.ops[o].state.Committed? && cur.ops[o].file == cur.roots[o].file) {
        assert !Owns(db, o);
        return None;
      }
      var hashes := Extents(cur.files, cur.roots[o].file);
      ReleaseOne(db, done, o);
      AdjustIsShift(cur.chunks, hashes, -1);
      var chunks := AdjustLoop(cur.chunks, hashes, -1);
      cur := cur.(ops := cur.ops[o := cur.ops[o].(state := Expired)], chunks := chunks, roots := cur.roots - {o});
      done, rest := done + {o}, rest - {o};
    }
    assert done == due;
    return Some(cur);
  }

  lemma ReleaseRow(db: Db, done: set<nat>, o: nat)
    requires o in db.roots && o !in done
    ensures var a := Release(db, done);
            && a.files == db.files && o in a.roots && a.roots[o] == db.roots[o]
            && (o in a.ops <==> o in db.ops) && (o in db.ops ==> a.ops[o] == db.ops[o])
  {
  }

  lemma ReleaseNone(db: Db)
    ensures Release(db, {}) == db
  {
  }

  /** Releasing one more root. */
  lemma ReleaseOne(db: Db, done: set<nat>, o: nat)
    requires o in db.roots && o !in done && o in db.ops
    ensures var a, b := Release(db, done), Release(db, done + {o});
            && o in a.roots && a.roots[o] == db.roots[o] && a.ops[o] == db.ops[o]
            && b == a.(ops := a.ops[o := a.ops[o].(state := Expired)], roots := a.roots - {o},
            chunks := Shift(a.chunks, multiset(Extents(db.files, db.roots[o].file)), -1))
  {
    hide Total, Shift;
    var ids := RootIds(Only(db.roots, done));
    assert RootIds(Only(db.roots, done + {o})) == ids[o := db.roots[o].file];
    TotalInsert(db.files, ids, o, db.roots[o].file);
    var m, e := Total(db.files, ids), multiset(Extents(db.files, db.roots[o].file));
    ShiftShift(db.chunks, m, e, -1);
    assert m + e == e + m;
    assert db.roots - (done + {o}) == db.roots - done - {o};
    assert Fence(db.ops, done + {o}) == Fence(db.ops, done)[o := db.ops[o].(state := Expired)];
  }
}
