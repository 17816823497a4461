/**
 Reclamation against in-flight deduplication (server/pin.go, gcLocked in server/server.go,
 retireVlogLocked in server/compaction.go). A step is what runs while one lock is held; collection and
 retirement hold the pin lock from reading the pins to deleting the rows.
 */
module Pins {
  import opened Results
  import opened Refs
  import C = Catalog
  import N = Namespace

  /** A call of pinAndResolveChunk between its locked sections. */
  datatype Call =
    | Looking(owner: int, hash: Hash, already: bool)  // pinned, chunk not looked up yet
    | Dropping(owner: int, hash: Hash)                // looked up in vain, pin not dropped yet

  datatype State = State(
    db: C.Db,
    retired: set<nat>,
    pins: map<int, set<Hash>>,
    calls: map<nat, Call>,
    held: set<(int, Hash)>)  // what callers were told they hold and have not released

  datatype Event =
    | Pin(call: nat, owner: int, hash: Hash)
    | Lookup(call: nat, failed: bool)
    | Drop(call: nat)
    | Release(owner: int)
    | Replace(owner: int, hashes: set<Hash>)
    | Transact(e: C.Event)
    | Gc
    | Retire(vlog: nat)

  function PinsOf(pins: map<int, set<Hash>>, owner: int): set<Hash> {
    if owner in pins then pins[owner] else {}
  }

  /** pinnedHashesLocked. */
  function Pinned(pins: map<int, set<Hash>>): set<Hash> {
    set o, h | o in pins && h in pins[o] :: h
  }

  lemma InPinned(pins: map<int, set<Hash>>, owner: int, h: Hash)
    ensures owner in pins && h in pins[owner] ==> h in Pinned(pins)
  {
  }

  function StepPin(s: State, call: nat, owner: int, hash: Hash): State {
    s.(pins := s.pins[owner := PinsOf(s.pins, owner) + {hash}],
    calls := s.calls[call := Looking(owner, hash, hash in PinsOf(s.pins, owner))])
  }

  predicate Live(db: C.Db, h: Hash) {
    h in db.chunks && db.chunks[h].refs > 0
  }

  function StepLookup(s: State, call: nat, failed: bool): State
    requires call in s.calls && s.calls[call].Looking?
  {
    var c := s.calls[call];
    if !failed && Live(s.db, c.hash) then s.(calls := s.calls - {call}, held := s.held + {(c.owner, c.hash)})
    else if c.already then s.(calls := s.calls - {call})
    else s.(calls := s.calls[call := Dropping(c.owner, c.hash)])
  }

  function StepDrop(s: State, call: nat): State
    requires call in s.calls
  {
    var c := s.calls[call];
    var left := PinsOf(s.pins, c.owner) - {c.hash};
    s.(calls := s.calls - {call}, pins := if left == {} then s.pins - {c.owner} else s.pins[c.owner := left])
  }

  function Without(held: set<(int, Hash)>, owner: int): set<(int, Hash)> {
    set x | x in held && x.0 != owner
  }

  function StepRelease(s: State, owner: int): State {
    s.(pins := s.pins - {owner}, held := Without(s.held, owner))
  }

  /** replacePins. A version read before, whose rows may be gone by now, is pinned all the same; only the hashes that
      still have a row count as held. */
  function StepReplace(s: State, owner: int, hashes: set<Hash>): State {
    s.(pins := if hashes == {} then s.pins - {owner} else s.pins[owner := hashes],
    held := Without(s.held, owner) + set h | h in hashes && h in s.db.chunks :: (owner, h))
  }

  /** retireVlogLocked: a vlog that holds a row of a pinned chunk is left alone. */
  function StepRetire(s: State, vlog: nat): State {
    if exists h :: h in Pinned(s.pins) && h in s.db.chunks && s.db.chunks[h].at.vlog == vlog then s
    else
      var r := C.Retire(s.db, vlog);
      if r.None? then s else s.(db := r.value, retired := s.retired + {vlog})
  }

  /** No call is under way for this owner: the operation lock serializes an owner's calls. */
  ghost predicate Quiet(s: State, owner: int) {
    forall c :: c in s.calls ==> s.calls[c].owner != owner
  }

  /** Publication checks that the vlogs of its placements exist, and chunks are relocated into mounted vlogs only. */
  ghost predicate IntoMounted(e: C.Event, retired: set<nat>) {
    match e
    case PublishFile(_, _, ps, _) => forall i :: 0 <= i < |ps| ==> ps[i].at.vlog !in retired
    case CommitWriteOp(_, _, _, ps, _, _) => forall i :: 0 <= i < |ps| ==> ps[i].at.vlog !in retired
    case RelocateChunk(_, vlog, _) => vlog !in retired
    case _ => true
  }

  ghost predicate Enabled(s: State, e: Event) {
    match e
    case Pin(call, owner, _) => call !in s.calls && Quiet(s, owner)
    case Lookup(call, _) => call in s.calls && s.calls[call].Looking?
    case Drop(call) => call in s.calls && s.calls[call].Dropping?
    case Release(owner) => Quiet(s, owner)
    case Replace(owner, _) => Quiet(s, owner)
    case Transact(e) => C.Enabled(s.db, e) && !e.CollectChunks? && !e.RetireVlog? && IntoMounted(e, s.retired)
    case Gc => true
    case Retire(_) => true
  }

  ghost function Step(s: State, e: Event): State
    requires Enabled(s, e)
  {
    match e
    case Pin(call, owner, hash) => StepPin(s, call, owner, hash)
    case Lookup(call, failed) => StepLookup(s, call, failed)
    case Drop(call) => StepDrop(s, call)
    case Release(owner) => StepRelease(s, owner)
    case Replace(owner, hashes) => StepReplace(s, owner, hashes)
    case Transact(e) => s.(db := C.Step(s.db, e))
    case Gc => s.(db := C.Collect(s.db, Pinned(s.pins)))
    case Retire(vlog) => StepRetire(s, vlog)
  }

  /* ---- the invariant ---- */

  /** No row points into a retired vlog. */
  ghost predicate Mounted(chunks: Chunks, retired: set<nat>) {
    forall h :: h in chunks ==> chunks[h].at.vlog !in retired
  }

  /** What is held is pinned, and its row exists. */
  ghost predicate HeldOk(chunks: Chunks, pins: map<int, set<Hash>>, held: set<(int, Hash)>) {
    forall x :: x in held ==> x.0 in pins && x.1 in pins[x.0] && x.1 in chunks
  }

  /** A call that will drop its pin took it itself, and nobody else of its owner relies on it. */
  ghost predicate CallsOk(s: State) {
    && (forall c, d :: c in s.calls && d in s.calls && c != d ==> s.calls[c].owner != s.calls[d].owner)
    && (forall c :: c in s.calls ==>
                      (s.calls[c].Dropping? || !s.calls[c].already) ==> (s.calls[c].owner, s.calls[c].hash) !in s.held)
    && (forall c :: c in s.calls ==> s.calls[c].hash in PinsOf(s.pins, s.calls[c].owner))
  }

  ghost predicate Inv(s: State) {
    Mounted(s.db.chunks, s.retired) && HeldOk(s.db.chunks, s.pins, s.held) && CallsOk(s)
  }

  /* ---- transactions keep rows ---- */

  lemma {:induction false} UpsertMounted(chunks: Chunks, ps: seq<Placement>, retired: set<nat>)
    requires Mounted(chunks, retired) && forall i :: 0 <= i < |ps| ==> ps[i].at.vlog !in retired
    ensures Mounted(Upsert(chunks, ps), retired) && chunks.Keys <= Upsert(chunks, ps).Keys
    decreases |ps|
  {
    if ps != [] {
      UpsertMounted(Upsert1(chunks, ps[0]), ps[1..], retired);
    }
  }

  ghost predicate KeepsRows(a: Chunks, b: Chunks, retired: set<nat>) {
    a.Keys <= b.Keys && Mounted(b, retired)
  }

  lemma ShiftKeeps(chunks: Chunks, m: multiset<Hash>, sign: int, retired: set<nat>)
    requires Mounted(chunks, retired)
    ensures KeepsRows(chunks, Shift(chunks, m, sign), retired)
  {
  }

  lemma PublishKeeps(db: C.Db, path: string, mtime: int, ps: seq<Placement>, id: nat, retired: set<nat>)
    requires N.Clean(path) && Mounted(db.chunks, retired) && forall i :: 0 <= i < |ps| ==> ps[i].at.vlog !in retired
    ensures KeepsRows(db.chunks, C.Keep(C.Publish(db, path, mtime, ps, id), db).chunks, retired)
  {
    hide N.PutHead, Upsert, Shift;
    var low := Shift(db.chunks, multiset(C.OldExtents(db, path)), -1);
    ShiftKeeps(db.chunks, multiset(C.OldExtents(db, path)), -1, retired);
    UpsertMounted(low, ps, retired);
  }

  lemma CommitKeeps(db: C.Db, op: nat, path: string, mtime: int, ps: seq<Placement>, expires: int, id: nat, retired: set<nat>)
    requires N.Clean(path) && Mounted(db.chunks, retired) && forall i :: 0 <= i < |ps| ==> ps[i].at.vlog !in retired
    ensures var r := C.CommitOp(db, op, path, mtime, ps, expires, id);
            r.Some? ==> KeepsRows(db.chunks, r.value.0.chunks, retired)
  {
    hide C.Publish, Shift;
    PublishKeeps(db, path, mtime, ps, id, retired);
    var r := C.Publish(db, path, mtime, ps, id);
    if r.Some? {
      ShiftKeeps(r.value.chunks, multiset(Extents(r.value.files, id)), 1, retired);
    }
  }

  /** Only collection and retirement delete chunk rows, and no transaction points one into a retired vlog. */
  lemma TransactKeeps(db: C.Db, e: C.Event, retired: set<nat>)
    requires C.Enabled(db, e) && IntoMounted(e, retired) && Mounted(db.chunks, retired) && !e.CollectChunks? && !e.RetireVlog?
    ensures KeepsRows(db.chunks, C.Step(db, e).chunks, retired)
  {
    hide C.Publish, C.CommitOp, Shift, Total, N.Rename, N.Mkdir, N.Rmdir, C.HasSnapshot, C.Unowned, C.Cancel;
    match e {
      case PublishFile(path, mtime, ps, id) => PublishKeeps(db, path, mtime, ps, id, retired);
      case CommitWriteOp(op, path, mtime, ps, expires, id) => CommitKeeps(db, op, path, mtime, ps, expires, id, retired);
      case UnlinkFile(path) => ShiftKeeps(db.chunks, multiset(C.OldExtents(db, path)), -1, retired);
      case RenameFile(o, n, now, late) => ShiftKeeps(db.chunks, multiset(C.OldExtents(db, n)), -1, retired);
      case TakeSnapshot(_, _, _) => ShiftKeeps(db.chunks, Total(db.files, C.HeadIds(db.names)), 1, retired);
      case DropSnapshot(id) =>
        if id in db.snaps {
          ShiftKeeps(db.chunks, Total(db.files, C.HeadIds(db.snaps[id].names)), -1, retired);
        }
      case ExpireResults(now) => ShiftKeeps(db.chunks, Total(db.files, C.RootIds(C.Only(db.roots, C.Due(db.roots, now)))), -1, retired);
      case _ =>
    }
  }

  /* ---- every step, every run ---- */

  lemma PinInv(s: State, call: nat, owner: int, hash: Hash)
    requires Inv(s) && call !in s.calls && Quiet(s, owner)
    ensures Inv(StepPin(s, call, owner, hash))
  {
  }

  lemma LookupInv(s: State, call: nat, failed: bool)
    requires Inv(s) && call in s.calls && s.calls[call].Looking?
    ensures Inv(StepLookup(s, call, failed))
  {
    var n, me := StepLookup(s, call, failed), s.calls[call];
    forall x | x in n.held ensures x.0 in n.pins && x.1 in n.pins[x.0] && x.1 in n.db.chunks {
      assert x in s.held || x == (me.owner, me.hash);
    }
    forall c | c in n.calls
      ensures n.calls[c].hash in PinsOf(n.pins, n.calls[c].owner)
      ensures n.calls[c].Dropping? || !n.calls[c].already ==> (n.calls[c].owner, n.calls[c].hash) !in n.held
    {
      assert s.calls[c].hash in PinsOf(s.pins, s.calls[c].owner);
      assert c != call ==> s.calls[c].owner != me.owner;
    }
  }

  lemma DropInv(s: State, call: nat)
    requires Inv(s) && call in s.calls && s.calls[call].Dropping?
    ensures Inv(StepDrop(s, call))
  {
    var n, me := StepDrop(s, call), s.calls[call];
    forall x | x in n.held ensures x.0 in n.pins && x.1 in n.pins[x.0] && x.1 in n.db.chunks {
      assert x.0 in s.pins && x.1 in s.pins[x.0] && x != (me.owner, me.hash);
      assert x.0 == me.owner ==> x.1 in PinsOf(s.pins, me.owner) - {me.hash};
    }
    forall c | c in n.calls ensures n.calls[c].hash in PinsOf(n.pins, n.calls[c].owner) {
      assert s.calls[c].hash in PinsOf(s.pins, s.calls[c].owner) && s.calls[c].owner != me.owner;
    }
  }

  /** Giving up or replacing all pins of an owner with no call under way. */
  lemma SwapInv(s: State, owner: int, hashes: set<Hash>)
    requires Inv(s) && Quiet(s, owner)
    ensures Inv(StepReplace(s, owner, hashes)) && Inv(StepRelease(s, owner))
  {
    var n := StepReplace(s, owner, hashes);
    forall x | x in n.held ensures x.0 in n.pins && x.1 in n.pins[x.0] && x.1 in n.db.chunks {
      assert x in s.held || (x.0 == owner && x.1 in hashes);
    }
    forall c | c in n.calls ensures n.calls[c].hash in PinsOf(n.pins, n.calls[c].owner) {
      assert s.calls[c].hash in PinsOf(s.pins, s.calls[c].owner);
    }
  }

  lemma StepInv(s: State, e: Event)
    requires Inv(s) && Enabled(s, e)
    ensures Inv(Step(s, e))
  {
    hide C.Step, C.Enabled, IntoMounted, StepPin, StepLookup, StepDrop, StepRelease, StepReplace, StepRetire;
    match e {
      case Pin(call, owner, hash) => PinInv(s, call, owner, hash);
      case Lookup(call, failed) => LookupInv(s, call, failed);
      case Drop(call) => DropInv(s, call);
      case Release(owner) => SwapInv(s, owner, {});
      case Replace(owner, hashes) => SwapInv(s, owner, hashes);
      case Transact(t) => TransactKeeps(s.db, t, s.retired);
      case Gc => GcInv(s);
      case Retire(vlog) => RetireInv(s, vlog);
    }
  }

  lemma GcInv(s: State)
    requires Inv(s)
    ensures Inv(s.(db := C.Collect(s.db, Pinned(s.pins))))
  {
    forall x | x in s.held ensures x.1 in Pinned(s.pins) {
      InPinned(s.pins, x.0, x.1);
    }
  }

  lemma RetireInv(s: State, vlog: nat)
    requires Inv(s)
    ensures Inv(StepRetire(s, vlog))
  {
    forall x | x in s.held ensures x.1 in Pinned(s.pins) {
      InPinned(s.pins, x.0, x.1);
    }
  }

  ghost predicate Run(s: State, es: seq<Event>, t: State)
    decreases |es|
  {
    if es == [] then s == t else Enabled(s, es[0]) && Run(Step(s, es[0]), es[1..], t)
  }

  lemma {:induction false} RunInv(s: State, es: seq<Event>, t: State)
    requires Inv(s) && Run(s, es, t)
    ensures Inv(t)
    decreases |es|
  {
    hide Inv, Enabled, Step;
    if es != [] {
      StepInv(s, es[0]);
      RunInv(Step(s, es[0]), es[1..], t);
    }
  }

  /** This event does not end the owner's claim. */
  predicate Spares(e: Event, owner: int) {
    !(e.Release? && e.owner == owner) && !(e.Replace? && e.owner == owner)
  }

  lemma {:induction false} HeldStays(s: State, es: seq<Event>, t: State, owner: int, h: Hash)
    requires Run(s, es, t) && (owner, h) in s.held && forall i :: 0 <= i < |es| ==> Spares(es[i], owner)
    ensures (owner, h) in t.held
    decreases |es|
  {
    hide C.Step, C.Enabled, C.Collect, C.Retire, IntoMounted;
    if es != [] {
      assert Spares(es[0], owner);
      forall i | 0 <= i < |es[1..]| ensures Spares(es[1..][i], owner) {
        assert es[1..][i] == es[i + 1];
      }
      HeldStays(Step(s, es[0]), es[1..], t, owner, h);
    }
  }

  /** Pin safety: from the moment pinAndResolveChunk reports success until its owner's pins are released, in every
      interleaving with publication, unlinking, snapshots, collection, relocation and retirement, the chunk's row
      exists and lies in a vlog that is not retired. */
  lemma PinSafety(s0: State, es0: seq<Event>, s: State, call: nat, es: seq<Event>, t: State)
    requires Inv(s0) && Run(s0, es0, s)
    requires call in s.calls && s.calls[call].Looking? && Live(s.db, s.calls[call].hash)
    requires Run(StepLookup(s, call, false), es, t) && forall i :: 0 <= i < |es| ==> Spares(es[i], s.calls[call].owner)
    ensures var h := s.calls[call].hash; h in t.db.chunks && t.db.chunks[h].at.vlog !in t.retired
  {
    hide C.Step, C.Enabled, Run;
    var c := s.calls[call];
    RunInv(s0, es0, s);
    StepInv(s, Lookup(call, false));
    RunInv(StepLookup(s, call, false), es, t);
    HeldStays(StepLookup(s, call, false), es, t, c.owner, c.hash);
    assert (c.owner, c.hash) in t.held;
  }

  /** Two calls of one owner for one chunk: pin and look in vain, publication, pin and look with success, drop of the first. */
  ghost function Overlapped(s: State, owner: int, h: Hash, published: C.Db): State
    requires 0 !in s.calls && 1 !in s.calls && h !in PinsOf(s.pins, owner) && !Live(s.db, h)
  {
    var s1 := StepLookup(StepPin(s, 0, owner, h), 0, false);
    var s2 := StepLookup(StepPin(s1.(db := published), 1, owner, h), 1, false);
    StepDrop(s2, 0)
  }

  /** The operation lock is needed. Let two calls of one owner overlap: the first looks in vain, someone publishes a file
      with the chunk, the second is told it holds the chunk, and the first then drops the pin they share. The chunk is held
      but no longer pinned, so once the file is unlinked the next collection deletes the row. */
  lemma OverlappingCallsLoseThePin(s: State, owner: int, p: Placement, path: string, mtime: int, id: nat, published: C.Db)
    requires 0 !in s.calls && 1 !in s.calls && p.hash !in Pinned(s.pins) && !Live(s.db, p.hash)
    requires C.Inv(s.db) && N.Clean(path) && path !in s.db.names.heads && id !in s.db.files
    requires C.Publish(s.db, path, mtime, [p], id) == Some(published)
    ensures var s3 := Overlapped(s, owner, p.hash, published);
            && (owner, p.hash) in s3.held && p.hash !in Pinned(s3.pins)
            && p.hash !in C.Collect(C.Unlink(published, path), Pinned(s3.pins)).chunks
  {
    hide C.Publish, C.Unlink, C.Inv;
    PublishThenUnlink(s.db, p, path, mtime, id);
    SharedPinDropped(s, owner, p.hash, published, C.Unlink(published, path));
  }

  lemma SharedPinDropped(s: State, owner: int, h: Hash, published: C.Db, dead: C.Db)
    requires 0 !in s.calls && 1 !in s.calls && h !in Pinned(s.pins) && !Live(s.db, h)
    requires Live(published, h) && h in dead.chunks && dead.chunks[h].refs <= 0
    ensures var s3 := Overlapped(s, owner, h, published);
            && (owner, h) in s3.held && h !in Pinned(s3.pins) && h !in C.Collect(dead, Pinned(s3.pins)).chunks
  {
  }

  lemma PublishThenUnlink(db: C.Db, p: Placement, path: string, mtime: int, id: nat)
    requires C.Inv(db) && N.Clean(path) && path !in db.names.heads && id !in db.files && !Live(db, p.hash)
    requires C.Publish(db, path, mtime, [p], id).Some?
    ensures var published := C.Publish(db, path, mtime, [p], id).value;
            && Live(published, p.hash)
            && p.hash in C.Unlink(published, path).chunks && C.Unlink(published, path).chunks[p.hash].refs <= 0
  {
    hide C.Publish, N.Clean, C.Inv, Upsert, Shift, C.Cancel;
    var published := C.Publish(db, path, mtime, [p], id).value;
    C.PublishedIsLive(db, path, mtime, [p], id, 0);
    C.PublishedParts(db, path, mtime, [p], id);
    assert published.names.heads[path].body == id && published.files[id] == [p.hash];
    assert C.OldExtents(published, path) == [p.hash];
    assert C.OldExtents(db, path) == [];
    UpAndDown(db.chunks, p);
  }

  lemma UpAndDown(chunks: Chunks, p: Placement)
    requires p.hash !in chunks || chunks[p.hash].refs <= 0
    ensures var down := Shift(Upsert(Shift(chunks, multiset([]), -1), [p]), multiset([p.hash]), -1);
            p.hash in down && down[p.hash].refs <= 0
  {
    var low := Shift(chunks, multiset([]), -1);
    assert [p][1..] == [];
    assert Upsert(low, [p]) == Upsert1(low, p);
    assert multiset([p.hash])[p.hash] == 1;
  }
}
