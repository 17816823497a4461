/**
 Placement generations (meta/placement_epoch.go, meta/disk_epoch.go, meta/disks.go, meta/queries.go,
 meta/relocation_outcome.go). Every row change runs its triggers in the same transaction.
 */
module Epochs {
  import opened Results

  datatype PlogRow = PlogRow(disk: nat, uid: nat, length: nat)

  /** The columns whose change invalidates a captured placement, apart from the length. */
  datatype VlogRow = VlogRow(config: nat, length: nat)

  datatype DiskState = Active | Draining | Detached | Failed

  datatype DiskRow = DiskRow(node: nat, state: DiskState, uid: nat)

  /** A row and its generation. */
  datatype Stamped<T> = Stamped(row: T, epoch: nat)

  datatype Db = Db(
    plogs: map<nat, Stamped<PlogRow>>,
    vlogs: map<nat, Stamped<VlogRow>>,
    shards: map<(nat, nat), nat>,   // (vlog, shard index) -> plog
    disks: map<nat, Stamped<DiskRow>>,
    nodes: map<nat, bool>,          // working?
    clock: nat,
    nextPlog: nat,                  // AUTOINCREMENT: ids below were used and never come back
    nextVlog: nat)

  datatype Event =
    | PutShard(vlog: nat, shard: nat, plog: nat)
    | CutShard(vlog: nat, shard: nat)
    | NewPlog(id: nat, plogRow: PlogRow)
    | SetPlog(id: nat, plogRow: PlogRow)
    | CutPlog(id: nat)
    | NewVlog(id: nat, vlogRow: VlogRow)
    | SetVlog(id: nat, vlogRow: VlogRow)
    | CutVlog(id: nat)
    | Lease(vlog: nat)
    | NewDisk(id: nat, diskRow: DiskRow)
    | SetDisk(id: nat, diskRow: DiskRow)
    | CutDisk(id: nat)
    | SetNode(id: nat, working: bool)
    | CutNode(id: nat)

  /* ---- triggers ---- */

  function Bump<T>(rows: map<nat, Stamped<T>>, ids: set<nat>): map<nat, Stamped<T>> {
    map i | i in rows :: if i in ids then Stamped(rows[i].row, rows[i].epoch + 1) else rows[i]
  }

  /** The vlogs that map one of these plogs. */
  function Mapping(shards: map<(nat, nat), nat>, ps: set<nat>): set<nat> {
    set k | k in shards && shards[k] in ps :: k.0
  }

  function PlogsOn(plogs: map<nat, Stamped<PlogRow>>, ds: set<nat>): set<nat> {
    set p | p in plogs && plogs[p].row.disk in ds
  }

  function DisksOf(disks: map<nat, Stamped<DiskRow>>, node: nat): set<nat> {
    set d | d in disks && disks[d].row.node == node
  }

  /** Plogs on these disks, and the vlogs that map them, move on. */
  function TouchDisks(db: Db, ds: set<nat>): Db {
    var ps := PlogsOn(db.plogs, ds);
    db.(plogs := Bump(db.plogs, ps), vlogs := Bump(db.vlogs, Mapping(db.shards, ps)))
  }

  /** The clock advances and is copied into these disks. */
  function Stamp(db: Db, ds: set<nat>): Db {
    db.(clock := db.clock + 1,
    disks := map d | d in db.disks :: if d in ds then Stamped(db.disks[d].row, db.clock + 1) else db.disks[d])
  }

  ghost predicate Enabled(db: Db, e: Event) {
    match e
    case CutShard(v, i) => (v, i) in db.shards
    case NewPlog(id, _) => id >= db.nextPlog
    case SetPlog(id, _) => id in db.plogs
    case CutPlog(id) => id in db.plogs
    case NewVlog(id, _) => id >= db.nextVlog
    case SetVlog(id, _) => id in db.vlogs
    case CutVlog(id) => id in db.vlogs
    case NewDisk(id, _) => id !in db.disks
    case SetDisk(id, _) => id in db.disks
    case CutDisk(id) => id in db.disks
    case CutNode(id) => id in db.nodes
    case _ => true
  }

  function CutDiskRow(db: Db, id: nat): Db {
    var t := TouchDisks(db, {id});
    t.(disks := t.disks - {id})
  }

  function Step(db: Db, e: Event): Db
    requires (e.SetPlog? ==> e.id in db.plogs) && (e.SetVlog? ==> e.id in db.vlogs) && (e.CutShard? ==> (e.vlog, e.shard) in db.shards)
    requires e.SetDisk? ==> e.id in db.disks
  {
    match e
    case PutShard(v, i, p) =>
      var touched := if (v, i) in db.shards then {p, db.shards[(v, i)]} else {p};
      db.(shards := db.shards[(v, i) := p], plogs := Bump(db.plogs, touched), vlogs := Bump(db.vlogs, {v}))
    case CutShard(v, i) =>
      db.(shards := db.shards - {(v, i)}, plogs := Bump(db.plogs, {db.shards[(v, i)]}), vlogs := Bump(db.vlogs, {v}))
    case NewPlog(id, row) =>
      db.(plogs := db.plogs[id := Stamped(row, 1)], vlogs := Bump(db.vlogs, Mapping(db.shards, {id})), nextPlog := id + 1)
    case SetPlog(id, row) =>
      db.(plogs := db.plogs[id := Stamped(row, db.plogs[id].epoch + 1)], vlogs := Bump(db.vlogs, Mapping(db.shards, {id})))
    case CutPlog(id) =>
      db.(plogs := db.plogs - {id}, vlogs := Bump(db.vlogs, Mapping(db.shards, {id})))
    case NewVlog(id, row) => db.(vlogs := db.vlogs[id := Stamped(row, 1)], nextVlog := id + 1)
    case SetVlog(id, row) => db.(vlogs := db.vlogs[id := Stamped(row, db.vlogs[id].epoch + 1)])
    case CutVlog(id) =>
      var gone := set k | k in db.shards && k.0 == id;
      var ps := set k | k in gone :: db.shards[k];
      db.(vlogs := db.vlogs - {id}, shards := db.shards - gone, plogs := Bump(db.plogs, ps))
    case Lease(v) => db.(vlogs := Bump(db.vlogs, {v}))
    case NewDisk(id, row) => TouchDisks(Stamp(db.(disks := db.disks[id := Stamped(row, 1)]), {id}), {id})
    case SetDisk(id, row) => TouchDisks(Stamp(db.(disks := db.disks[id := Stamped(row, db.disks[id].epoch)]), {id}), {id})
    case CutDisk(id) => CutDiskRow(db, id)
    case SetNode(id, working) =>
      var ds := DisksOf(db.disks, id);
      TouchDisks(Stamp(db.(nodes := db.nodes[id := working]), ds), ds)
    case CutNode(id) =>
      var ds := DisksOf(db.disks, id);
      var t := TouchDisks(Stamp(db, ds), ds);
      t.(nodes := t.nodes - {id}, disks := t.disks - ds)
  }

  /* ---- what a token stands for ---- */

  ghost predicate SameNode(s: Db, t: Db, n: nat) {
    (n in s.nodes <==> n in t.nodes) && (n in s.nodes ==> s.nodes[n] == t.nodes[n])
  }

  ghost predicate SameDisk(s: Db, t: Db, d: nat) {
    (d in s.disks <==> d in t.disks) && (d in s.disks ==> s.disks[d].row == t.disks[d].row && SameNode(s, t, s.disks[d].row.node))
  }

  /** The plog's row, its disk and its node. */
  ghost predicate SameChain(s: Db, t: Db, p: nat) {
    (p in s.plogs <==> p in t.plogs) && (p in s.plogs ==> s.plogs[p].row == t.plogs[p].row && SameDisk(s, t, s.plogs[p].row.disk))
  }

  predicate Maps(db: Db, k: (nat, nat), p: nat) {
    k in db.shards && db.shards[k] == p
  }

  /** ... and who maps it. */
  ghost predicate SamePlog(s: Db, t: Db, p: nat) {
    SameChain(s, t, p) && forall k :: Maps(s, k, p) <==> Maps(t, k, p)
  }

  ghost predicate SameShard(s: Db, t: Db, k: (nat, nat)) {
    (k in s.shards <==> k in t.shards) && (k in s.shards ==> s.shards[k] == t.shards[k] && SameChain(s, t, s.shards[k]))
  }

  /** The vlog's row and everything behind its shards. */
  ghost predicate SameVlog(s: Db, t: Db, v: nat) {
    && v in s.vlogs && v in t.vlogs && s.vlogs[v].row == t.vlogs[v].row
    && forall i: nat :: SameShard(s, t, (v, i))
  }

  /** Ids in use were handed out, and no disk is stamped ahead of the clock. */
  ghost predicate Inv(db: Db) {
    && (forall p :: p in db.plogs ==> p < db.nextPlog) && (forall v :: v in db.vlogs ==> v < db.nextVlog)
    && (forall d :: d in db.disks ==> db.disks[d].epoch <= db.clock) && db.clock > 0
  }

  lemma StepInv(db: Db, e: Event)
    requires Inv(db) && Enabled(db, e)
    ensures Inv(Step(db, e)) && db.clock <= Step(db, e).clock && db.nextPlog <= Step(db, e).nextPlog && db.nextVlog <= Step(db, e).nextVlog
  {
    hide Mapping, PlogsOn, DisksOf;
  }

  /* ---- every change of what a token stands for moves its generation on ---- */

  lemma Mapped(shards: map<(nat, nat), nat>, k: (nat, nat), ps: set<nat>)
    requires k in shards && shards[k] in ps
    ensures k.0 in Mapping(shards, ps)
  {
  }

  ghost predicate VlogStep(s: Db, t: Db, v: nat) {
    v in s.vlogs && v in t.vlogs ==> s.vlogs[v].epoch <= t.vlogs[v].epoch && (s.vlogs[v].epoch == t.vlogs[v].epoch ==> SameVlog(s, t, v))
  }

  lemma VlogShardEvent(s: Db, e: Event, v: nat)
    requires Inv(s) && Enabled(s, e) && (e.PutShard? || e.CutShard? || e.NewVlog? || e.SetVlog? || e.CutVlog? || e.Lease?)
    ensures VlogStep(s, Step(s, e), v)
  {
    hide Mapping;
  }

  lemma VlogPlogEvent(s: Db, e: Event, v: nat)
    requires Inv(s) && Enabled(s, e) && (e.NewPlog? || e.SetPlog? || e.CutPlog?)
    ensures VlogStep(s, Step(s, e), v)
  {
    forall k | k in s.shards && s.shards[k] == e.id ensures k.0 in Mapping(s.shards, {e.id}) {
      Mapped(s.shards, k, {e.id});
    }
    hide Mapping;
  }

  /** A change to disks or their nodes: whoever does not see it has a new generation. */
  lemma VlogTouch(s: Db, changed: Db, ds: set<nat>, v: nat)
    requires changed.plogs == s.plogs && changed.vlogs == s.vlogs && changed.shards == s.shards
    requires forall d :: d !in ds ==> SameDisk(s, changed, d)
    ensures VlogStep(s, TouchDisks(changed, ds), v)
  {
  }

  lemma VlogDiskEvent(s: Db, e: Event, v: nat)
    requires Inv(s) && Enabled(s, e) && (e.NewDisk? || e.SetDisk? || e.CutDisk? || e.SetNode? || e.CutNode?)
    ensures VlogStep(s, Step(s, e), v)
  {
    hide Mapping, PlogsOn, VlogStep;
    match e {
      case NewDisk(id, row) => VlogTouch(s, Stamp(s.(disks := s.disks[id := Stamped(row, 1)]), {id}), {id}, v);
      case SetDisk(id, row) => VlogTouch(s, Stamp(s.(disks := s.disks[id := Stamped(row, s.disks[id].epoch)]), {id}), {id}, v);
      case CutDisk(id) => VlogTouch(s, s.(disks := s.disks - {id}), {id}, v);
      case SetNode(id, working) =>
        var ds := DisksOf(s.disks, id);
        VlogTouch(s, Stamp(s.(nodes := s.nodes[id := working]), ds), ds, v);
      case CutNode(id) =>
        var ds := DisksOf(s.disks, id);
        var c := Stamp(s, ds);
        VlogTouch(s, c.(nodes := c.nodes - {id}, disks := c.disks - ds), ds, v);
    }
  }

  lemma VlogFence(s: Db, e: Event, v: nat)
    requires Inv(s) && Enabled(s, e)
    ensures VlogStep(s, Step(s, e), v)
  {
    hide VlogStep, Step, Inv;
    match e {
      case NewPlog(_, _) => VlogPlogEvent(s, e, v);
      case SetPlog(_, _) => VlogPlogEvent(s, e, v);
      case CutPlog(_) => VlogPlogEvent(s, e, v);
      case NewDisk(_, _) => VlogDiskEvent(s, e, v);
      case SetDisk(_, _) => VlogDiskEvent(s, e, v);
      case CutDisk(_) => VlogDiskEvent(s, e, v);
      case SetNode(_, _) => VlogDiskEvent(s, e, v);
      case CutNode(_) => VlogDiskEvent(s, e, v);
      case _ => VlogShardEvent(s, e, v);
    }
  }

  ghost predicate PlogStep(s: Db, t: Db, p: nat) {
    p in s.plogs && p in t.plogs ==> s.plogs[p].epoch <= t.plogs[p].epoch && (s.plogs[p].epoch == t.plogs[p].epoch ==> SamePlog(s, t, p))
  }

  lemma PlogTouch(s: Db, changed: Db, ds: set<nat>, p: nat)
    requires changed.plogs == s.plogs && changed.vlogs == s.vlogs && changed.shards == s.shards
    requires forall d :: d !in ds ==> SameDisk(s, changed, d)
    ensures PlogStep(s, TouchDisks(changed, ds), p)
  {
  }

  lemma PlogDiskEvent(s: Db, e: Event, p: nat)
    requires Inv(s) && Enabled(s, e) && (e.NewDisk? || e.SetDisk? || e.CutDisk? || e.SetNode? || e.CutNode?)
    ensures PlogStep(s, Step(s, e), p)
  {
    hide Mapping, PlogsOn, PlogStep;
    match e {
      case NewDisk(id, row) => PlogTouch(s, Stamp(s.(disks := s.disks[id := Stamped(row, 1)]), {id}), {id}, p);
      case SetDisk(id, row) => PlogTouch(s, Stamp(s.(disks := s.disks[id := Stamped(row, s.disks[id].epoch)]), {id}), {id}, p);
      case CutDisk(id) => PlogTouch(s, s.(disks := s.disks - {id}), {id}, p);
      case SetNode(id, working) =>
        var ds := DisksOf(s.disks, id);
        PlogTouch(s, Stamp(s.(nodes := s.nodes[id := working]), ds), ds, p);
      case CutNode(id) =>
        var ds := DisksOf(s.disks, id);
        var c := Stamp(s, ds);
        PlogTouch(s, c.(nodes := c.nodes - {id}, disks := c.disks - ds), ds, p);
    }
  }

  lemma PlogFence(s: Db, e: Event, p: nat)
    requires Inv(s) && Enabled(s, e)
    ensures PlogStep(s, Step(s, e), p)
  {
    hide Mapping, PlogsOn, TouchDisks, Stamp;
    if e.NewDisk? || e.SetDisk? || e.CutDisk? || e.SetNode? || e.CutNode? {
      PlogDiskEvent(s, e, p);
    } else {
      PlogRowEvent(s, e, p);
    }
  }

  lemma PlogRowEvent(s: Db, e: Event, p: nat)
    requires Inv(s) && Enabled(s, e) && !(e.NewDisk? || e.SetDisk? || e.CutDisk? || e.SetNode? || e.CutNode?)
    ensures PlogStep(s, Step(s, e), p)
  {
    hide Mapping, PlogsOn, TouchDisks, Stamp;
  }

  /** Disk ids come back. What tells a returned disk from the captured one is the clock. */
  ghost predicate Past(t: Db, d: nat, epoch: nat) {
    d in t.disks ==> t.disks[d].epoch > epoch
  }

  lemma DiskFence(s: Db, e: Event, d: nat, epoch: nat)
    requires Inv(s) && Enabled(s, e) && epoch <= s.clock
    ensures Past(s, d, epoch) ==> Past(Step(s, e), d, epoch)
    ensures d in s.disks && s.disks[d].epoch == epoch && !Past(Step(s, e), d, epoch) ==>
              d in Step(s, e).disks && Step(s, e).disks[d].epoch == epoch && SameDisk(s, Step(s, e), d)
  {
    hide Mapping, PlogsOn;
  }

  /* ---- whole runs ---- */

  ghost predicate Run(s: Db, es: seq<Event>, t: Db)
    decreases |es|
  {
    if es == [] then s == t else Enabled(s, es[0]) && Run(Step(s, es[0]), es[1..], t)
  }

  lemma SameChainTrans(a: Db, b: Db, c: Db, p: nat)
    requires SameChain(a, b, p) && SameChain(b, c, p)
    ensures SameChain(a, c, p)
  {
  }

  lemma SameVlogTrans(a: Db, b: Db, c: Db, v: nat)
    requires SameVlog(a, b, v) && SameVlog(b, c, v)
    ensures SameVlog(a, c, v)
  {
  }

  /** Ids that were handed out and deleted do not come back. */
  lemma GoneStep(s: Db, e: Event)
    requires Enabled(s, e)
    ensures forall v :: v in Step(s, e).vlogs && v < s.nextVlog ==> v in s.vlogs
    ensures forall p :: p in Step(s, e).plogs && p < s.nextPlog ==> p in s.plogs
  {
  }

  lemma {:induction false} VlogGone(s: Db, es: seq<Event>, t: Db, v: nat)
    requires Inv(s) && Run(s, es, t) && v !in s.vlogs && v < s.nextVlog
    ensures v !in t.vlogs
    decreases |es|
  {
    hide Step;
    if es != [] {
      StepInv(s, es[0]);
      GoneStep(s, es[0]);
      VlogGone(Step(s, es[0]), es[1..], t, v);
    }
  }

  lemma {:induction false} PlogGone(s: Db, es: seq<Event>, t: Db, p: nat)
    requires Inv(s) && Run(s, es, t) && p !in s.plogs && p < s.nextPlog
    ensures p !in t.plogs
    decreases |es|
  {
    hide Step;
    if es != [] {
      StepInv(s, es[0]);
      GoneStep(s, es[0]);
      PlogGone(Step(s, es[0]), es[1..], t, p);
    }
  }

  /** A vlog generation never goes back, and while it stands still so does everything it stands for. */
  lemma {:induction false} VlogRun(s: Db, es: seq<Event>, t: Db, v: nat)
    requires Inv(s) && Run(s, es, t) && v in s.vlogs && v in t.vlogs
    ensures s.vlogs[v].epoch <= t.vlogs[v].epoch && (s.vlogs[v].epoch == t.vlogs[v].epoch ==> SameVlog(s, t, v))
    decreases |es|
  {
    hide Step, SameVlog, SameShard;
    if es == [] {
      assert SameVlog(s, s, v) by { SelfVlog(s, v); }
    } else {
      var m := Step(s, es[0]);
      StepInv(s, es[0]);
      VlogFence(s, es[0], v);
      if v !in m.vlogs {
        VlogGone(m, es[1..], t, v);
        assert false;
      }
      VlogRun(m, es[1..], t, v);
      if s.vlogs[v].epoch == t.vlogs[v].epoch {
        SameVlogTrans(s, m, t, v);
      }
    }
  }

  lemma SelfVlog(s: Db, v: nat)
    requires v in s.vlogs
    ensures SameVlog(s, s, v)
  {
  }

  /** So does a plog generation. */
  lemma {:induction false} PlogRun(s: Db, es: seq<Event>, t: Db, p: nat)
    requires Inv(s) && Run(s, es, t) && p in s.plogs && p in t.plogs
    ensures s.plogs[p].epoch <= t.plogs[p].epoch && (s.plogs[p].epoch == t.plogs[p].epoch ==> SamePlog(s, t, p))
    decreases |es|
  {
    hide Step, SameChain;
    if es == [] {
      assert SameChain(s, s, p) by { SelfChain(s, p); }
    } else {
      var m := Step(s, es[0]);
      StepInv(s, es[0]);
      PlogFence(s, es[0], p);
      if p !in m.plogs {
        PlogGone(m, es[1..], t, p);
        assert false;
      }
      PlogRun(m, es[1..], t, p);
      if s.plogs[p].epoch == t.plogs[p].epoch {
        SameChainTrans(s, m, t, p);
      }
    }
  }

  lemma SelfChain(s: Db, p: nat)
    ensures SameChain(s, s, p)
  {
  }

  lemma {:induction false} PastRun(s: Db, es: seq<Event>, t: Db, d: nat, epoch: nat)
    requires Inv(s) && Run(s, es, t) && epoch <= s.clock && Past(s, d, epoch)
    ensures Past(t, d, epoch)
    decreases |es|
  {
    hide Step;
    if es != [] {
      StepInv(s, es[0]);
      DiskFence(s, es[0], d, epoch);
      PastRun(Step(s, es[0]), es[1..], t, d, epoch);
    }
  }

  /** A disk that carries the captured stamp is the captured disk, unchanged, even though ids can be deleted and
      inserted again in between. */
  lemma {:induction false} DiskRun(s: Db, es: seq<Event>, t: Db, d: nat)
    requires Inv(s) && Run(s, es, t) && d in s.disks
    ensures Past(t, d, s.disks[d].epoch) || (d in t.disks && t.disks[d].epoch == s.disks[d].epoch && SameDisk(s, t, d))
    decreases |es|
  {
    hide Step;
    if es != [] {
      var m, epoch := Step(s, es[0]), s.disks[d].epoch;
      StepInv(s, es[0]);
      DiskFence(s, es[0], d, epoch);
      if Past(m, d, epoch) {
        PastRun(m, es[1..], t, d, epoch);
      } else {
        DiskRun(m, es[1..], t, d);
      }
    }
  }

  lemma {:induction false} RunInv(s: Db, es: seq<Event>, t: Db)
    requires Inv(s) && Run(s, es, t)
    ensures Inv(t) && s.clock <= t.clock && s.nextPlog <= t.nextPlog && s.nextVlog <= t.nextVlog
    decreases |es|
  {
    hide Step, Inv;
    if es != [] {
      StepInv(s, es[0]);
      RunInv(Step(s, es[0]), es[1..], t);
    }
  }

  /** A generation that is the same at both ends of a run was the same all the way. */
  lemma VlogThroughout(s: Db, es: seq<Event>, m: Db, fs: seq<Event>, t: Db, v: nat)
    requires Inv(s) && Run(s, es, m) && Run(m, fs, t) && v in s.vlogs && v in t.vlogs && s.vlogs[v].epoch == t.vlogs[v].epoch
    ensures SameVlog(s, m, v) && SameVlog(m, t, v)
  {
    hide Step, Run, SameVlog;
    RunInv(s, es, m);
    if v !in m.vlogs {
      VlogGone(m, fs, t, v);
      assert false;
    }
    VlogRun(s, es, m, v);
    VlogRun(m, fs, t, v);
  }

  lemma PlogThroughout(s: Db, es: seq<Event>, m: Db, fs: seq<Event>, t: Db, p: nat)
    requires Inv(s) && Run(s, es, m) && Run(m, fs, t) && p in s.plogs && p in t.plogs && s.plogs[p].epoch == t.plogs[p].epoch
    ensures SamePlog(s, m, p) && SamePlog(m, t, p)
  {
    hide Step, Run, SamePlog;
    RunInv(s, es, m);
    if p !in m.plogs {
      PlogGone(m, fs, t, p);
      assert false;
    }
    PlogRun(s, es, m, p);
    PlogRun(m, fs, t, p);
  }

  lemma DiskThroughout(s: Db, es: seq<Event>, m: Db, fs: seq<Event>, t: Db, d: nat)
    requires Inv(s) && Run(s, es, m) && Run(m, fs, t) && d in s.disks && d in t.disks && s.disks[d].epoch == t.disks[d].epoch
    ensures SameDisk(s, m, d) && SameDisk(m, t, d)
  {
    hide Step, Run, SameDisk;
    RunInv(s, es, m);
    DiskRun(s, es, m, d);
    if Past(m, d, s.disks[d].epoch) {
      PastRun(m, fs, t, d, s.disks[d].epoch);
      assert false;
    }
    DiskRun(m, fs, t, d);
  }

  /* ---- guarded placement changes ---- */

  datatype Generations = Generations(plog: nat, vlog: nat)

  /** The plog has exactly one owner, and it is this vlog. */
  predicate SoleOwner(db: Db, p: nat, v: nat) {
    (exists k :: k in db.shards && db.shards[k] == p && k.0 == v)
    && forall j, k :: j in db.shards && k in db.shards && db.shards[j] == p && db.shards[k] == p ==> j == k
  }

  /** CapturePlogRelocation. */
  function Capture(db: Db, p: nat, v: nat, disk: nat): Option<Generations> {
    if p in db.plogs && v in db.vlogs && db.plogs[p].row.disk == disk && SoleOwner(db, p, v)
    then Some(Generations(db.plogs[p].epoch, db.vlogs[v].epoch)) else None
  }

  predicate Usable(db: Db, d: nat, states: set<DiskState>) {
    d in db.disks && db.disks[d].row.state in states && db.disks[d].row.node in db.nodes && db.nodes[db.disks[d].row.node]
  }

  /** Another shard of an owner of `p` already lies on the disk. */
  predicate PeerOn(db: Db, p: nat, disk: nat) {
    exists j, k :: j in db.shards && k in db.shards && db.shards[j] == p && k.0 == j.0 && db.shards[k] != p
                   && db.shards[k] in db.plogs && db.plogs[db.shards[k]].row.disk == disk
  }

  /** MovePlogToDisk: one guarded update, with the generations read back after its triggers. */
  function Move(db: Db, p: nat, v: nat, old': nat, new': nat, expected: Generations, stamp: nat): Option<(Db, Generations)> {
    if p == 0 || old' == 0 || new' == 0 || old' == new' then None
    else if !(p in db.plogs && db.plogs[p].row.disk == old' && db.plogs[p].epoch == expected.plog) then None
    else if !(v in db.vlogs && db.vlogs[v].epoch == expected.vlog && SoleOwner(db, p, v)) then None
    else if !(Usable(db, new', {Active, Draining}) && db.disks[new'].epoch == stamp) || PeerOn(db, p, new') then None
    else
      var t := Step(db, SetPlog(p, db.plogs[p].row.(disk := new')));
      Some((t, Generations(t.plogs[p].epoch, t.vlogs[v].epoch)))
  }

  /** Epoch fencing of a relocation: if tokens were captured in `s`, anything at all ran, and the move succeeds in `t`,
      then in every state `m` in between, and so at no time, had anything changed that the tokens stand for: not the
      plog, its disk, node or owner, not the vlog or anything behind its other shards, not the destination. */
  lemma MoveIsFenced(s: Db, es: seq<Event>, m: Db, fs: seq<Event>, t: Db, p: nat, v: nat, old': nat, new': nat)
    requires Inv(s) && Run(s, es, m) && Run(m, fs, t) && Capture(s, p, v, old').Some? && new' in s.disks
    requires Move(t, p, v, old', new', Capture(s, p, v, old').value, s.disks[new'].epoch).Some?
    ensures SamePlog(s, m, p) && SameVlog(s, m, v) && SameDisk(s, m, new')
    ensures SamePlog(m, t, p) && SameVlog(m, t, v) && SameDisk(m, t, new')
  {
    hide Step, Run, SamePlog, SameVlog, SameDisk, SoleOwner, PeerOn;
    PlogThroughout(s, es, m, fs, t, p);
    VlogThroughout(s, es, m, fs, t, v);
    DiskThroughout(s, es, m, fs, t, new');
  }

  /** No two shards of the vlog lie on one disk. */
  ghost predicate Apart(db: Db, v: nat) {
    forall i: nat, j: nat :: i != j && (v, i) in db.shards && (v, j) in db.shards ==> Separate(db, db.shards[(v, i)], db.shards[(v, j)])
  }

  ghost predicate Separate(db: Db, p: nat, q: nat) {
    p != q && (p in db.plogs && q in db.plogs ==> db.plogs[p].row.disk != db.plogs[q].row.disk)
  }

  /** A move keeps every vlog's shards on separate disks. */
  lemma MoveKeepsApart(db: Db, p: nat, v: nat, old': nat, new': nat, expected: Generations, stamp: nat, w: nat)
    requires Move(db, p, v, old', new', expected, stamp).Some? && Apart(db, w)
    ensures Apart(Move(db, p, v, old', new', expected, stamp).value.0, w)
  {
    hide Mapping;
    var t := Move(db, p, v, old', new', expected, stamp).value.0;
    forall i: nat, j: nat | i != j && (w, i) in t.shards && (w, j) in t.shards ensures Separate(t, t.shards[(w, i)], t.shards[(w, j)]) {
      assert Separate(db, db.shards[(w, i)], db.shards[(w, j)]);
    }
  }

  /** RepairDestinationEpoch. */
  function CaptureRepair(db: Db, p: nat): Option<nat> {
    if p in db.plogs && Usable(db, db.plogs[p].row.disk, {Active}) && forall k :: k in db.shards ==> db.shards[k] != p
    then Some(db.plogs[p].epoch) else None
  }

  /** Another shard of the vlog lies on the same disk as `p`. */
  predicate Crowds(db: Db, v: nat, shard: nat, p: nat)
    requires p in db.plogs
  {
    exists k :: k in db.shards && k.0 == v && k.1 != shard && db.shards[k] in db.plogs
                && db.plogs[db.shards[k]].row.disk == db.plogs[p].row.disk
  }

  /** ReplaceShardPlog: the shard is repointed and the lost plog's row dropped. */
  function Replace(db: Db, v: nat, shard: nat, lost: nat, fresh': nat, vlogEpoch: nat, plogEpoch: nat): Option<Db> {
    if lost == 0 || fresh' == 0 || lost == fresh' then None
    else if !((v, shard) in db.shards && db.shards[(v, shard)] == lost && v in db.vlogs && db.vlogs[v].epoch == vlogEpoch) then None
    else if exists k :: k in db.shards && db.shards[k] == lost && k != (v, shard) then None
    else if !(fresh' in db.plogs && db.plogs[fresh'].epoch == plogEpoch && Usable(db, db.plogs[fresh'].row.disk, {Active})) then None
    else if (exists k :: k in db.shards && db.shards[k] == fresh') || Crowds(db, v, shard, fresh') then None
    else
      var t := Step(db, PutShard(v, shard, fresh'));
      Some(if lost in t.plogs then Step(t, CutPlog(lost)) else t)
  }

  /** Epoch fencing of a shard replacement. */
  lemma ReplaceIsFenced(s: Db, es: seq<Event>, m: Db, fs: seq<Event>, t: Db, v: nat, shard: nat, lost: nat, fresh': nat)
    requires Inv(s) && Run(s, es, m) && Run(m, fs, t) && v in s.vlogs && CaptureRepair(s, fresh').Some?
    requires Replace(t, v, shard, lost, fresh', s.vlogs[v].epoch, CaptureRepair(s, fresh').value).Some?
    ensures SameVlog(s, m, v) && SamePlog(s, m, fresh') && SameVlog(m, t, v) && SamePlog(m, t, fresh')
  {
    hide Step, Run, SamePlog, SameVlog, Crowds;
    VlogThroughout(s, es, m, fs, t, v);
    PlogThroughout(s, es, m, fs, t, fresh');
  }

  lemma ReplaceKeepsApart(db: Db, v: nat, shard: nat, lost: nat, fresh': nat, vlogEpoch: nat, plogEpoch: nat, w: nat)
    requires Replace(db, v, shard, lost, fresh', vlogEpoch, plogEpoch).Some? && Apart(db, w)
    ensures Apart(Replace(db, v, shard, lost, fresh', vlogEpoch, plogEpoch).value, w)
    ensures Replace(db, v, shard, lost, fresh', vlogEpoch, plogEpoch).value.shards == db.shards[(v, shard) := fresh']
  {
    hide Mapping;
    var t := Replace(db, v, shard, lost, fresh', vlogEpoch, plogEpoch).value;
    forall i: nat, j: nat | i != j && (w, i) in t.shards && (w, j) in t.shards ensures Separate(t, t.shards[(w, i)], t.shards[(w, j)]) {
      if (w, i) != (v, shard) && (w, j) != (v, shard) {
        assert Separate(db, db.shards[(w, i)], db.shards[(w, j)]);
      }
    }
  }

  /* ---- an uncertain commit ---- */

  /** ResolvePlogRelocation. */
  function Resolve(db: Db, p: nat, v: nat, source: nat, destination: nat, before: Generations, after: Generations): Option<nat> {
    if !(p in db.plogs && v in db.vlogs && SoleOwner(db, p, v)) then None
    else
      var disk, now := db.plogs[p].row.disk, Generations(db.plogs[p].epoch, db.vlogs[v].epoch);
      if (disk == source && now == before) || (disk == destination && now == after) then Some(disk) else None
  }

  /** Later, whatever ran: "source" means the move did not take and nothing it stands for has changed since it was
      captured; after a move that took, "destination" means nothing has changed since. */
  lemma ResolveIsFenced(s: Db, es: seq<Event>, t: Db, p: nat, v: nat, source: nat, destination: nat, before: Generations, after: Generations)
    requires Inv(s) && Run(s, es, t) && source != destination && p in s.plogs && v in s.vlogs
    ensures before == Generations(s.plogs[p].epoch, s.vlogs[v].epoch) && Resolve(t, p, v, source, destination, before, after) == Some(source) ==>
              SamePlog(s, t, p) && SameVlog(s, t, v)
    ensures after == Generations(s.plogs[p].epoch, s.vlogs[v].epoch) && Resolve(t, p, v, source, destination, before, after) == Some(destination) ==>
              SamePlog(s, t, p) && SameVlog(s, t, v)
    ensures before.plog < s.plogs[p].epoch ==> Resolve(t, p, v, source, destination, before, after) != Some(source)
  {
    hide Step, SamePlog, SameVlog, SoleOwner;
    if p in t.plogs && v in t.vlogs {
      PlogRun(s, es, t, p);
      VlogRun(s, es, t, v);
    }
  }
}
