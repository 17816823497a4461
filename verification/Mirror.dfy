/**
 Mirrored virtual logs (storage/vlog.go): quorum appends over replicas that only ever grow, with
 fan-out goroutines that outlive the append that started them. One step is what happens between two
 points at which other goroutines can run.
 */
module Mirror {
  import opened Bytes
  import opened Results

  /** EnsureAppend (storage/plog.go) as a replica performs it: what is there must match, the rest is appended. */
  function Ensure(stream: Bytes, at: nat, data: Bytes): (r: Option<Bytes>)
    ensures r.Some? ==> stream <= r.value && at + |data| <= |r.value| && r.value[at..at + |data|] == data
  {
    if at > |stream| then None
    else if |stream| - at >= |data| then if stream[at..at + |data|] == data then Some(stream) else None
    else if stream[at..] == data[..|stream| - at] then
      assert (stream + data[|stream| - at..])[at..] == data;
      Some(stream + data[|stream| - at..])
    else None
  }

  /** One goroutine of a fan-out: what it still has to append on its replica. A client that cannot place
      bytes (`blind`) appends them wherever the replica ends and complains afterwards. */
  datatype Task = Task(op: nat, replica: nat, at: nat, parts: seq<Bytes>, blind: bool)

  /** What a goroutine reported on the fan-out's channel. */
  datatype Report = Report(op: nat, replica: nat, ok: bool)

  /** The collecting side of a fan-out. */
  datatype Tally = Tally(eligible: set<nat>, succeeded: set<nat>, failed: set<nat>)

  /** What the holder of the write lock is doing. */
  datatype Phase =
    | Idle
    | Appending(data: Bytes, tally: Tally)
    | Advancing(data: Bytes)  // quorum recorded, length not yet
    | Committing(tally: Tally)

  /** A read in flight: its range, and the replicas it may ask once it has looked them up. */
  datatype Reader = Reader(from: nat, to: nat, eligible: Option<set<nat>>)

  /** The backing logs. An offline replica has no live file and answers nothing. */
  datatype Fleet = Fleet(streams: seq<Bytes>, offline: set<nat>) {
    predicate Online(r: nat) { r < |streams| && r !in offline }

    function Grow(r: nat, next: Bytes): Fleet
      requires r < |streams|
    {
      Fleet(streams[r := next], offline)
    }
  }

  datatype State = State(
    quorum: nat,
    fleet: Fleet,
    durable: seq<Bytes>,
    acked: nat,
    log: Bytes,
    complete: set<nat>,
    op: nat,
    phase: Phase,
    tasks: set<Task>,
    reports: set<Report>,
    syncing: set<nat>,  // replicas on which some commit's goroutine may still be running
    readers: set<Reader>)

  datatype Event =
    | Begin(parts: seq<Bytes>, blind: bool)
    | Land(task: Task)
    | Fail(task: Task, landed: bool)
    | Collect(report: Report)
    | Advance
    | BeginCommit
    | CommitOn(replica: nat, durable: bool, reported: bool)
    | CommitLate(replica: nat)
    | ReadStart(from: nat, to: nat)
    | ReadLookup(reader: Reader)
    | ReadDone(reader: Reader)

  function Ids(n: nat): (ids: set<nat>)
    ensures |ids| == n && forall i: nat :: i in ids <==> i < n
  {
    if n == 0 then {} else Ids(n - 1) + {n - 1}
  }

  /** Begin: one task per eligible replica. Fewer eligible replicas than the quorum is refused outright. */
  function StepBegin(s: State, parts: seq<Bytes>, blind: bool): State
    requires s.phase.Idle?
  {
    if Flatten(parts) == [] || |s.complete| < s.quorum then s
    else
      s.(op := s.op + 1,
      phase := Appending(Flatten(parts), Tally(s.complete, {}, {})),
      tasks := s.tasks + Launched(s.complete, s.op + 1, |s.log|, parts, blind))
  }

  function Launched(who: set<nat>, op: nat, at: nat, parts: seq<Bytes>, blind: bool): set<Task> {
    set r | r in who :: Task(op, r, at, parts, blind)
  }

  /** What the replica's stream becomes, and whether the client is content. */
  function Placed(stream: Bytes, t: Task): (r: (Bytes, bool))
    requires t.parts != []
    ensures stream <= r.0
  {
    if t.blind then (stream + t.parts[0], t.at == |stream|)
    else
      var e := Ensure(stream, t.at, t.parts[0]);
      if e.Some? then (e.value, true) else (stream, false)
  }

  function Next(t: Task): Task
    requires t.parts != []
  {
    t.(at := t.at + |t.parts[0]|, parts := t.parts[1..])
  }

  function Done(s: State, t: Task, ok: bool): State {
    s.(tasks := s.tasks - {t}, reports := s.reports + {Report(t.op, t.replica, ok)})
  }

  function Landed(s: State, t: Task): State
    requires s.fleet.Online(t.replica) && t.parts != []
  {
    s.(fleet := s.fleet.Grow(t.replica, Placed(s.fleet.streams[t.replica], t).0))
  }

  /** A task places its next part, or reports that it is done. */
  function StepLand(s: State, t: Task): State {
    if !s.fleet.Online(t.replica) then Done(s, t, false)
    else if t.parts == [] then Done(s, t, true)
    else if Placed(s.fleet.streams[t.replica], t).1 then Landed(s, t).(tasks := s.tasks - {t} + {Next(t)})
    else Done(Landed(s, t), t, false)
  }

  /** A task fails for any other reason; its next part may have landed all the same. */
  function StepFail(s: State, t: Task, landed: bool): State {
    if landed && s.fleet.Online(t.replica) && t.parts != [] then Done(Landed(s, t), t, false) else Done(s, t, false)
  }

  /** The appender takes one report off the channel: the quorum-th success publishes the new complete set, and
      too many failures end the append with everything it started still running. */
  function StepCollect(s: State, m: Report): State
    requires s.phase.Appending?
  {
    var p, data := s.phase.tally, s.phase.data;
    var rest := s.(reports := s.reports - {m});
    if m.ok then
      var won := p.succeeded + {m.replica};
      if |won| >= s.quorum then rest.(complete := won, phase := Advancing(data)) else rest.(phase := Appending(data, p.(succeeded := won)))
    else
      var lost := p.failed + {m.replica};
      if |lost| > |p.eligible| - s.quorum then rest.(phase := Idle) else rest.(phase := Appending(data, p.(failed := lost)))
  }

  function StepAdvance(s: State): State
    requires s.phase.Advancing?
  {
    s.(log := s.log + s.phase.data, phase := Idle)
  }

  function StepBeginCommit(s: State): State {
    if |s.complete| < s.quorum then s
    else s.(phase := Committing(Tally(s.complete, {}, {})), syncing := s.syncing + s.complete)
  }

  /** A commit's goroutine that outlives it: the replica becomes durable as it stands, and nobody hears of it. */
  function StepCommitLate(s: State, r: nat): State
    requires r < |s.fleet.streams| == |s.durable|
  {
    if s.fleet.Online(r) then s.(durable := s.durable[r := s.fleet.streams[r]]) else s
  }

  /** A replica commits, or not, and its answer arrives as success or failure. */
  function StepCommitOn(s: State, r: nat, durable: bool, reported: bool): State
    requires s.phase.Committing? && r < |s.fleet.streams| == |s.durable|
  {
    var p := s.phase.tally;
    var kept := if durable && s.fleet.Online(r) then s.(durable := s.durable[r := s.fleet.streams[r]]) else s;
    if durable && s.fleet.Online(r) && reported then
      var won := p.succeeded + {r};
      if |won| >= s.quorum then kept.(phase := Idle, acked := |s.log|) else kept.(phase := Committing(p.(succeeded := won)))
    else
      var lost := p.failed + {r};
      if |lost| > |p.eligible| - s.quorum then kept.(phase := Idle) else kept.(phase := Committing(p.(failed := lost)))
  }

  ghost predicate Enabled(s: State, e: Event) {
    match e
    case Begin(_, _) => s.phase.Idle?
    case Land(t) => t in s.tasks
    case Fail(t, _) => t in s.tasks
    case Collect(m) => s.phase.Appending? && m in s.reports && m.op == s.op
    case Advance => s.phase.Advancing?
    case BeginCommit => s.phase.Idle?
    case CommitOn(r, _, _) => s.phase.Committing? && r in s.phase.tally.eligible && r < |s.fleet.streams| == |s.durable|
    case CommitLate(r) => r in s.syncing && r < |s.fleet.streams| == |s.durable|
    case ReadStart(from, to) => from <= to <= |s.log|
    case ReadLookup(rd) => rd in s.readers
    case ReadDone(rd) => rd in s.readers
  }

  ghost function Step(s: State, e: Event): State
    requires Enabled(s, e)
  {
    match e
    case Begin(parts, blind) => StepBegin(s, parts, blind)
    case Land(t) => StepLand(s, t)
    case Fail(t, landed) => StepFail(s, t, landed)
    case Collect(m) => StepCollect(s, m)
    case Advance => StepAdvance(s)
    case BeginCommit => StepBeginCommit(s)
    case CommitOn(r, durable, reported) => StepCommitOn(s, r, durable, reported)
    case CommitLate(r) => StepCommitLate(s, r)
    case ReadStart(from, to) => s.(readers := s.readers + {Reader(from, to, None)})
    case ReadLookup(rd) => s.(readers := s.readers - {rd} + {rd.(eligible := Some(s.complete))})
    case ReadDone(rd) => s.(readers := s.readers - {rd})
  }

  /** `t` is reached from `s` by this run. */
  ghost predicate Run(s: State, es: seq<Event>, t: State)
    decreases |es|
  {
    if es == [] then s == t else Enabled(s, es[0]) && Run(Step(s, es[0]), es[1..], t)
  }

  /* ---- the invariant ---- */

  /** Every reachable replica of the set starts with `log`. */
  ghost predicate Hold(f: Fleet, who: set<nat>, log: Bytes) {
    forall r :: r in who && f.Online(r) ==> log <= f.streams[r]
  }

  ghost predicate Reachable(f: Fleet, who: set<nat>) {
    forall r :: r in who ==> f.Online(r)
  }

  /** A task of the append in progress has placed some prefix of the data on its replica. */
  ghost predicate OnCourse(f: Fleet, log: Bytes, data: Bytes, complete: set<nat>, t: Task) {
    && t.replica in complete
    && exists done: Bytes :: done + Flatten(t.parts) == data && t.at == |log + done| && Hold(f, {t.replica}, log + done)
  }

  ghost predicate Truthful(f: Fleet, log: Bytes, data: Bytes, complete: set<nat>, m: Report) {
    m.replica in complete && (m.ok ==> f.Online(m.replica) && log + data <= f.streams[m.replica])
  }

  ghost predicate TallyInv(quorum: nat, complete: set<nat>, p: Tally) {
    p.eligible == complete && p.succeeded <= p.eligible && |p.succeeded| < quorum
  }

  /** What the goroutines of append number `op` have done, and what they have said. */
  ghost predicate AppendInv(f: Fleet, log: Bytes, data: Bytes, complete: set<nat>, op: nat, tasks: set<Task>, reports: set<Report>) {
    && (forall t :: t in tasks && t.op == op ==> OnCourse(f, log, data, complete, t))
    && (forall m :: m in reports && m.op == op ==> Truthful(f, log, data, complete, m))
  }

  ghost predicate PhaseInv(s: State) {
    match s.phase
    case Idle => true
    case Appending(data, p) =>
      && TallyInv(s.quorum, s.complete, p) && Hold(s.fleet, p.succeeded, s.log + data) && Reachable(s.fleet, p.succeeded)
      && AppendInv(s.fleet, s.log, data, s.complete, s.op, s.tasks, s.reports)
    case Advancing(data) => Hold(s.fleet, s.complete, s.log + data) && Reachable(s.fleet, s.complete)
    case Committing(p) => TallyInv(s.quorum, s.complete, p) && Durably(s.fleet, s.durable, p.succeeded, s.log)
  }

  /** Everything still running or reported belongs to this append or to an older one. */
  ghost predicate Dated(op: nat, tasks: set<Task>, reports: set<Report>) {
    (forall t :: t in tasks ==> t.op <= op) && (forall m :: m in reports ==> m.op <= op)
  }

  ghost predicate ReaderInv(f: Fleet, log: Bytes, readers: set<Reader>) {
    forall rd :: rd in readers ==> ReaderOk(f, log, rd)
  }

  ghost predicate ReaderOk(f: Fleet, log: Bytes, rd: Reader) {
    rd.from <= rd.to <= |log| && (rd.eligible.Some? ==> Hold(f, rd.eligible.value, log[..rd.to]))
  }

  ghost predicate Durably(f: Fleet, durable: seq<Bytes>, who: set<nat>, log: Bytes) {
    forall r :: r in who ==> f.Online(r) && r < |durable| && log <= durable[r] && log <= f.streams[r]
  }

  /** A quorum of replicas durably holds the first `acked` bytes. */
  ghost predicate Safe(quorum: nat, f: Fleet, durable: seq<Bytes>, log: Bytes, acked: nat) {
    acked <= |log| && (acked > 0 ==> exists who :: |who| >= quorum && Durably(f, durable, who, log[..acked]))
  }

  ghost predicate Inv(s: State) {
    && s.quorum > 0 && |s.fleet.streams| == |s.durable| && s.complete <= Ids(|s.fleet.streams|) && s.quorum <= |s.complete|
    && Hold(s.fleet, s.complete, s.log)
    && PhaseInv(s) && Dated(s.op, s.tasks, s.reports) && ReaderInv(s.fleet, s.log, s.readers)
    && Safe(s.quorum, s.fleet, s.durable, s.log, s.acked)
  }

  /** A fresh mount: every copy counts as complete, and those with a live file hold the whole stream. */
  ghost predicate Mounted(s: State) {
    && 0 < s.quorum <= |s.fleet.streams| == |s.durable| && s.complete == Ids(|s.fleet.streams|)
    && Hold(s.fleet, s.complete, s.log) && s.phase.Idle? && s.tasks == {} && s.reports == {} && s.syncing == {} && s.readers == {}
    && s.acked == 0
  }

  /* ---- replicas only grow ---- */

  lemma Prefix3(a: Bytes, b: Bytes, c: Bytes)
    requires a <= b && b <= c
    ensures a <= c
  {
  }

  lemma GrowHold(f: Fleet, r: nat, next: Bytes, who: set<nat>, log: Bytes)
    requires r < |f.streams| && f.streams[r] <= next && Hold(f, who, log)
    ensures Hold(f.Grow(r, next), who, log)
  {
  }

  lemma GrowAppend(f: Fleet, r: nat, next: Bytes, log: Bytes, data: Bytes, complete: set<nat>, op: nat, tasks: set<Task>, reports: set<Report>)
    requires r < |f.streams| && f.streams[r] <= next && AppendInv(f, log, data, complete, op, tasks, reports)
    ensures AppendInv(f.Grow(r, next), log, data, complete, op, tasks, reports)
  {
  }

  lemma GrowInv(s: State, r: nat, next: Bytes)
    requires Inv(s) && r < |s.fleet.streams| && s.fleet.streams[r] <= next
    ensures Inv(s.(fleet := s.fleet.Grow(r, next)))
  {
    var f, g := s.fleet, s.fleet.Grow(r, next);
    GrowHold(f, r, next, s.complete, s.log);
    match s.phase {
      case Appending(data, p) =>
        GrowHold(f, r, next, p.succeeded, s.log + data);
        GrowAppend(f, r, next, s.log, data, s.complete, s.op, s.tasks, s.reports);
      case Advancing(data) => GrowHold(f, r, next, s.complete, s.log + data);
      case _ =>
    }
    forall rd | rd in s.readers ensures ReaderOk(g, s.log, rd) {
      assert ReaderOk(f, s.log, rd);
      if rd.eligible.Some? {
        GrowHold(f, r, next, rd.eligible.value, s.log[..rd.to]);
      }
    }
    if s.phase.Committing? {
      GrowDurably(f, r, next, s.durable, s.phase.tally.succeeded, s.log);
    }
    if s.acked > 0 {
      var who :| |who| >= s.quorum && Durably(f, s.durable, who, s.log[..s.acked]);
      GrowDurably(f, r, next, s.durable, who, s.log[..s.acked]);
    }
  }

  lemma GrowDurably(f: Fleet, r: nat, next: Bytes, durable: seq<Bytes>, who: set<nat>, log: Bytes)
    requires r < |f.streams| && f.streams[r] <= next && Durably(f, durable, who, log)
    ensures Durably(f.Grow(r, next), durable, who, log)
  {
  }

  lemma StillSafe(quorum: nat, f: Fleet, durable: seq<Bytes>, log: Bytes, log': Bytes, acked: nat)
    requires Safe(quorum, f, durable, log, acked) && log <= log'
    ensures Safe(quorum, f, durable, log', acked)
  {
  }

  /* ---- every step keeps the invariant ---- */

  lemma BeginInv(s: State, parts: seq<Bytes>, blind: bool)
    requires Inv(s) && s.phase.Idle?
    ensures Inv(StepBegin(s, parts, blind))
  {
    var n := StepBegin(s, parts, blind);
    if n != s {
      forall t | t in n.tasks && t.op == n.op ensures OnCourse(n.fleet, n.log, Flatten(parts), n.complete, t) {
        Launch(n.fleet, n.log, n.complete, t);
      }
    }
  }

  lemma Launch(f: Fleet, log: Bytes, complete: set<nat>, t: Task)
    requires Hold(f, complete, log) && t.replica in complete && t.at == |log|
    ensures OnCourse(f, log, Flatten(t.parts), complete, t)
  {
    var done: Bytes := [];
    assert log + done == log && done + Flatten(t.parts) == Flatten(t.parts);
    assert Hold(f, {t.replica}, log + done);
  }

  /** Placing the next part on a replica that holds everything before it. */
  lemma PlacedOnCourse(stream: Bytes, t: Task, before: Bytes)
    requires t.parts != [] && before <= stream && t.at == |before| && Placed(stream, t).1
    ensures before + t.parts[0] <= Placed(stream, t).0
  {
  }

  lemma LandCourse(f: Fleet, log: Bytes, data: Bytes, complete: set<nat>, t: Task)
    requires OnCourse(f, log, data, complete, t) && f.Online(t.replica) && t.parts != [] && Placed(f.streams[t.replica], t).1
    ensures OnCourse(f.Grow(t.replica, Placed(f.streams[t.replica], t).0), log, data, complete, Next(t))
  {
    var p, next := t.parts[0], Placed(f.streams[t.replica], t).0;
    var g := f.Grow(t.replica, next);
    var done: Bytes :| done + Flatten(t.parts) == data && t.at == |log + done| && Hold(f, {t.replica}, log + done);
    PlacedOnCourse(f.streams[t.replica], t, log + done);
    assert done + (p + Flatten(t.parts[1..])) == (done + p) + Flatten(t.parts[1..]);
    assert log + (done + p) == log + done + p;
    assert Hold(g, {t.replica}, log + (done + p));
  }

  /** Ending a task, with a report or with a successor. */
  lemma EndTask(s: State, t: Task, more: set<Task>, said: set<Report>)
    requires Inv(s) && Dated(s.op, more, said)
    requires s.phase.Appending? ==> AppendInv(s.fleet, s.log, s.phase.data, s.complete, s.op, more, said)
    ensures Inv(s.(tasks := s.tasks - {t} + more, reports := s.reports + said))
  {
  }

  lemma DoneInv(s: State, t: Task, ok: bool)
    requires Inv(s) && t.op <= s.op
    requires s.phase.Appending? && t.op == s.op ==> Truthful(s.fleet, s.log, s.phase.data, s.complete, Report(t.op, t.replica, ok))
    ensures Inv(Done(s, t, ok))
  {
  }

  lemma LandInv(s: State, t: Task)
    requires Inv(s) && t in s.tasks
    ensures Inv(StepLand(s, t))
  {
    var current := s.phase.Appending? && t.op == s.op;
    if current {
      assert OnCourse(s.fleet, s.log, s.phase.data, s.complete, t);
    }
    if !s.fleet.Online(t.replica) {
      DoneInv(s, t, false);
    } else if t.parts == [] {
      if current {
        LandedAll(s.fleet, s.log, s.phase.data, s.complete, t);
      }
      DoneInv(s, t, true);
    } else {
      var next := Placed(s.fleet.streams[t.replica], t);
      GrowInv(s, t.replica, next.0);
      if next.1 {
        if current {
          LandCourse(s.fleet, s.log, s.phase.data, s.complete, t);
        }
        EndTask(Landed(s, t), t, {Next(t)}, {});
        assert s.reports + {} == s.reports;
      } else {
        DoneInv(Landed(s, t), t, false);
      }
    }
  }

  lemma LandedAll(f: Fleet, log: Bytes, data: Bytes, complete: set<nat>, t: Task)
    requires OnCourse(f, log, data, complete, t) && t.parts == [] && f.Online(t.replica)
    ensures log + data <= f.streams[t.replica]
  {
  }

  lemma FailInv(s: State, t: Task, landed: bool)
    requires Inv(s) && t in s.tasks
    ensures Inv(StepFail(s, t, landed))
  {
    if s.phase.Appending? && t.op == s.op {
      assert OnCourse(s.fleet, s.log, s.phase.data, s.complete, t);
    }
    if landed && s.fleet.Online(t.replica) && t.parts != [] {
      GrowInv(s, t.replica, Placed(s.fleet.streams[t.replica], t).0);
      DoneInv(Landed(s, t), t, false);
    } else {
      DoneInv(s, t, false);
    }
  }

  lemma CollectInv(s: State, m: Report)
    requires Inv(s) && s.phase.Appending? && m in s.reports && m.op == s.op
    ensures Inv(StepCollect(s, m))
  {
    var data := s.phase.data;
    var won := s.phase.tally.succeeded + {m.replica};
    assert Truthful(s.fleet, s.log, data, s.complete, m);
    if m.ok {
      assert Hold(s.fleet, won, s.log + data);
      forall r | r in won && s.fleet.Online(r) ensures s.log <= s.fleet.streams[r] {
        Prefix3(s.log, s.log + data, s.fleet.streams[r]);
      }
    }
  }

  lemma AdvanceInv(s: State)
    requires Inv(s) && s.phase.Advancing?
    ensures Inv(StepAdvance(s))
  {
    var n := StepAdvance(s);
    forall rd | rd in s.readers ensures ReaderOk(s.fleet, n.log, rd) {
      assert ReaderOk(s.fleet, s.log, rd);
      assert s.log[..rd.to] == n.log[..rd.to];
    }
    StillSafe(s.quorum, s.fleet, s.durable, s.log, n.log, s.acked);
  }

  /** A commit replaces what a complete replica durably holds by at least the whole log. */
  lemma CommitSafe(quorum: nat, f: Fleet, durable: seq<Bytes>, log: Bytes, acked: nat, won: set<nat>, r: nat)
    requires Safe(quorum, f, durable, log, acked) && Durably(f, durable, won, log)
    requires f.Online(r) && r < |durable| && log <= f.streams[r]
    ensures var d := durable[r := f.streams[r]];
            && Safe(quorum, f, d, log, acked) && Durably(f, d, won, log) && Durably(f, d, won + {r}, log)
            && (|won + {r}| >= quorum ==> Safe(quorum, f, d, log, |log|))
  {
    var d := durable[r := f.streams[r]];
    assert log[..|log|] == log;
    if acked > 0 {
      var who :| |who| >= quorum && Durably(f, durable, who, log[..acked]);
      Prefix3(log[..acked], log, f.streams[r]);
      assert Durably(f, d, who, log[..acked]);
    }
  }

  lemma CommitOnInv(s: State, r: nat, durable: bool, reported: bool)
    requires Inv(s) && s.phase.Committing? && r in s.phase.tally.eligible
    ensures Inv(StepCommitOn(s, r, durable, reported))
  {
    hide Safe, Durably, ReaderOk, Dated;
    if durable && s.fleet.Online(r) {
      CommitSafe(s.quorum, s.fleet, s.durable, s.log, s.acked, s.phase.tally.succeeded, r);
    }
  }

  /** Making a replica durable as it stands takes nothing away from what was durable on it. */
  lemma LateDurably(f: Fleet, durable: seq<Bytes>, who: set<nat>, log: Bytes, r: nat)
    requires f.Online(r) && r < |durable| && Durably(f, durable, who, log)
    ensures Durably(f, durable[r := f.streams[r]], who, log)
  {
  }

  lemma CommitLateInv(s: State, r: nat)
    requires Inv(s) && r < |s.fleet.streams| == |s.durable|
    ensures Inv(StepCommitLate(s, r))
  {
    hide Durably, ReaderOk, Dated;
    if s.fleet.Online(r) {
      if s.phase.Committing? {
        LateDurably(s.fleet, s.durable, s.phase.tally.succeeded, s.log, r);
      }
      if s.acked > 0 {
        var who :| |who| >= s.quorum && Durably(s.fleet, s.durable, who, s.log[..s.acked]);
        LateDurably(s.fleet, s.durable, who, s.log[..s.acked], r);
      }
    }
  }

  lemma StepInv(s: State, e: Event)
    requires Inv(s) && Enabled(s, e)
    ensures Inv(Step(s, e))
  {
    match e {
      case Begin(parts, blind) => BeginInv(s, parts, blind);
      case Land(t) => LandInv(s, t);
      case Fail(t, landed) => FailInv(s, t, landed);
      case Collect(m) => CollectInv(s, m);
      case Advance => AdvanceInv(s);
      case CommitOn(r, durable, reported) => CommitOnInv(s, r, durable, reported);
      case CommitLate(r) => CommitLateInv(s, r);
      case ReadLookup(rd) => LookupInv(s, rd);
      case _ =>
    }
  }

  lemma LookupInv(s: State, rd: Reader)
    requires Inv(s) && rd in s.readers
    ensures ReaderOk(s.fleet, s.log, rd.(eligible := Some(s.complete)))
  {
  }

  /* ---- whole runs ---- */

  /** No step forgets: the log and what is acknowledged grow, the complete set shrinks. */
  ghost predicate Onward(s: State, t: State) {
    && s.quorum == t.quorum && s.fleet.offline == t.fleet.offline && |s.fleet.streams| == |t.fleet.streams|
    && s.log <= t.log && t.complete <= s.complete && s.acked <= t.acked
  }

  lemma StepOnward(s: State, e: Event)
    requires Enabled(s, e) && s.acked <= |s.log|
    requires e.Collect? && e.report.ok ==> s.phase.tally.succeeded <= s.complete && e.report.replica in s.complete
    ensures Onward(s, Step(s, e))
  {
  }

  lemma Reported(s: State, e: Event)
    requires Inv(s) && Enabled(s, e)
    ensures s.acked <= |s.log|
    ensures e.Collect? && e.report.ok ==> s.phase.tally.succeeded <= s.complete && e.report.replica in s.complete
  {
  }

  lemma {:induction false} RunInv(s: State, es: seq<Event>, t: State)
    requires Inv(s) && Run(s, es, t)
    ensures Inv(t) && Onward(s, t)
    decreases |es|
  {
    if es != [] {
      var n := Step(s, es[0]);
      StepInv(s, es[0]);
      Reported(s, es[0]);
      StepOnward(s, es[0]);
      RunInv(n, es[1..], t);
      Prefix3(s.log, n.log, t.log);
    }
  }

  lemma MountedInv(s: State)
    requires Mounted(s)
    ensures Inv(s)
  {
  }

  /** Once the log has grown, every complete replica has a live file. */
  ghost predicate Grown(log: Bytes, s: State) {
    |s.log| > |log| ==> Reachable(s.fleet, s.complete)
  }

  lemma StepGrown(log: Bytes, s: State, e: Event)
    requires Inv(s) && Enabled(s, e) && Grown(log, s)
    ensures Grown(log, Step(s, e))
  {
    hide Safe, ReaderInv, Dated, Hold, Durably, OnCourse, Placed;
    if e.Collect? && e.report.ok {
      assert Truthful(s.fleet, s.log, s.phase.data, s.complete, e.report);
    }
  }

  lemma {:induction false} RunGrown(log: Bytes, s: State, es: seq<Event>, t: State)
    requires Inv(s) && Grown(log, s) && Run(s, es, t)
    ensures Grown(log, t)
    decreases |es|
  {
    hide Inv, Enabled, Step, Grown;
    if es != [] {
      StepInv(s, es[0]);
      StepGrown(log, s, es[0]);
      RunGrown(log, Step(s, es[0]), es[1..], t);
    }
  }

  /** Mirror prefix safety. In every state a mount can reach, with goroutines of finished and failed appends and commits
      still running: complete replicas with a live file hold the whole log, there is a quorum of complete ones, there were
      never fewer, and once anything was appended all of them have a live file. */
  lemma MirrorPrefixSafety(s: State, es: seq<Event>, t: State)
    requires Mounted(s) && Run(s, es, t)
    ensures forall r :: r in t.complete && t.fleet.Online(r) ==> t.log <= t.fleet.streams[r]
    ensures t.quorum == s.quorum && t.quorum <= |t.complete| && t.complete <= s.complete && s.log <= t.log
    ensures |t.log| > |s.log| ==> forall r :: r in t.complete ==> t.fleet.Online(r)
  {
    MountedInv(s);
    RunInv(s, es, t);
    RunGrown(s.log, s, es, t);
  }

  /** A read that started in `s` and is answered in `t` by any replica it may ask gives the bytes the log had at
      those offsets when it started, whatever was appended or failed in between. */
  lemma ReadsAreStable(s0: State, es0: seq<Event>, s: State, es: seq<Event>, t: State, rd: Reader, r: nat)
    requires Mounted(s0) && Run(s0, es0, s) && Run(s, es, t)
    requires rd in t.readers && rd.to <= |s.log| && rd.eligible.Some? && r in rd.eligible.value && t.fleet.Online(r)
    ensures rd.from <= rd.to <= |t.fleet.streams[r]| && t.fleet.streams[r][rd.from..rd.to] == s.log[rd.from..rd.to]
  {
    MountedInv(s0);
    RunInv(s0, es0, s);
    RunInv(s, es, t);
    assert ReaderOk(t.fleet, t.log, rd);
    var got := t.fleet.streams[r];
    assert t.log[..rd.to] <= got;
    assert s.log[..rd.to] == t.log[..rd.to] == got[..rd.to];
    assert got[rd.from..rd.to] == got[..rd.to][rd.from..] && s.log[rd.from..rd.to] == s.log[..rd.to][rd.from..];
  }

  /** A prefix CommitPrefix returned is held durably by a quorum of replicas, then and ever after. */
  lemma CommittedPrefixSurvives(s0: State, es0: seq<Event>, s: State, es: seq<Event>, t: State)
    requires Mounted(s0) && Run(s0, es0, s) && Run(s, es, t)
    ensures s.acked <= t.acked && Safe(t.quorum, t.fleet, t.durable, s.log, s.acked)
  {
    MountedInv(s0);
    RunInv(s0, es0, s);
    RunInv(s, es, t);
    if s.acked > 0 {
      var who :| |who| >= t.quorum && Durably(t.fleet, t.durable, who, t.log[..t.acked]);
      forall r | r in who ensures s.log[..s.acked] <= t.durable[r] {
        assert s.log[..s.acked] == t.log[..t.acked][..s.acked];
        Prefix3(s.log[..s.acked], t.log[..t.acked], t.durable[r]);
      }
      assert Durably(t.fleet, t.durable, who, s.log[..s.acked]);
    }
  }

  /* ---- repeating a failed append ---- */

  /** The stream is the log and some first part of `data`. */
  predicate Poised(stream: Bytes, log: Bytes, data: Bytes) {
    log <= stream && stream <= log + data
  }

  /** A task that has placed some first part of `data`, at the right places. */
  ghost predicate Placing(t: Task, log: Bytes, data: Bytes) {
    !t.blind && exists done: Bytes :: done + Flatten(t.parts) == data && t.at == |log + done|
  }

  /** Every replica an append may use is the log and some first part of `data`, and nothing else is on its way. */
  ghost predicate Repeating(s: State, data: Bytes) {
    && (forall r :: r in s.complete && s.fleet.Online(r) ==> Poised(s.fleet.streams[r], s.log, data))
    && (forall t :: t in s.tasks ==> Placing(t, s.log, data))
  }

  /** Placing the next part on such a replica keeps it so, and works whenever everything before is there. */
  lemma PoisedPlaced(stream: Bytes, log: Bytes, data: Bytes, t: Task, done: Bytes)
    requires Poised(stream, log, data) && t.parts != [] && !t.blind && done + Flatten(t.parts) == data && t.at == |log + done|
    ensures Poised(Placed(stream, t).0, log, data)
    ensures Placed(stream, t).1 <==> |log + done| <= |stream|
    ensures Placed(stream, t).1 ==> |Placed(stream, t).0| >= |log + done| + |t.parts[0]|
  {
    var p, all := t.parts[0], log + data;
    assert data == done + p + Flatten(t.parts[1..]);
    assert all[t.at..t.at + |p|] == p;
    assert stream == all[..|stream|];
    if t.at <= |stream| {
      if |stream| - t.at >= |p| {
        assert stream[t.at..t.at + |p|] == all[t.at..t.at + |p|];
      } else {
        assert stream[t.at..] == all[t.at..|stream|] == p[..|stream| - t.at];
        assert stream + p[|stream| - t.at..] == all[..t.at + |p|];
      }
    }
  }

  lemma NextPlacing(t: Task, log: Bytes, data: Bytes, done: Bytes)
    requires t.parts != [] && !t.blind && done + Flatten(t.parts) == data && t.at == |log + done|
    ensures Placing(Next(t), log, data)
  {
    var more := done + t.parts[0];
    assert more + Flatten(t.parts[1..]) == done + (t.parts[0] + Flatten(t.parts[1..]));
  }

  lemma LandedRepeating(s: State, data: Bytes, t: Task)
    requires Repeating(s, data) && t in s.tasks && s.fleet.Online(t.replica) && t.parts != []
    ensures Repeating(Landed(s, t), data) && Placing(Next(t), s.log, data)
  {
    hide Placed;
    var done: Bytes :| done + Flatten(t.parts) == data && t.at == |s.log + done|;
    if t.replica in s.complete {
      PoisedPlaced(s.fleet.streams[t.replica], s.log, data, t, done);
    }
    NextPlacing(t, s.log, data, done);
  }

  /** An event of an append of `data` or of a repetition of it, short of its success. */
  predicate Repeats(e: Event, data: Bytes) {
    (e.Begin? ==> !e.blind && Flatten(e.parts) == data) && !e.Advance?
  }

  lemma StepRepeating(s: State, e: Event, data: Bytes)
    requires Inv(s) && Repeating(s, data) && Enabled(s, e) && Repeats(e, data)
    ensures Repeating(Step(s, e), data) && Step(s, e).log == s.log
  {
    hide PhaseInv, Safe, ReaderInv, Dated, Hold;
    Reported(s, e);
    hide Inv;
    match e {
      case Begin(parts, blind) =>
        forall t | t in Launched(s.complete, s.op + 1, |s.log|, parts, blind) ensures Placing(t, s.log, data) {
          assert [] + Flatten(t.parts) == data && |s.log + []| == t.at;
        }
      case Land(t) =>
        if s.fleet.Online(t.replica) && t.parts != [] {
          LandedRepeating(s, data, t);
        }
      case Fail(t, landed) =>
        if landed && s.fleet.Online(t.replica) && t.parts != [] {
          LandedRepeating(s, data, t);
        }
      case _ =>
    }
  }

  /** However often an append of the same bytes is tried, whatever fails and whatever lands late, every replica stays the
      log and some first part of them. */
  lemma {:induction false} RepeatsStayPoised(s: State, es: seq<Event>, t: State, data: Bytes)
    requires Inv(s) && Repeating(s, data) && Run(s, es, t) && forall i :: 0 <= i < |es| ==> Repeats(es[i], data)
    ensures Repeating(t, data) && t.log == s.log
    decreases |es|
  {
    hide Enabled, Step, Repeating, Inv;
    if es != [] {
      StepInv(s, es[0]);
      StepRepeating(s, es[0], data);
      forall i | 0 <= i < |es[1..]| ensures Repeats(es[1..][i], data) {
        assert es[1..][i] == es[i + 1];
      }
      RepeatsStayPoised(Step(s, es[0]), es[1..], t, data);
    }
  }

  /** What a goroutine makes of its replica when nothing fails from outside, and whether it reports success. */
  function PlaceAll(stream: Bytes, t: Task): (Bytes, bool)
    decreases |t.parts|
  {
    if t.parts == [] then (stream, true)
    else
      var put := Placed(stream, t);
      if put.1 then PlaceAll(put.0, Next(t)) else (put.0, false)
  }

  /** On such a replica the repetition succeeds and leaves it as one append would. */
  lemma {:induction false} RepetitionSucceeds(stream: Bytes, log: Bytes, data: Bytes, t: Task, done: Bytes)
    requires Poised(stream, log, data) && !t.blind && done + Flatten(t.parts) == data && t.at == |log + done| <= |stream|
    ensures PlaceAll(stream, t) == (log + data, true)
    decreases |t.parts|
  {
    hide Placed;
    if t.parts == [] {
      assert done == data && stream == log + data;
    } else {
      PoisedPlaced(stream, log, data, t, done);
      var more := done + t.parts[0];
      assert more + Flatten(t.parts[1..]) == done + (t.parts[0] + Flatten(t.parts[1..]));
      assert |log + more| == |log + done| + |t.parts[0]|;
      RepetitionSucceeds(Placed(stream, t).0, log, data, Next(t), more);
    }
  }

  /** So a failed append that is repeated, and reaches its replicas, succeeds on every one of them. */
  lemma RetriedAppendSucceeds(s: State, es: seq<Event>, t: State, parts: seq<Bytes>, r: nat)
    requires Inv(s) && Repeating(s, Flatten(parts)) && Run(s, es, t) && forall i :: 0 <= i < |es| ==> Repeats(es[i], Flatten(parts))
    requires r in t.complete && t.fleet.Online(r)
    ensures PlaceAll(t.fleet.streams[r], Task(t.op + 1, r, |t.log|, parts, false)) == (s.log + Flatten(parts), true)
  {
    hide PlaceAll, Inv, Run;
    RepeatsStayPoised(s, es, t, Flatten(parts));
    assert [] + Flatten(parts) == Flatten(parts) && s.log + [] == s.log;
    RepetitionSucceeds(t.fleet.streams[r], s.log, Flatten(parts), Task(t.op + 1, r, |t.log|, parts, false), []);
  }

  /* ---- the collecting loop ---- */

  function Wins(reports: seq<Report>): (w: set<nat>) {
    if reports == [] then {}
    else
      var before := Wins(reports[..|reports| - 1]);
      var last := reports[|reports| - 1];
      if last.ok then before + {last.replica} else before
  }

  function Losses(reports: seq<Report>): nat {
    if reports == [] then 0 else Losses(reports[..|reports| - 1]) + if reports[|reports| - 1].ok then 0 else 1
  }

  predicate Differ(reports: seq<Report>, i: nat, j: nat)
    requires i < |reports| && j < |reports|
  {
    reports[i].replica != reports[j].replica
  }

  predicate Distinct(reports: seq<Report>) {
    forall i, j :: 0 <= i < j < |reports| ==> Differ(reports, i, j)
  }

  lemma {:induction false} NotYet(reports: seq<Report>, j: nat, k: nat)
    requires Distinct(reports) && j <= k < |reports|
    ensures reports[k].replica !in Wins(reports[..j])
  {
    if j > 0 {
      NotYet(reports, j - 1, k);
      assert reports[..j][..j - 1] == reports[..j - 1];
      assert Differ(reports, j - 1, k);
    }
  }

  lemma {:induction false} WinsCount(reports: seq<Report>, k: nat)
    requires Distinct(reports) && k <= |reports|
    ensures |Wins(reports[..k])| + Losses(reports[..k]) == k
  {
    if k > 0 {
      WinsCount(reports, k - 1);
      assert reports[..k][..k - 1] == reports[..k - 1];
      NotYet(reports, k - 1, k - 1);
    }
  }

  lemma {:induction false} WinsGrow(reports: seq<Report>, k: nat)
    requires k <= |reports|
    ensures Wins(reports[..k]) <= Wins(reports) && Losses(reports[..k]) <= Losses(reports)
    decreases |reports| - k
  {
    if k == |reports| {
      assert reports[..k] == reports;
    } else {
      assert reports[..k + 1][..k] == reports[..k];
      WinsGrow(reports, k + 1);
    }
  }

  /** fanoutQuorumEligible over the reports in the order they arrive, one per candidate: it succeeds exactly when
      at least `quorum` candidates succeed, whatever the order, and returns exactly a quorum of them. */
  method CollectQuorum(arrivals: seq<Report>, quorum: nat) returns (r: Option<set<nat>>)
    requires Distinct(arrivals) && quorum > 0
    ensures r.Some? <==> |Wins(arrivals)| >= quorum
    ensures r.Some? ==> r.value <= Wins(arrivals) && |r.value| == quorum
  {
    assert arrivals[..|arrivals|] == arrivals;
    WinsCount(arrivals, |arrivals|);
    if |arrivals| < quorum {
      return None;
    }
    var successful: set<nat>, failed, i := {}, 0, 0;
    while i < |arrivals|
      invariant 0 <= i <= |arrivals|
      invariant successful == Wins(arrivals[..i]) && failed == Losses(arrivals[..i])
      invariant |successful| < quorum && failed <= |arrivals| - quorum
    {
      assert arrivals[..i + 1][..i] == arrivals[..i];
      WinsGrow(arrivals, i + 1);
      if !arrivals[i].ok {
        failed := failed + 1;
        if failed > |arrivals| - quorum {
          return None;
        }
      } else {
        successful := successful + {arrivals[i].replica};
        if |successful| >= quorum {
          Within(successful, Wins(arrivals));
          return Some(successful);
        }
      }
      i := i + 1;
    }
    return None;
  }

  lemma Within(a: set<nat>, b: set<nat>)
    requires a <= b
    ensures |a| <= |b|
  {
    assert b == a + (b - a) && a !! (b - a);
  }
}
