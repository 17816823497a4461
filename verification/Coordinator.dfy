/**
 The publication stepper (durability/coordinator.go). Effects of the adapter are recorded in the order
 they run; what they return comes from outside.
 */
module Coordinator {
  datatype Phase = Admit | SyncPrefix | RecordPrefix | Verify | Publish | Finished

  /** One effect that ran, with what it was asked and what it answered. */
  datatype Effect =
    | Admitted(vlogs: seq<nat>)
    | Synced(vlog: nat, prefix: int)
    | Recorded(vlog: nat, prefix: int)
    | Verified
    | Published
    | Broken(phase: Phase)  // the effect of this phase returned an error

  /** What the outside answers to one step: the effect's result, and the hook's. */
  datatype Answer = Answer(ok: bool, vlogs: seq<nat>, prefix: int, hook: bool)

  /** Admission, then each vlog synced and its exact prefix recorded, in order. */
  function Steps(vlogs: seq<nat>, prefixes: seq<int>): seq<Effect>
    requires |prefixes| <= |vlogs|
  {
    if prefixes == [] then [Admitted(vlogs)]
    else
      var n := |prefixes| - 1;
      Steps(vlogs, prefixes[..n]) + [Synced(vlogs[n], prefixes[n]), Recorded(vlogs[n], prefixes[n])]
  }

  lemma {:induction false} StepsLength(vlogs: seq<nat>, prefixes: seq<int>)
    requires |prefixes| <= |vlogs|
    ensures |Steps(vlogs, prefixes)| == 1 + 2 * |prefixes|
    decreases |prefixes|
  {
    if prefixes != [] {
      StepsLength(vlogs, prefixes[..|prefixes| - 1]);
    }
  }

  lemma NoneYet(vlogs: seq<nat>, prefixes: seq<int>)
    requires prefixes == []
    ensures Steps(vlogs, prefixes) == [Admitted(vlogs)]
  {
  }

  lemma OneMore(vlogs: seq<nat>, prefixes: seq<int>, prefix: int)
    requires |prefixes| < |vlogs|
    ensures Steps(vlogs, prefixes + [prefix]) == Steps(vlogs, prefixes) + [Synced(vlogs[|prefixes|], prefix), Recorded(vlogs[|prefixes|], prefix)]
  {
  }

  /** Everything before publication went through: this is the only trace that may end in Published. */
  function Whole(vlogs: seq<nat>, prefixes: seq<int>): seq<Effect>
    requires |prefixes| == |vlogs|
  {
    Steps(vlogs, prefixes) + [Verified, Published]
  }

  class Transaction {
    var phase: Phase
    var vlogs: seq<nat>
    var index: nat
    var prefix: int
    var failed: bool
    var trace: seq<Effect>
    ghost var prefixes: seq<int>  // recorded so far

    /** What has run when the transaction stands in this phase. */
    ghost function Expected(): seq<Effect>
      requires index == |prefixes| <= |vlogs|
      requires phase == RecordPrefix ==> index < |vlogs|
      reads this
    {
      match phase
      case Admit => []
      case SyncPrefix => Steps(vlogs, prefixes)
      case RecordPrefix => Steps(vlogs, prefixes) + [Synced(vlogs[index], prefix)]
      case Verify => Steps(vlogs, prefixes)
      case Publish => Steps(vlogs, prefixes) + [Verified]
      case Finished => Steps(vlogs, prefixes) + [Verified, Published]
    }

    ghost predicate Ordered()
      reads this
    {
      && index == |prefixes| <= |vlogs| && (phase == Admit ==> index == 0)
      && (phase == SyncPrefix || phase == RecordPrefix ==> index < |vlogs|)
      && (phase == Verify || phase == Publish || phase == Finished ==> index == |vlogs|)
    }

    /** Without an error the trace is exactly what the phase stands for; with one it is that, plus at most the effect
        that broke. */
    ghost predicate Valid()
      reads this
    {
      && Ordered()
      && (trace == Expected() || (failed && phase != Finished && trace == Expected() + [Broken(phase)]))
    }

    constructor ()
      ensures Valid() && !failed && phase == Admit && trace == []
    {
      phase, vlogs, index, prefix, failed, trace, prefixes := Admit, [], 0, 0, false, [], [];
    }

    /** Step: one effect, or none after an error or at the end. */
    method Step(a: Answer) returns (ok: bool)
      requires Valid()
      modifies this
      ensures Valid() && ok == !failed
      ensures old(failed || phase == Finished) ==> trace == old(trace) && failed == old(failed) && phase == old(phase)
      ensures !old(failed || phase == Finished) ==> |trace| == |old(trace)| + 1 && old(trace) == trace[..|old(trace)|]
      ensures !failed && old(phase) != Finished ==> phase != Admit && (old(phase) == Admit || Rank() < old(Rank()))
      ensures !old(failed) && old(phase) != Finished ==> (a.ok && a.hook ==> !failed) && (!a.ok ==> failed)
    {
      if failed {
        return false;
      }
      if phase == Finished {
        return true;
      }
      if !a.ok {
        failed := true;
        trace := trace + [Broken(phase)];
        return false;
      }
      var point := Act(a);
      if point && !a.hook {
        failed := true;
      }
      return !failed;
    }

    /** The effect of the current phase succeeds; the answer is whether it has a hook. */
    method Act(a: Answer) returns (point: bool)
      requires Ordered() && trace == Expected() && !failed && phase != Finished
      modifies this`phase, this`vlogs, this`index, this`prefix, this`trace, this`prefixes
      ensures Ordered() && trace == Expected() && |trace| == |old(trace)| + 1 && old(trace) == trace[..|old(trace)|]
      ensures phase != Admit && (old(phase) != Admit ==> Rank() < old(Rank()))
    {
      hide Steps;
      point := true;
      match phase {
        case Admit =>
          vlogs, point := a.vlogs, false;
          phase := if a.vlogs == [] then Verify else SyncPrefix;
          trace := trace + [Admitted(a.vlogs)];
          NoneYet(vlogs, prefixes);
        case SyncPrefix =>
          prefix, phase := a.prefix, RecordPrefix;
          trace := trace + [Synced(vlogs[index], prefix)];
        case RecordPrefix =>
          trace := trace + [Recorded(vlogs[index], prefix)];
          OneMore(vlogs, prefixes, prefix);
          prefixes, index := prefixes + [prefix], index + 1;
          phase := if index == |vlogs| then Verify else SyncPrefix;
        case Verify =>
          phase, trace := Publish, trace + [Verified];
        case Publish =>
          phase, trace := Finished, trace + [Published];
      }
    }

    /** Effects still to come once the vlogs are known. */
    ghost function Rank(): int
      reads this
    {
      match phase
      case Admit => 0
      case SyncPrefix => 2 * (|vlogs| - index) + 2
      case RecordPrefix => 2 * (|vlogs| - index) + 1
      case Verify => 2
      case Publish => 1
      case Finished => 0
    }
  }

  /** Publication ordering: whenever Published is in the trace, in a state of any run, the whole trace is one admission,
      every admitted vlog synced and then recorded with exactly the prefix its sync returned, one verification and one
      publication. */
  lemma PublishedLast(t: Transaction)
    requires t.Valid() && Published in t.trace
    ensures |t.prefixes| == |t.vlogs| && t.trace == Whole(t.vlogs, t.prefixes) && t.phase == Finished
  {
    NotYetPublished(t.vlogs, t.prefixes);
  }

  lemma {:induction false} NotYetPublished(vlogs: seq<nat>, prefixes: seq<int>)
    requires |prefixes| <= |vlogs|
    ensures Published !in Steps(vlogs, prefixes)
    decreases |prefixes|
  {
    if prefixes != [] {
      NotYetPublished(vlogs, prefixes[..|prefixes| - 1]);
    }
  }

  /** Commit: success is publication, after exactly 2n + 3 effects for n vlogs. A failed commit published only if it was
      the last hook that failed. */
  method Commit(answers: nat -> Answer) returns (ok: bool, t: Transaction)
    ensures fresh(t) && t.Valid()
    ensures ok ==> |t.prefixes| == |t.vlogs| && t.trace == Whole(t.vlogs, t.prefixes) && |t.trace| == 2 * |t.vlogs| + 3
    ensures !ok ==> t.failed
    ensures (forall n :: answers(n).ok && answers(n).hook) ==> ok
  {
    t := new Transaction();
    var n := 0;
    while t.phase != Finished
      invariant fresh(t) && t.Valid() && !t.failed
      decreases t.phase == Admit, t.Rank()
    {
      ok := t.Step(answers(n));
      if !ok {
        return;
      }
      n := n + 1;
    }
    StepsLength(t.vlogs, t.prefixes);
    return true, t;
  }
}
