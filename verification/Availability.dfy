// availability.go and inference/runner.go: the availability view and the claim
// runner that is fenced by it.

module Availability {

  datatype FailureCode = NoCode | BecameActive | Reclaimed | ConnectFailed | TimedOut | Cancelled | UpstreamError

  // Change channels are numbered in the order they are made.
  datatype View = View(
    active: bool, reclaimed: bool, hasReady: bool,
    ready: bool, gen: nat, code: FailureCode, changed: nat, closed: set<nat>)

  const INITIAL := View(false, false, false, false, 0, NoCode, 0, {})

  predicate Eligible(v: View) {
    !v.active && !v.reclaimed && v.hasReady
  }

  // Reclaim wins over an active user.
  function UnavailableReason(v: View): FailureCode {
    if v.reclaimed then Reclaimed else if v.active then BecameActive else Cancelled
  }

  function Recomputed(v: View): View {
    if Eligible(v) == v.ready then v
    else
      v.(ready := Eligible(v),
         gen := if v.ready then v.gen + 1 else v.gen,
         code := if v.ready then UnavailableReason(v) else NoCode,
         closed := v.closed + {v.changed},
         changed := v.changed + 1)
  }

  datatype Input = Active(on: bool) | ReclaimedIs(on: bool) | ReplicaReady(on: bool)

  function Update(v: View, input: Input): View {
    match input
    case Active(on) => Recomputed(v.(active := on))
    case ReclaimedIs(on) => Recomputed(v.(reclaimed := on))
    case ReplicaReady(on) => Recomputed(v.(hasReady := on))
  }

  datatype Snapshot = Snapshot(ready: bool, generation: nat, changed: nat, unavailableCode: FailureCode)

  function SnapshotOf(v: View): Snapshot {
    Snapshot(v.ready, v.gen, v.changed, v.code)
  }

  // The shared object; each method is one critical section.
  class AvailabilitySource {
    var active: bool
    var reclaimed: bool
    var hasReady: bool
    var ready: bool
    var gen: nat
    var code: FailureCode
    var changed: nat
    var closed: set<nat>

    function Now(): View
      reads this
    {
      View(active, reclaimed, hasReady, ready, gen, code, changed, closed)
    }

    constructor ()
      ensures Now() == INITIAL
    {
      active, reclaimed, hasReady, ready := false, false, false, false;
      gen, code, changed, closed := 0, NoCode, 0, {};
    }

    method TakeSnapshot() returns (s: Snapshot)
      ensures s == SnapshotOf(Now())
    {
      return Snapshot(ready, gen, changed, code);
    }

    method SetActive(on: bool)
      modifies this
      ensures Now() == Update(old(Now()), Active(on))
    {
      active := on;
      Recompute();
    }

    method SetReclaimed(on: bool)
      modifies this
      ensures Now() == Update(old(Now()), ReclaimedIs(on))
    {
      reclaimed := on;
      Recompute();
    }

    method SetReplicaReady(on: bool)
      modifies this
      ensures Now() == Update(old(Now()), ReplicaReady(on))
    {
      hasReady := on;
      Recompute();
    }

    method Recompute()
      modifies this
      ensures Now() == Recomputed(old(Now()))
    {
      var next := !active && !reclaimed && hasReady;
      if next == ready {
        return;
      }
      if ready && !next {
        gen := gen + 1;
        code := UnavailableReason(Now());
      } else {
        code := NoCode;
      }
      ready := next;
      closed := closed + {changed};
      changed := changed + 1;
    }
  }
}

module ClaimRunner {
  import opened Availability

  // Where the runner's loop is; `snap` is the admitting snapshot.
  datatype Runner =
    | Top
    | Waiting(snap: Snapshot)
    | Claiming(snap: Snapshot)
    | Admitted(snap: Snapshot)
    | Serving(snap: Snapshot, cancelled: bool)

  // A failure told to the coordinator; `presence` marks the user's doing.
  datatype Failure = Failure(code: FailureCode, presence: bool)

  datatype Sys = Sys(view: View, runner: Runner, reported: seq<Failure>)

  // How the local exchange ended when it did not succeed.
  datatype Ending = DeadlineExceeded | Canceled | Refused

  datatype Action =
    | Push(input: Input)     // presence, reclaim or readiness changes
    | TakeSnapshot           // top of the loop
    | Wake                   // the awaited channel was closed
    | NoClaim                // 204, or a wait cut short
    | ReceiveClaim           // the coordinator hands over a claim
    | Recheck                // runClaim's second snapshot
    | Reject(code: FailureCode) // an invalid claim, a port that is not ready
    | Cancel                 // the watched channel was closed
    | Upload                 // the response reached the coordinator
    | Break(ending: Ending)  // the exchange failed

  // The fence: ready, in the generation that admitted the claim.
  predicate Passes(v: View, snap: Snapshot) {
    v.ready && v.gen == snap.generation
  }

  function UnavailableCode(s: Snapshot): FailureCode {
    match s.unavailableCode
    case BecameActive => BecameActive
    case Reclaimed => Reclaimed
    case _ => Cancelled
  }

  function CodeFor(v: View, ending: Ending): FailureCode {
    if !v.ready then UnavailableCode(SnapshotOf(v))
    else
      match ending
      case DeadlineExceeded => TimedOut
      case Canceled => Cancelled
      case Refused => ConnectFailed
  }

  predicate Enabled(s: Sys, a: Action) {
    match a
    case Push(_) => true
    case TakeSnapshot => s.runner.Top?
    case Wake => s.runner.Waiting? && s.runner.snap.changed in s.view.closed
    case NoClaim => s.runner.Claiming?
    case ReceiveClaim => s.runner.Claiming?
    case Recheck => s.runner.Admitted?
    case Reject(code) => s.runner.Serving? && code in {UpstreamError, ConnectFailed}
    case Cancel => s.runner.Serving? && s.runner.snap.changed in s.view.closed
    case Upload => s.runner.Serving? && !s.runner.cancelled
    case Break(_) => s.runner.Serving?
  }

  function Report(s: Sys, code: FailureCode): Sys {
    s.(runner := Top, reported := s.reported + [Failure(code, code == BecameActive || code == Reclaimed)])
  }

  function Do(s: Sys, a: Action): Sys
    requires Enabled(s, a)
  {
    match a
    case Push(input) => s.(view := Update(s.view, input))
    case TakeSnapshot =>
      var snap := SnapshotOf(s.view);
      s.(runner := if snap.ready then Claiming(snap) else Waiting(snap))
    case Wake => s.(runner := Top)
    case NoClaim => s.(runner := Top)
    case ReceiveClaim => s.(runner := Admitted(s.runner.snap))
    case Recheck =>
      if !s.view.ready then Report(s, UnavailableCode(SnapshotOf(s.view)))
      else if s.view.gen != s.runner.snap.generation then Report(s, BecameActive)
      else s.(runner := Serving(s.runner.snap, false))
    case Reject(code) => Report(s, code)
    case Cancel => s.(runner := Serving(s.runner.snap, true))
    case Upload => s.(runner := Top)
    case Break(ending) => Report(s, CodeFor(s.view, ending))
  }

  ghost predicate IsRun(run: seq<Sys>, actions: seq<Action>) {
    && |run| == |actions| + 1
    && run[0] == Sys(INITIAL, Top, [])
    && forall i :: 0 <= i < |actions| ==> Enabled(run[i], actions[i]) && run[i + 1] == Do(run[i], actions[i])
  }

  // ---- The view along a run ----

  // `ready` always says what the inputs say, and the open channel is the newest.
  ghost predicate Published(v: View) {
    && v.ready == Eligible(v)
    && (v.ready ==> v.code == NoCode)
    && forall c: nat :: c in v.closed <==> c < v.changed
  }

  lemma UpdateKeepsPublished(v: View, input: Input)
    requires Published(v)
    ensures Published(Update(v, input))
  {
  }

  lemma {:induction false} RunIsPublished(run: seq<Sys>, actions: seq<Action>, n: nat)
    requires IsRun(run, actions) && n < |run|
    ensures Published(run[n].view)
  {
    if n > 0 {
      RunIsPublished(run, actions, n - 1);
      if actions[n - 1].Push? {
        UpdateKeepsPublished(run[n - 1].view, actions[n - 1].input);
      }
    }
  }

  // Every change of readiness closes exactly the current channel. A loss
  // advances the generation by one and records why; nothing else advances it.
  lemma LossClosesCurrentChannel(v: View, input: Input)
    requires Published(v)
    ensures var w := Update(v, input);
      && (v.ready && !w.ready <==> w.gen == v.gen + 1)
      && (w.gen == v.gen || w.gen == v.gen + 1)
      && (v.ready != w.ready ==> w.closed == v.closed + {v.changed} && w.changed == v.changed + 1)
      && (v.ready && !w.ready ==> w.code == UnavailableReason(w))
      && (v.ready == w.ready ==> w.closed == v.closed && w.changed == v.changed)
  {
  }

  // A ready machine is lost to a user, a reclaim or its last replica, and the
  // reason says to which; the other inputs change nothing.
  lemma LossRecordsReason(v: View)
    requires Published(v) && v.ready
    ensures var w := Update(v, Active(true)); !w.ready && w.code == BecameActive
    ensures var w := Update(v, ReclaimedIs(true)); !w.ready && w.code == Reclaimed
    ensures var w := Update(v, ReplicaReady(false)); !w.ready && w.code == Cancelled
    ensures Update(v, Active(false)) == Update(v, ReclaimedIs(false)) == Update(v, ReplicaReady(true)) == v
  {
  }

  // A machine that is not ready becomes so exactly with the input that was
  // missing.
  lemma GainNeedsAllInputs(v: View, input: Input)
    requires Published(v) && !v.ready
    ensures var w := Update(v, input);
      w.ready <==> match input
                   case Active(on) => !on && !v.reclaimed && v.hasReady
                   case ReclaimedIs(on) => !on && !v.active && v.hasReady
                   case ReplicaReady(on) => on && !v.active && !v.reclaimed
    ensures !Update(v, input).ready ==> Update(v, input).code == v.code
  {
  }

  lemma {:induction false} GenerationNeverFalls(run: seq<Sys>, actions: seq<Action>, i: nat, j: nat)
    requires IsRun(run, actions) && i <= j < |run|
    ensures run[i].view.gen <= run[j].view.gen
    decreases j - i
  {
    if i < j {
      GenerationNeverFalls(run, actions, i, j - 1);
    }
  }

  // Equal generations at two ready moments: ready at every moment between, on
  // one channel.
  lemma {:induction false} ReadyThroughout(run: seq<Sys>, actions: seq<Action>, i: nat, j: nat)
    requires IsRun(run, actions) && i <= j < |run|
    requires run[i].view.ready && run[j].view.ready && run[i].view.gen == run[j].view.gen
    ensures forall k :: i <= k <= j ==> run[k].view.ready && run[k].view.changed == run[i].view.changed
    decreases j - i
  {
    if i < j {
      RunIsPublished(run, actions, i);
      if actions[i].Push? {
        LossClosesCurrentChannel(run[i].view, actions[i].input);
      }
      GenerationNeverFalls(run, actions, i + 1, j);
      ReadyThroughout(run, actions, i + 1, j);
    }
  }

  // ---- The fence ----

  ghost predicate Holds(r: Runner, snap: Snapshot) {
    !r.Top? && r.snap == snap
  }

  // A snapshot the runner holds was taken of the view at an earlier moment,
  // and the runner has held it ever since.
  lemma {:induction false} SnapshotProvenance(run: seq<Sys>, actions: seq<Action>, j: nat) returns (i: nat)
    requires IsRun(run, actions) && j < |run| && !run[j].runner.Top?
    ensures i <= j && SnapshotOf(run[i].view) == run[j].runner.snap
    ensures forall k :: i < k <= j ==> Holds(run[k].runner, run[j].runner.snap)
    ensures !run[j].runner.Waiting? ==> run[i].view.ready
  {
    if run[j - 1].runner.Top? {
      i := j - 1;
    } else {
      i := SnapshotProvenance(run, actions, j - 1);
    }
  }

  // At every moment from i to j the machine has been idle, unreclaimed and
  // ready, on the channel that the snapshot of moment i watches.
  ghost predicate UninterruptedSince(run: seq<Sys>, i: nat, j: nat, snap: Snapshot)
    requires i <= j < |run|
  {
    && SnapshotOf(run[i].view) == snap
    && forall k :: i <= k <= j ==> Eligible(run[k].view) && run[k].view.changed == snap.changed
  }

  // A claim that passes the fence was admitted at a moment since which the
  // machine has been available without a break.
  lemma ServedClaimWasNeverInterrupted(run: seq<Sys>, actions: seq<Action>, j: nat)
    requires IsRun(run, actions) && j < |actions|
    requires run[j].runner.Admitted? && run[j + 1].runner.Serving?
    ensures exists i: nat :: i <= j && UninterruptedSince(run, i, j, run[j].runner.snap)
  {
    var i := SnapshotProvenance(run, actions, j);
    ReadyThroughout(run, actions, i, j);
    forall k | i <= k <= j
      ensures Eligible(run[k].view)
    {
      RunIsPublished(run, actions, k);
    }
    assert UninterruptedSince(run, i, j, run[j].runner.snap);
  }

  // No claim admitted before a user return, a reclaim or a loss of the last
  // ready replica passes the fence afterwards, however often the machine has
  // become available again.
  lemma StaleClaimIsFenced(run: seq<Sys>, actions: seq<Action>, i: nat, k: nat, j: nat)
    requires IsRun(run, actions) && i <= k <= j < |run|
    requires run[i].view.ready && !Eligible(run[k].view)
    ensures !Passes(run[j].view, SnapshotOf(run[i].view))
  {
    if Passes(run[j].view, SnapshotOf(run[i].view)) {
      ReadyThroughout(run, actions, i, j);
      RunIsPublished(run, actions, k);
      assert false;
    }
  }

  lemma {:induction false} ReadyKeepsGeneration(run: seq<Sys>, actions: seq<Action>, i: nat, j: nat)
    requires IsRun(run, actions) && i <= j < |run| && forall k :: i <= k <= j ==> run[k].view.ready
    ensures run[j].view.gen == run[i].view.gen
    decreases j - i
  {
    if i < j {
      ReadyKeepsGeneration(run, actions, i, j - 1);
      RunIsPublished(run, actions, j - 1);
      assert run[j - 1].view.ready && run[j].view.ready;
      if actions[j - 1].Push? {
        LossClosesCurrentChannel(run[j - 1].view, actions[j - 1].input);
      }
    }
  }

  // The fence lets a claim through if and only if the machine has been
  // available without a break since its admission.
  lemma FenceIsExact(run: seq<Sys>, actions: seq<Action>, j: nat)
    requires IsRun(run, actions) && j < |actions| && actions[j].Recheck?
    ensures run[j + 1].runner.Serving?
       <==> exists i: nat :: i <= j && UninterruptedSince(run, i, j, run[j].runner.snap)
  {
    if run[j + 1].runner.Serving? {
      ServedClaimWasNeverInterrupted(run, actions, j);
    }
    if i: nat :| i <= j && UninterruptedSince(run, i, j, run[j].runner.snap) {
      forall k | i <= k <= j
        ensures run[k].view.ready
      {
        RunIsPublished(run, actions, k);
        assert Eligible(run[k].view);
      }
      ReadyKeepsGeneration(run, actions, i, j);
      assert run[j].view.ready;
    }
  }

  // A waiting runner is woken by every return to readiness.
  lemma {:induction false} WaitingMissesNothing(run: seq<Sys>, actions: seq<Action>, n: nat)
    requires IsRun(run, actions) && n < |run| && run[n].runner.Waiting?
    ensures run[n].runner.snap.changed <= run[n].view.changed
    ensures run[n].view.ready ==> Enabled(run[n], Wake)
  {
    RunIsPublished(run, actions, n);
    RunIsPublished(run, actions, n - 1);
    if run[n - 1].runner.Waiting? {
      WaitingMissesNothing(run, actions, n - 1);
      if actions[n - 1].Push? {
        LossClosesCurrentChannel(run[n - 1].view, actions[n - 1].input);
      }
    }
  }

  // While a claim is in service, either its channel is closed, so that it is
  // being cancelled, or the machine is still available in its generation and
  // the next loss will close that very channel.
  ghost predicate ServingIsCovered(s: Sys) {
    s.runner.Serving? && s.runner.snap.changed !in s.view.closed ==>
      && Eligible(s.view) && Passes(s.view, s.runner.snap)
      && s.view.changed == s.runner.snap.changed
      && !s.runner.cancelled
  }

  lemma {:induction false} ServiceStopsWithAvailability(run: seq<Sys>, actions: seq<Action>, n: nat)
    requires IsRun(run, actions) && n < |run|
    ensures ServingIsCovered(run[n])
  {
    RunIsPublished(run, actions, n);
    if n > 0 {
      ServiceStopsWithAvailability(run, actions, n - 1);
      RunIsPublished(run, actions, n - 1);
      match actions[n - 1]
      case Push(input) => LossClosesCurrentChannel(run[n - 1].view, input);
      case Recheck =>
        if run[n].runner.Serving? {
          ServedClaimWasNeverInterrupted(run, actions, n - 1);
        }
      case _ =>
    }
  }

  // ---- What the coordinator is told ----

  // What takes a ready machine away, and the code it is told under.
  function ReasonOf(input: Input): FailureCode {
    match input
    case Active(_) => BecameActive
    case ReclaimedIs(_) => Reclaimed
    case ReplicaReady(_) => Cancelled
  }

  // Action k took the machine away, and it has not been back until j.
  ghost predicate LostAt(run: seq<Sys>, actions: seq<Action>, k: nat, j: nat)
    requires k < j < |run| == |actions| + 1
  {
    && actions[k].Push? && actions[k].input in {Active(true), ReclaimedIs(true), ReplicaReady(false)}
    && run[k].view.ready && forall m :: k < m <= j ==> !run[m].view.ready
  }

  // Once lost, readiness leaves a reason behind until it returns: the one of
  // the input that took it away.
  lemma {:induction false} LossLeavesReason(run: seq<Sys>, actions: seq<Action>, i: nat, j: nat) returns (k: nat)
    requires IsRun(run, actions) && i <= j < |run|
    requires run[i].view.ready && !run[j].view.ready
    ensures i <= k < j && LostAt(run, actions, k, j) && run[j].view.code == ReasonOf(actions[k].input)
    decreases j - i
  {
    RunIsPublished(run, actions, j - 1);
    if run[j - 1].view.ready {
      k := j - 1;
      LossRecordsReason(run[k].view);
    } else {
      k := LossLeavesReason(run, actions, i, j - 1);
      if actions[j - 1].Push? {
        GainNeedsAllInputs(run[j - 1].view, actions[j - 1].input);
      }
    }
  }

  // A claim refused at the fence while the machine is unavailable is reported
  // under the reason of the loss, and as the user's doing if it was.
  lemma FencedClaimIsReported(run: seq<Sys>, actions: seq<Action>, j: nat) returns (k: nat)
    requires IsRun(run, actions) && j < |actions| && actions[j].Recheck? && !run[j].view.ready
    ensures k < j && LostAt(run, actions, k, j)
    ensures run[j + 1].runner == Top
    ensures run[j + 1].reported == run[j].reported + [Failure(ReasonOf(actions[k].input), !actions[k].input.ReplicaReady?)]
  {
    var i := SnapshotProvenance(run, actions, j);
    k := LossLeavesReason(run, actions, i, j);
  }

  // A claim refused after the machine has come back is reported as the user's
  // return.
  lemma StaleClaimIsReported(run: seq<Sys>, actions: seq<Action>, j: nat)
    requires IsRun(run, actions) && j < |actions| && actions[j].Recheck? && run[j].view.ready && !run[j + 1].runner.Serving?
    ensures run[j + 1].runner == Top && run[j + 1].reported == run[j].reported + [Failure(BecameActive, true)]
    ensures run[j].runner.snap.generation < run[j].view.gen
  {
    var i := SnapshotProvenance(run, actions, j);
    GenerationNeverFalls(run, actions, i, j);
  }

  // A claim whose service breaks off is reported under the reason of the loss,
  // or, on a machine that is still available, by how the exchange ended.
  lemma BrokenClaimIsReported(run: seq<Sys>, actions: seq<Action>, j: nat) returns (k: nat)
    requires IsRun(run, actions) && j < |actions| && actions[j].Break?
    ensures run[j + 1].runner == Top
    ensures !run[j].view.ready ==>
      && k < j && LostAt(run, actions, k, j)
      && run[j + 1].reported == run[j].reported + [Failure(ReasonOf(actions[k].input), !actions[k].input.ReplicaReady?)]
    ensures run[j].view.ready ==>
      run[j + 1].reported == run[j].reported
        + [match actions[j].ending
           case DeadlineExceeded => Failure(TimedOut, false)
           case Canceled => Failure(Cancelled, false)
           case Refused => Failure(ConnectFailed, false)]
  {
    var i := SnapshotProvenance(run, actions, j);
    k := 0;
    if !run[j].view.ready {
      k := LossLeavesReason(run, actions, i, j);
    }
  }

  // Nothing is told but refusals, rejections and breaks, one failure each.
  lemma OnlyFailuresAreReported(run: seq<Sys>, actions: seq<Action>, j: nat)
    requires IsRun(run, actions) && j < |actions|
    ensures actions[j].Reject? ==>
      run[j + 1].runner == Top && run[j + 1].reported == run[j].reported + [Failure(actions[j].code, false)]
    ensures !actions[j].Reject? && !actions[j].Break? && !actions[j].Recheck? ==> run[j + 1].reported == run[j].reported
    ensures run[j + 1].runner.Serving? ==> run[j + 1].reported == run[j].reported
  {
    assert Enabled(run[j], actions[j]) && run[j + 1] == Do(run[j], actions[j]);
  }

  // A response is uploaded only if the claim was let through the fence and its
  // channel has not cancelled it since.
  lemma {:induction false} UploadWasNotCancelled(run: seq<Sys>, actions: seq<Action>, j: nat) returns (i: nat)
    requires IsRun(run, actions) && j < |run| && run[j].runner.Serving?
    ensures i < j && actions[i].Recheck? && forall k :: i < k <= j ==> run[k].runner.Serving?
    ensures Enabled(run[j], Upload) <==> forall k :: i < k < j ==> !actions[k].Cancel?
  {
    assert Enabled(run[j - 1], actions[j - 1]) && run[j - 1 + 1] == Do(run[j - 1], actions[j - 1]);
    if run[j - 1].runner.Serving? {
      i := UploadWasNotCancelled(run, actions, j - 1);
    } else {
      i := j - 1;
    }
  }
}
