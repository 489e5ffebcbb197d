// The claim runner of inference/runner.go beside the poll loop of
// runtime/loops.go: what serving a claim says about the user.

module Site {
  import opened Basics
  import opened Preempt
  import Av = Availability
  import Claims = ClaimRunner
  import Agent = Presence

  // One machine; the runner sees it through the availability view only.
  datatype State = State(agent: Agent.Sys, runner: Claims.Runner, reported: seq<Claims.Failure>)

  datatype Step = AgentStep(step: Agent.Step) | RunnerStep(action: Claims.Action)

  function Seen(s: State): Claims.Sys {
    Claims.Sys(s.agent.view, s.runner, s.reported)
  }

  predicate Enabled(s: State, step: Step) {
    match step
    case AgentStep(a) => Agent.Enabled(s.agent, a)
    case RunnerStep(c) => !c.Push? && Claims.Enabled(Seen(s), c)
  }

  function Do(cfg: Config, s: State, step: Step): State
    requires Enabled(s, step)
  {
    match step
    case AgentStep(a) => s.(agent := Agent.Do(cfg, s.agent, a))
    case RunnerStep(c) =>
      var t := Claims.Do(Seen(s), c);
      s.(runner := t.runner, reported := t.reported)
  }

  ghost predicate IsRun(cfg: Config, run: seq<State>, steps: seq<Step>) {
    && |run| == |steps| + 1 && run[0] == State(Agent.BOOT, Claims.Top, [])
    && forall i :: 0 <= i < |steps| ==> Enabled(run[i], steps[i]) && run[i + 1] == Do(cfg, run[i], steps[i])
  }

  // ---- What the runner sees is a run of the claim protocol ----

  // The view update that a step of the agent amounts to; an unchanged input
  // where it publishes nothing.
  function InputOf(cfg: Config, s: Agent.Sys, step: Agent.Step): Av.Input {
    match step
    case EmitRelease => Av.Active(false)
    case CommitPoll(vanished) =>
      // A returning user is noticed, or one who left.
      Av.Active(s.control.state == Idling)
    case PublishReclaim => Av.ReclaimedIs(s.reclaimed)
    case PublishReady => Av.ReplicaReady(Agent.HasReady(s.table))
    case Drain => Av.Active(s.view.active || s.control.state != Draining)
    case _ => Av.Active(s.view.active)
  }

  lemma StepIsPush(cfg: Config, s: Agent.Sys, step: Agent.Step)
    requires Agent.Enabled(s, step) && Agent.Orderly(cfg, s) && Claims.Published(s.view)
    ensures Agent.Do(cfg, s, step).view == Av.Update(s.view, InputOf(cfg, s, step))
  {
  }

  function ActionOf(cfg: Config, s: State, step: Step): Claims.Action {
    match step
    case AgentStep(a) => Claims.Push(InputOf(cfg, s.agent, a))
    case RunnerStep(c) => c
  }

  lemma StepIsAction(cfg: Config, s: State, step: Step)
    requires Enabled(s, step) && Agent.Orderly(cfg, s.agent) && Claims.Published(s.agent.view)
    ensures Claims.Enabled(Seen(s), ActionOf(cfg, s, step))
    ensures Seen(Do(cfg, s, step)) == Claims.Do(Seen(s), ActionOf(cfg, s, step))
    ensures Claims.Published(Do(cfg, s, step).agent.view)
  {
    if step.AgentStep? {
      StepIsPush(cfg, s.agent, step.step);
      Claims.UpdateKeepsPublished(s.agent.view, InputOf(cfg, s.agent, step.step));
    }
  }

  lemma {:induction false} RunIsPublished(cfg: Config, run: seq<State>, steps: seq<Step>, n: nat)
    requires IsRun(cfg, run, steps) && n < |run|
    ensures Agent.Orderly(cfg, run[n].agent) && Claims.Published(run[n].agent.view)
  {
    if n > 0 {
      RunIsPublished(cfg, run, steps, n - 1);
      assert run[n - 1 + 1] == Do(cfg, run[n - 1], steps[n - 1]);
      StepIsAction(cfg, run[n - 1], steps[n - 1]);
      if steps[n - 1].AgentStep? {
        Agent.StepKeepsOrderly(cfg, run[n - 1].agent, steps[n - 1].step);
      }
    }
  }

  lemma SeenIsClaimRun(cfg: Config, run: seq<State>, steps: seq<Step>) returns (seen: seq<Claims.Sys>, actions: seq<Claims.Action>)
    requires IsRun(cfg, run, steps)
    ensures Claims.IsRun(seen, actions) && |seen| == |run|
    ensures forall i :: 0 <= i < |run| ==> seen[i] == Seen(run[i])
  {
    seen := seq(|run|, i requires 0 <= i < |run| => Seen(run[i]));
    actions := seq(|steps|, i requires 0 <= i < |steps| < |run| => ActionOf(cfg, run[i], steps[i]));
    forall i | 0 <= i < |steps|
      ensures Claims.Enabled(seen[i], actions[i]) && seen[i + 1] == Claims.Do(seen[i], actions[i])
    {
      RunIsPublished(cfg, run, steps, i);
      assert run[i + 1] == Do(cfg, run[i], steps[i]);
      StepIsAction(cfg, run[i], steps[i]);
    }
  }

  // ---- The user behind the view ----

  // A step that publishes readiness to a user whom the view has forgotten.
  predicate Exposes(s: State, step: Step) {
    step.AgentStep? && Agent.Exposes(s.agent, step.step)
  }

  ghost predicate Unexposed(run: seq<State>, steps: seq<Step>, n: nat)
    requires n <= |steps| < |run|
  {
    forall i :: 0 <= i < n ==> !Exposes(run[i], steps[i])
  }

  lemma StepExposesExactly(cfg: Config, s: State, step: Step)
    requires Agent.Orderly(cfg, s.agent) && Agent.AwayIfReady(s.agent) && Enabled(s, step)
    ensures Agent.AwayIfReady(Do(cfg, s, step).agent) <==> !Exposes(s, step)
  {
    if step.AgentStep? {
      Agent.StepExposesExactly(cfg, s.agent, step.step);
    }
  }

  // Over every run of the whole machine: the view is never ready while the
  // controller is ACTIVE if and only if no step exposes it.
  lemma {:induction false} ReadyMeansAwayExactly(cfg: Config, run: seq<State>, steps: seq<Step>, n: nat)
    requires IsRun(cfg, run, steps) && n < |run|
    ensures (forall i :: 0 <= i <= n ==> Agent.AwayIfReady(run[i].agent)) <==> Unexposed(run, steps, n)
  {
    if n > 0 {
      ReadyMeansAwayExactly(cfg, run, steps, n - 1);
      RunIsPublished(cfg, run, steps, n - 1);
      assert run[n - 1 + 1] == Do(cfg, run[n - 1], steps[n - 1]);
      if forall i :: 0 <= i <= n - 1 ==> Agent.AwayIfReady(run[i].agent) {
        StepExposesExactly(cfg, run[n - 1], steps[n - 1]);
      }
    }
  }

  // The user is away and has not reclaimed the machine, except perhaps inside
  // the tick that is just engaging the reclaim.
  predicate Away(s: State) {
    s.agent.control.state != Active && (s.agent.reclaimed ==> s.agent.phase == Agent.FlagSampled)
  }

  lemma ReadyIsAway(cfg: Config, run: seq<State>, steps: seq<Step>, n: nat)
    requires IsRun(cfg, run, steps) && n < |run| && Unexposed(run, steps, n) && run[n].agent.view.ready
    ensures Away(run[n])
  {
    ReadyMeansAwayExactly(cfg, run, steps, n);
    RunIsPublished(cfg, run, steps, n);
    assert Agent.AwayIfReady(run[n].agent);
  }

  ghost predicate AwaySince(run: seq<State>, i: nat, j: nat, snap: Av.Snapshot)
    requires i <= j < |run|
  {
    Av.SnapshotOf(run[i].agent.view) == snap && forall k :: i <= k <= j ==> Away(run[k])
  }

  // On every interleaving of the poll loop, the supervisor, the reconciler and
  // the runner that exposes nothing: a claim that passes the recheck was
  // admitted at a moment since which the user was away.
  lemma ServedClaimMeansAway(cfg: Config, run: seq<State>, steps: seq<Step>, j: nat)
    requires IsRun(cfg, run, steps) && j < |steps| && Unexposed(run, steps, j)
    requires run[j].runner.Admitted? && run[j + 1].runner.Serving?
    ensures exists i: nat :: i <= j && AwaySince(run, i, j, run[j].runner.snap)
  {
    var seen, actions := SeenIsClaimRun(cfg, run, steps);
    var snap := run[j].runner.snap;
    assert seen[j] == Seen(run[j]) && seen[j + 1] == Seen(run[j + 1]);
    Claims.ServedClaimWasNeverInterrupted(seen, actions, j);
    var i: nat :| i <= j && Claims.UninterruptedSince(seen, i, j, snap);
    assert seen[i] == Seen(run[i]);
    forall k | i <= k <= j
      ensures Away(run[k])
    {
      assert seen[k] == Seen(run[k]) && Av.Eligible(seen[k].view);
      RunIsPublished(cfg, run, steps, k);
      ReadyIsAway(cfg, run, steps, k);
    }
    assert AwaySince(run, i, j, snap);
  }

  // On such a run, while a claim is being served, the user is away or the
  // channel it watches is closed.
  lemma ServingMeansAway(cfg: Config, run: seq<State>, steps: seq<Step>, n: nat)
    requires IsRun(cfg, run, steps) && n < |run| && Unexposed(run, steps, n)
    requires run[n].runner.Serving?
    ensures Away(run[n]) || run[n].runner.snap.changed in run[n].agent.view.closed
  {
    var seen, actions := SeenIsClaimRun(cfg, run, steps);
    Claims.ServiceStopsWithAvailability(seen, actions, n);
    assert seen[n] == Seen(run[n]);
    if run[n].runner.snap.changed !in run[n].agent.view.closed {
      RunIsPublished(cfg, run, steps, n);
      ReadyIsAway(cfg, run, steps, n);
    }
  }

  // ---- Which runs expose nothing, and one that does ----

  ghost predicate SoundUntil(cfg: Config, run: seq<State>, steps: seq<Step>, n: nat)
    requires IsRun(cfg, run, steps) && n <= |steps|
  {
    forall i :: 0 <= i < n && steps[i].AgentStep? ==> Agent.Sound(run[i].agent, steps[i].step)
  }

  lemma {:induction false} SoundRunsExposeNothing(cfg: Config, run: seq<State>, steps: seq<Step>, n: nat)
    requires IsRun(cfg, run, steps) && n < |run| && SoundUntil(cfg, run, steps, n)
    ensures Agent.ViewInv(cfg, run[n].agent) && Unexposed(run, steps, n)
  {
    if n > 0 {
      SoundRunsExposeNothing(cfg, run, steps, n - 1);
      assert run[n - 1 + 1] == Do(cfg, run[n - 1], steps[n - 1]);
      if steps[n - 1].AgentStep? {
        Agent.StepKeepsViewInv(cfg, run[n - 1].agent, steps[n - 1].step);
      }
    }
  }

  // A run of the agent with the runner at rest.
  lemma AtRest(cfg: Config, agents: seq<Agent.Sys>, agentSteps: seq<Agent.Step>) returns (run: seq<State>, steps: seq<Step>)
    requires Agent.IsRun(cfg, agents, agentSteps)
    ensures IsRun(cfg, run, steps) && run[|steps|] == State(agents[|agentSteps|], Claims.Top, [])
  {
    run := seq(|agents|, i requires 0 <= i < |agents| => State(agents[i], Claims.Top, []));
    steps := seq(|agentSteps|, i requires 0 <= i < |agentSteps| => AgentStep(agentSteps[i]));
  }

  lemma ExtendRun(cfg: Config, run: seq<State>, steps: seq<Step>, step: Step) returns (run': seq<State>, steps': seq<Step>)
    requires IsRun(cfg, run, steps) && Enabled(run[|steps|], step)
    ensures IsRun(cfg, run', steps') && run'[|steps'|] == Do(cfg, run[|steps|], step)
  {
    run', steps' := run + [Do(cfg, run[|steps|], step)], steps + [step];
  }

  // Whenever the view is ready and the runner at rest, whatever the user does,
  // a claim can be admitted, rechecked and served on an open channel: with
  // ReadyMeansAwayExactly, exposing runs are exactly the ones to exclude.
  lemma ReadyIsServed(cfg: Config, run: seq<State>, steps: seq<Step>) returns (run': seq<State>, steps': seq<Step>)
    requires IsRun(cfg, run, steps) && run[|steps|].runner.Top? && run[|steps|].agent.view.ready
    ensures IsRun(cfg, run', steps') && run'[|steps'|].agent == run[|steps|].agent
    ensures run'[|steps'|].runner.Serving? && run'[|steps'|].runner.snap.changed !in run[|steps|].agent.view.closed
  {
    RunIsPublished(cfg, run, steps, |steps|);
    run', steps' := ExtendRun(cfg, run, steps, RunnerStep(Claims.TakeSnapshot));
    run', steps' := ExtendRun(cfg, run', steps', RunnerStep(Claims.ReceiveClaim));
    run', steps' := ExtendRun(cfg, run', steps', RunnerStep(Claims.Recheck));
  }

  // A late child exposes the machine, and a claim is admitted, rechecked and
  // served while the controller is ACTIVE, on a channel that stays open.
  lemma LateChildIsServed(cfg: Config, id: string) returns (run: seq<State>, steps: seq<Step>)
    requires cfg.pollIntervalS > 0.0
    ensures IsRun(cfg, run, steps)
    ensures var s := run[|steps|];
      s.runner.Serving? && s.agent.control.state == Active && s.runner.snap.changed !in s.agent.view.closed
  {
    var agents, agentSteps := Agent.LateChildMakesReady(cfg, id);
    run, steps := AtRest(cfg, agents, agentSteps);
    run, steps := ReadyIsServed(cfg, run, steps);
  }
}
