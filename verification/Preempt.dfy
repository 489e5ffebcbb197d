// preempt/controller.go (and its Python twin), preempt/reclaim.go and the poll
// loop of runtime/loops.go, over the supervisor's replicas.

module Preempt {
  import opened Basics
  import opened Replicas
  import opened Supervision
  import opened EventSink

  datatype AgentState = Idling | Active | Draining

  datatype Config = Config(pollIntervalS: real, idleThresholdS: real, vramEvictAfterS: real)

  datatype Control = Control(state: AgentState, prevIdleS: Option<real>, activeSince: Option<real>, escalated: bool)

  const START := Control(Idling, None, None, false)

  predicate FreshInput(cfg: Config, c: Control, idleS: real) {
    idleS < cfg.pollIntervalS || (c.prevIdleS.Some? && idleS < c.prevIdleS.value)
  }

  // This poll stops the suspended GPU replicas.
  predicate Escalates(cfg: Config, c: Control, idleS: real, now: real) {
    && c.state == Active && idleS < cfg.idleThresholdS
    && !c.escalated && c.activeSince.Some? && now - c.activeSince.value >= cfg.vramEvictAfterS
  }

  predicate Evictable(r: Replica) {
    r.state == Suspended && r.gpu
  }

  function Evicted(t: Table): Table {
    map id | id in t :: if Evictable(t[id]) then Down(t[id]) else t[id]
  }

  // The statuses that name an evictable replica, in order.
  function ToEvict(statuses: seq<Status>): (ids: seq<string>)
    ensures forall s | s in statuses && s.state == Suspended && s.gpu :: s.id in ids
    ensures forall id | id in ids :: exists s | s in statuses :: s.id == id && s.state == Suspended && s.gpu
  {
    if statuses == [] then []
    else
      var n := |statuses| - 1;
      assert statuses == statuses[..n] + [statuses[n]];
      var ids := ToEvict(statuses[..n]);
      if statuses[n].state == Suspended && statuses[n].gpu then ids + [statuses[n].id] else ids
  }

  lemma EvictingAll(t: Table, statuses: seq<Status>)
    requires IsProjection(statuses, t)
    ensures EndedAll(t, ToEvict(statuses)) == Evicted(t)
  {
    EndedAllRows(t, ToEvict(statuses));
    forall id | id in t
      ensures id in ToEvict(statuses) <==> Evictable(t[id])
    {
      assert StatusOf(t, id) in statuses;
    }
  }

  function Ids(statuses: seq<Status>): (ids: seq<string>)
    ensures |ids| == |statuses| && forall i :: 0 <= i < |ids| ==> ids[i] == statuses[i].id
  {
    seq(|statuses|, i requires 0 <= i < |statuses| => statuses[i].id)
  }

  function AllDown(t: Table): Table {
    map id | id in t :: Down(t[id])
  }

  lemma EndingAll(t: Table, statuses: seq<Status>)
    requires IsProjection(statuses, t)
    ensures EndedAll(t, Ids(statuses)) == AllDown(t)
  {
    EndedAllRows(t, Ids(statuses));
    forall id | id in t
      ensures id in Ids(statuses)
    {
      var i :| 0 <= i < |statuses| && statuses[i] == StatusOf(t, id);
      assert Ids(statuses)[i] == id;
    }
  }

  datatype Outcome = Outcome(control: Control, table: Table, emitted: seq<Kind>)

  // One poll, whose signal goes to the replicas of an earlier snapshot.
  function PolledSince(cfg: Config, c: Control, t: Table, snapshot: set<string>, idleS: real, now: real, vanished: set<string>): Outcome {
    match c.state
    case Draining => Outcome(c, t, [])
    case Idling =>
      if FreshInput(cfg, c, idleS) then
        Outcome(Control(Active, Some(idleS), Some(now), false), Commit(t, snapshot, vanished, true), [UserReturned])
      else Outcome(c.(prevIdleS := Some(idleS)), t, [])
    case Active =>
      if idleS >= cfg.idleThresholdS then
        Outcome(Control(Idling, Some(idleS), None, false), Commit(t, snapshot, vanished, false), [UserIdle])
      else if Escalates(cfg, c, idleS, now) then
        Outcome(c.(prevIdleS := Some(idleS), escalated := true), Evicted(t), [])
      else Outcome(c.(prevIdleS := Some(idleS)), t, [])
  }

  // One poll with nothing in between.
  function Polled(cfg: Config, c: Control, t: Table, idleS: real, now: real, vanished: set<string>): Outcome {
    PolledSince(cfg, c, t, Live(t), idleS, now, vanished)
  }

  // The poll suspends or resumes.
  predicate Signals(cfg: Config, c: Control, idleS: real) {
    (c.state == Idling && FreshInput(cfg, c, idleS)) || (c.state == Active && idleS >= cfg.idleThresholdS)
  }

  // ---- What a poll does ----

  // Input is fresh, so an idle controller yields: everything that is running is
  // suspended with its prior state kept, and the user's return is told.
  lemma PollYields(cfg: Config, c: Control, t: Table, idleS: real, now: real, vanished: set<string>)
    requires Coherent(t) && c.state == Idling
    requires idleS < cfg.pollIntervalS || (c.prevIdleS.Some? && idleS < c.prevIdleS.value)
    ensures var o := Polled(cfg, c, t, idleS, now, vanished);
      && o.control == Control(Active, Some(idleS), Some(now), false) && o.emitted == [UserReturned]
      && o.table.Keys == t.Keys
      && forall id | id in t ::
           var row, row' := t[id], o.table[id];
           if !row.live then row' == row
           else if id in vanished then row'.state == Stopped && !row'.live
           else row'.live && row'.state == Suspended && Prior(row') == Prior(row)
  {
    CommitCoherentExactly(t, Live(t), vanished, true);
  }

  // The user has been idle long enough, so an active controller resumes:
  // everything suspended is back in its prior state, and it is told.
  lemma PollResumes(cfg: Config, c: Control, t: Table, idleS: real, now: real, vanished: set<string>)
    requires Coherent(t) && c.state == Active && idleS >= cfg.idleThresholdS
    ensures var o := Polled(cfg, c, t, idleS, now, vanished);
      && o.control == Control(Idling, Some(idleS), None, false) && o.emitted == [UserIdle]
      && o.table.Keys == t.Keys
      && forall id | id in t ::
           var row, row' := t[id], o.table[id];
           if !row.live then row' == row
           else if id in vanished then row'.state == Stopped && !row'.live
           else row'.live && row'.state == Prior(row) && row'.saved == None
  {
    CommitCoherentExactly(t, Live(t), vanished, false);
  }

  // Any other poll changes no state, tells nothing and remembers the reading;
  // it touches replicas only to evict, once the time has come.
  lemma PollStays(cfg: Config, c: Control, t: Table, idleS: real, now: real, vanished: set<string>)
    requires c.state == Idling ==> idleS >= cfg.pollIntervalS && (c.prevIdleS.Some? ==> idleS >= c.prevIdleS.value)
    requires c.state == Active ==> idleS < cfg.idleThresholdS
    ensures var o := Polled(cfg, c, t, idleS, now, vanished);
      var due := c.state == Active && !c.escalated && c.activeSince.Some? && now - c.activeSince.value >= cfg.vramEvictAfterS;
      && o.emitted == [] && o.control.state == c.state && o.control.activeSince == c.activeSince
      && (c.state != Draining ==> o.control.prevIdleS == Some(idleS)) && (c.state == Draining ==> o.control == c)
      && o.control.escalated == (c.escalated || due)
      && o.table == if due then Evicted(t) else t
  {
  }

  // An eviction leaves no GPU replica but stopped ones if and only if every one
  // was suspended or stopped before; it touches nothing but suspended ones.
  lemma EvictedExactly(t: Table)
    ensures Evicted(t).Keys == t.Keys
    ensures (forall id | id in t && t[id].gpu :: Evicted(t)[id].state == Stopped)
       <==> (forall id | id in t && t[id].gpu :: t[id].state in {Suspended, Stopped})
    ensures forall id | id in t && !(t[id].gpu && t[id].state == Suspended) :: Evicted(t)[id] == t[id]
  {
    if id :| id in t && t[id].gpu && t[id].state !in {Suspended, Stopped} {
      assert Evicted(t)[id].state != Stopped;
    }
  }

  class Controller {
    const cfg: Config
    const supervisor: Supervisor
    var state: AgentState
    var prevIdleS: Option<real>
    var activeSince: Option<real>
    var escalated: bool
    var emitted: seq<Kind>     // what the sink was given

    function Now(): Control
      reads this
    {
      Control(state, prevIdleS, activeSince, escalated)
    }

    constructor (cfg: Config, supervisor: Supervisor)
      ensures this.cfg == cfg && this.supervisor == supervisor && Now() == START && emitted == []
    {
      this.cfg := cfg;
      this.supervisor := supervisor;
      state, prevIdleS, activeSince, escalated, emitted := Idling, None, None, false, [];
    }

    method OnPoll(idleS: real, now: real, vanished: set<string>) returns (s: AgentState)
      requires supervisor.Valid()
      modifies this, supervisor
      ensures supervisor.Valid() && s == state
      ensures Outcome(Now(), supervisor.Known(), emitted)
           == var o := Polled(cfg, old(Now()), old(supervisor.Known()), idleS, now, vanished); o.(emitted := old(emitted) + o.emitted)
    {
      match state {
        case Draining => return state;
        case Idling =>
          if idleS < cfg.pollIntervalS || (prevIdleS.Some? && idleS < prevIdleS.value) {
            EnterActive(now, vanished);
          }
        case Active =>
          if idleS >= cfg.idleThresholdS {
            EnterIdle(vanished);
          } else {
            MaybeEscalate(now);
          }
      }
      prevIdleS := Some(idleS);
      return state;
    }

    method Drain()
      modifies this
      ensures Now() == old(Now()).(state := Draining)
      ensures emitted == old(emitted) + if old(state) == Draining then [] else [AgentStopping]
    {
      if state == Draining {
        return;
      }
      state := Draining;
      emitted := emitted + [AgentStopping];
    }

    // Suspend first, emit last.
    method EnterActive(now: real, vanished: set<string>)
      requires supervisor.Valid()
      modifies this, supervisor
      ensures supervisor.Valid() && supervisor.Known() == Signal(old(supervisor.Known()), vanished, true)
      ensures Now() == Control(Active, old(prevIdleS), Some(now), false) && emitted == old(emitted) + [UserReturned]
    {
      supervisor.SuspendAll(vanished);
      state := Active;
      activeSince := Some(now);
      escalated := false;
      emitted := emitted + [UserReturned];
    }

    method EnterIdle(vanished: set<string>)
      requires supervisor.Valid()
      modifies this, supervisor
      ensures supervisor.Valid() && supervisor.Known() == Signal(old(supervisor.Known()), vanished, false)
      ensures Now() == Control(Idling, old(prevIdleS), None, false) && emitted == old(emitted) + [UserIdle]
    {
      supervisor.ResumeAll(vanished);
      state := Idling;
      activeSince := None;
      escalated := false;
      emitted := emitted + [UserIdle];
    }

    method MaybeEscalate(now: real)
      requires supervisor.Valid()
      modifies `escalated, supervisor
      ensures supervisor.Valid()
      ensures var due := !old(escalated) && activeSince.Some? && now - activeSince.value >= cfg.vramEvictAfterS;
        && escalated == (old(escalated) || due)
        && supervisor.Known() == if due then Evicted(old(supervisor.Known())) else old(supervisor.Known())
    {
      if escalated || activeSince.None? {
        return;
      }
      if now - activeSince.value < cfg.vramEvictAfterS {
        return;
      }
      StopSuspendedGpu();
      escalated := true;
    }

    // The loop over the statuses inside maybeEscalate.
    method StopSuspendedGpu()
      requires supervisor.Valid()
      modifies supervisor
      ensures supervisor.Valid() && supervisor.Known() == Evicted(old(supervisor.Known()))
    {
      ghost var t := supervisor.Known();
      var statuses := supervisor.Statuses();
      EvictingAll(t, statuses);
      for i := 0 to |statuses|
        invariant supervisor.Valid() && supervisor.Known() == EndedAll(t, ToEvict(statuses[..i]))
      {
        EvictOneMore(t, statuses, i);
        if statuses[i].state == Suspended && statuses[i].gpu {
          supervisor.StopReplica(statuses[i].id);
        }
      }
      assert statuses[..|statuses|] == statuses;
    }
  }

  lemma EvictOneMore(t: Table, statuses: seq<Status>, i: nat)
    requires i < |statuses|
    ensures var u := EndedAll(t, ToEvict(statuses[..i]));
      EndedAll(t, ToEvict(statuses[..i + 1]))
      == if statuses[i].state == Suspended && statuses[i].gpu then Ended(u, statuses[i].id) else u
  {
    assert statuses[..i + 1][..i] == statuses[..i];
    var ids := ToEvict(statuses[..i]);
    assert (ids + [statuses[i].id])[..|ids|] == ids;
  }

  lemma EndOneMore(t: Table, ids: seq<string>, i: nat)
    requires i < |ids|
    ensures EndedAll(t, ids[..i + 1]) == Ended(EndedAll(t, ids[..i]), ids[i])
  {
    assert ids[..i + 1][..i] == ids[..i];
  }

  class ReclaimController {
    const supervisor: Supervisor
    var reclaimed: bool

    constructor (supervisor: Supervisor)
      ensures this.supervisor == supervisor && !reclaimed
    {
      this.supervisor := supervisor;
      reclaimed := false;
    }

    // `wants`: the flag file is present.  Returns true on the rising edge too,
    // when the stop of every replica is handed to a background runner.
    method OnPoll(wants: bool, vanished: set<string>) returns (now: bool, stop: bool)
      requires supervisor.Valid()
      modifies this, supervisor
      ensures supervisor.Valid() && now == reclaimed == wants
      ensures stop == (wants && !old(reclaimed))
      ensures supervisor.Known() == if stop then Signal(old(supervisor.Known()), vanished, true) else old(supervisor.Known())
    {
      stop := wants && !reclaimed;
      if stop {
        supervisor.SuspendAll(vanished);
        reclaimed := true;
      } else if !wants && reclaimed {
        reclaimed := false;
      }
      now := reclaimed;
    }

    method StopAllReplicas()
      requires supervisor.Valid()
      modifies supervisor
      ensures supervisor.Valid() && supervisor.Known() == AllDown(old(supervisor.Known()))
    {
      ghost var t := supervisor.Known();
      var statuses := supervisor.Statuses();
      EndingAll(t, statuses);
      for i := 0 to |statuses|
        invariant supervisor.Valid() && supervisor.Known() == EndedAll(t, Ids(statuses)[..i])
      {
        EndOneMore(t, Ids(statuses), i);
        supervisor.StopReplica(statuses[i].id);
      }
      assert Ids(statuses)[..|statuses|] == Ids(statuses);
    }
  }
}

// The poll loop, the background stops, the health checks, the reconciler and
// the availability view on one machine.  A signal is a snapshot and a commit,
// and a start is a guard and a registration, so anything may fall in between:
// on which runs nothing runs while the user is present or has reclaimed the
// machine, and when the view is ready.
module Presence {
  import opened Basics
  import opened Replicas
  import opened Preempt
  import opened EventSink
  import Av = Availability

  // Where the poll goroutine is within a tick.
  datatype Phase =
    | BetweenTicks
    | Engaging(snapshot: set<string>)                             // reclaim: between snapshot and commit
    | Released                                                    // the flag went away: user_idle is about to be emitted
    | FlagSampled                                                 // the controller may be polled
    | Signalling(snapshot: set<string>, idleS: real, now: real)   // controller: between snapshot and commit
    | ControllerPolled
    | ReclaimPublished                                            // replica readiness is published next

  // `pending`: the model whose start has passed the guard and is spawning.
  datatype Sys = Sys(
    control: Control, reclaimed: bool, primed: bool, phase: Phase,
    table: Table, view: Av.View, pending: Option<string>)

  const BOOT := Sys(START, false, false, BetweenTicks, map[], Av.INITIAL, None)

  datatype Step =
    | PollReclaim(wants: bool)
    | CommitReclaim(vanished: set<string>)
    | EmitRelease
    | PollController(idleS: real, now: real)
    | CommitPoll(vanished: set<string>)
    | PublishReclaim                               // the controller may have been skipped
    | PublishReady
    | Drain
    | StopOne(id: string)                          // by anyone: eviction, reclaim, reconcile
    | Crash(id: string)
    | Healthy(id: string)
    | PassGuard(id: string)                        // eligible, and not running yet
    | Register(port: int, gpu: bool)               // the spawned child is registered
    | SpawnFails

  // A controller holds its lock from the snapshot to the new state.
  predicate Locked(s: Sys) {
    s.phase.Engaging? || s.phase.Signalling?
  }

  // servingEligible.
  predicate Eligible(s: Sys) {
    !Locked(s) && s.primed && s.control.state == Idling && !s.reclaimed
  }

  predicate Enabled(s: Sys, step: Step) {
    match step
    case PollReclaim(_) => s.phase == BetweenTicks
    case CommitReclaim(_) => s.phase.Engaging?
    case EmitRelease => s.phase == Released
    case PollController(_, _) => s.phase == FlagSampled && !s.reclaimed
    case CommitPoll(_) => s.phase.Signalling?
    case PublishReclaim => s.phase == FlagSampled || s.phase == ControllerPolled
    case PublishReady => s.phase == ReclaimPublished
    case Drain => !s.phase.Signalling?
    case PassGuard(id) => s.pending.None? && Eligible(s) && id !in Live(s.table)
    case Register(_, _) => s.pending.Some?
    case SpawnFails => s.pending.Some?
    case _ => true
  }

  // What the sequencing sink does to the view for an event, before enqueueing it.
  function Sunk(v: Av.View, kind: Kind): Av.View {
    Av.Update(v, Av.Active(kind != UserIdle))
  }

  predicate HasReady(t: Table) {
    exists id | id in t :: t[id].state == Ready
  }

  function PolledTo(s: Sys, o: Outcome): Sys {
    s.(phase := ControllerPolled, control := o.control, table := o.table,
       view := if o.emitted == [] then s.view else Sunk(s.view, o.emitted[0]))
  }

  function Do(cfg: Config, s: Sys, step: Step): Sys
    requires Enabled(s, step)
  {
    match step
    case PollReclaim(wants) =>
      if wants && !s.reclaimed then s.(phase := Engaging(Live(s.table)))
      else s.(phase := if s.reclaimed && !wants then Released else FlagSampled, reclaimed := wants)
    case CommitReclaim(vanished) =>
      s.(phase := FlagSampled, reclaimed := true, table := Commit(s.table, s.phase.snapshot, vanished, true))
    case EmitRelease => s.(phase := FlagSampled, view := Sunk(s.view, UserIdle))
    case PollController(idleS, now) =>
      if Signals(cfg, s.control, idleS) then s.(phase := Signalling(Live(s.table), idleS, now))
      else PolledTo(s, Polled(cfg, s.control, s.table, idleS, now, {}))
    case CommitPoll(vanished) =>
      PolledTo(s, PolledSince(cfg, s.control, s.table, s.phase.snapshot, s.phase.idleS, s.phase.now, vanished))
    case PublishReclaim => s.(phase := ReclaimPublished, view := Av.Update(s.view, Av.ReclaimedIs(s.reclaimed)))
    case PublishReady =>
      s.(phase := BetweenTicks, primed := true, view := Av.Update(s.view, Av.ReplicaReady(HasReady(s.table))))
    case Drain =>
      if s.control.state == Draining then s
      else s.(control := s.control.(state := Draining), view := Sunk(s.view, AgentStopping))
    case StopOne(id) => s.(table := Ended(s.table, id))
    case Crash(id) => s.(table := Ended(s.table, id))
    case Healthy(id) => s.(table := BecameReady(s.table, id))
    case PassGuard(id) => s.(pending := Some(id))
    case Register(port, gpu) => s.(table := Registered(s.table, s.pending.value, port, gpu), pending := None)
    case SpawnFails => s.(pending := None)
  }

  ghost predicate IsRun(cfg: Config, run: seq<Sys>, steps: seq<Step>) {
    && |run| == |steps| + 1 && run[0] == BOOT
    && forall i :: 0 <= i < |steps| ==> Enabled(run[i], steps[i]) && run[i + 1] == Do(cfg, run[i], steps[i])
  }

  // ---- What holds on every run ----

  // The reconciler starts one replica at a time, so what is being spawned has
  // no child yet.
  predicate OneStart(s: Sys) {
    s.pending.Some? ==> s.pending.value !in Live(s.table)
  }

  // Where the reclaim flag and the view's copy of it stand in each phase.
  predicate FlagsAgree(s: Sys) {
    match s.phase
    case BetweenTicks => s.view.reclaimed == s.reclaimed
    case ReclaimPublished => s.view.reclaimed == s.reclaimed
    case Engaging(_) => !s.view.reclaimed && !s.reclaimed
    case Released => s.view.reclaimed && !s.reclaimed
    case FlagSampled => true
    case Signalling(_, _, _) => !s.reclaimed
    case ControllerPolled => !s.reclaimed
  }

  predicate Orderly(cfg: Config, s: Sys) {
    && OneStart(s) && FlagsAgree(s)
    && s.view.ready == Av.Eligible(s.view)
    && (s.phase.Signalling? ==> Signals(cfg, s.control, s.phase.idleS))
  }

  lemma StepKeepsOneStart(cfg: Config, s: Sys, step: Step)
    requires OneStart(s) && Enabled(s, step)
    ensures OneStart(Do(cfg, s, step))
  {
  }

  lemma StepKeepsOrderly(cfg: Config, s: Sys, step: Step)
    requires Orderly(cfg, s) && Enabled(s, step)
    ensures Orderly(cfg, Do(cfg, s, step))
  {
    StepKeepsOneStart(cfg, s, step);
  }

  lemma {:induction false} RunIsOrderly(cfg: Config, run: seq<Sys>, steps: seq<Step>, n: nat)
    requires IsRun(cfg, run, steps) && n < |run|
    ensures Orderly(cfg, run[n])
  {
    if n > 0 {
      RunIsOrderly(cfg, run, steps, n - 1);
      StepKeepsOrderly(cfg, run[n - 1], steps[n - 1]);
    }
  }

  // ---- Nothing runs while the machine is the user's ----

  predicate UsersMachine(s: Sys) {
    s.control.state == Active || s.reclaimed
  }

  ghost predicate NothingRuns(t: Table) {
    forall id | id in t :: t[id].state in {Suspended, Stopped}
  }

  ghost predicate Inv(s: Sys) {
    Coherent(s.table) && (UsersMachine(s) ==> NothingRuns(s.table))
  }

  // Nothing of what a suspend snapshotted was stopped since, and nothing that
  // it did not snapshot is running.
  ghost predicate Covered(t: Table, snapshot: set<string>, vanished: set<string>) {
    && CleanCommit(t, snapshot, vanished, true)
    && forall id | id in t && id !in snapshot :: t[id].state in {Suspended, Stopped}
  }

  lemma SuspendCommitsExactly(t: Table, snapshot: set<string>, vanished: set<string>)
    requires Coherent(t)
    ensures var t' := Commit(t, snapshot, vanished, true);
      Coherent(t') && NothingRuns(t') <==> Covered(t, snapshot, vanished)
  {
    CommitCoherentExactly(t, snapshot, vanished, true);
    var t' := Commit(t, snapshot, vanished, true);
    if id :| id in t && id !in snapshot && t[id].state !in {Suspended, Stopped} {
      assert id in t' && t'[id].state !in {Suspended, Stopped};
    }
  }

  // The registration of a child keeps the property exactly when the machine is
  // not the user's at that moment: the guard evaluated earlier is not enough.
  lemma StartKeepsExactly(s: Sys, id: string, port: int, gpu: bool)
    requires Inv(s) && id !in Live(s.table)
    ensures Inv(s.(table := Registered(s.table, id, port, gpu))) <==> !UsersMachine(s)
  {
    var t := Registered(s.table, id, port, gpu);
    assert id in t && t[id].state == Loading;
  }

  // The step commits a suspend.
  predicate Suspends(s: Sys, step: Step) {
    step.CommitReclaim? || (step.CommitPoll? && s.control.state == Idling)
  }

  // A child registers only while the machine is not the user's, and a suspend
  // is committed only over what it snapshotted.
  ghost predicate Sound(s: Sys, step: Step)
    requires Enabled(s, step)
  {
    && (step.Register? ==> !UsersMachine(s))
    && (Suspends(s, step) ==> Covered(s.table, s.phase.snapshot, step.vanished))
  }

  lemma StepKeepsInvExactly(cfg: Config, s: Sys, step: Step)
    requires Inv(s) && Orderly(cfg, s) && Enabled(s, step)
    ensures Inv(Do(cfg, s, step)) <==> Sound(s, step)
  {
    match step
    case CommitReclaim(vanished) => SuspendCommitsExactly(s.table, s.phase.snapshot, vanished);
    case CommitPoll(vanished) =>
      SuspendCommitsExactly(s.table, s.phase.snapshot, vanished);
      CommitCoherentExactly(s.table, s.phase.snapshot, vanished, false);
    case Register(port, gpu) => StartKeepsExactly(s, s.pending.value, port, gpu);
    case _ =>
  }

  ghost predicate SoundUntil(run: seq<Sys>, steps: seq<Step>, n: nat)
    requires n <= |steps| < |run|
    requires forall i :: 0 <= i < |steps| ==> Enabled(run[i], steps[i])
  {
    forall i :: 0 <= i < n ==> Sound(run[i], steps[i])
  }

  // Over every run of polls, reclaim edges, health results, crashes, stops and
  // reconcile starts, with signals and starts in two steps each: the maps are
  // coherent and nothing runs while the machine is the user's, throughout, if
  // and only if every registration and every commit is sound.
  lemma {:induction false} NothingRunsExactly(cfg: Config, run: seq<Sys>, steps: seq<Step>, n: nat)
    requires IsRun(cfg, run, steps) && n < |run|
    ensures (forall i :: 0 <= i <= n ==> Inv(run[i])) <==> SoundUntil(run, steps, n)
  {
    if n > 0 {
      NothingRunsExactly(cfg, run, steps, n - 1);
      RunIsOrderly(cfg, run, steps, n - 1);
      assert run[n - 1 + 1] == Do(cfg, run[n - 1], steps[n - 1]);
      if forall i :: 0 <= i <= n - 1 ==> Inv(run[i]) {
        StepKeepsInvExactly(cfg, run[n - 1], steps[n - 1]);
      }
    }
  }

  // Each signal and each guarded start taken as one step: its second half
  // follows the first at once.
  ghost predicate Atomic(steps: seq<Step>) {
    forall i :: 0 <= i < |steps| ==>
      && (steps[i].Register? ==> i > 0 && steps[i - 1].PassGuard?)
      && (steps[i].CommitReclaim? ==> i > 0 && steps[i - 1].PollReclaim?)
      && (steps[i].CommitPoll? ==> i > 0 && steps[i - 1].PollController?)
  }

  lemma {:induction false} AtomicRunsAreSound(cfg: Config, run: seq<Sys>, steps: seq<Step>, n: nat)
    requires IsRun(cfg, run, steps) && n <= |steps| && Atomic(steps)
    ensures SoundUntil(run, steps, n)
  {
    if n > 0 {
      AtomicRunsAreSound(cfg, run, steps, n - 1);
      NothingRunsExactly(cfg, run, steps, n - 1);
      assert Inv(run[n - 1]);
      if n > 1 {
        assert Enabled(run[n - 2], steps[n - 2]) && run[n - 2 + 1] == Do(cfg, run[n - 2], steps[n - 2]);
      }
      assert Sound(run[n - 1], steps[n - 1]);
    }
  }

  lemma NothingRunsForPresentUser(cfg: Config, run: seq<Sys>, steps: seq<Step>, n: nat)
    requires IsRun(cfg, run, steps) && n < |run| && Atomic(steps)
    ensures Coherent(run[n].table)
    ensures UsersMachine(run[n]) ==> NothingRuns(run[n].table)
  {
    AtomicRunsAreSound(cfg, run, steps, n);
    NothingRunsExactly(cfg, run, steps, n);
    assert Inv(run[n]);
  }

  // ---- What the signals of a run do ----

  // On sound runs, the poll that notices the user suspends what it snapshotted,
  // keeps what each was, and takes the machine out of the view.
  lemma YieldSuspends(cfg: Config, run: seq<Sys>, steps: seq<Step>, i: nat)
    requires IsRun(cfg, run, steps) && i < |steps| && SoundUntil(run, steps, i)
    requires steps[i].CommitPoll? && run[i].control.state == Idling
    ensures var s, s' := run[i], run[i + 1];
      && s'.control.state == Active && s'.control.activeSince == Some(s.phase.now) && !s'.control.escalated
      && s'.view.active && !s'.view.ready
      && forall id | id in s.phase.snapshot && id in Live(s.table) && id !in steps[i].vanished ::
           id in s'.table && s'.table[id].state == Suspended && Prior(s'.table[id]) == Prior(s.table[id])
  {
    NothingRunsExactly(cfg, run, steps, i);
    RunIsOrderly(cfg, run, steps, i);
    assert Inv(run[i]) && run[i + 1] == Do(cfg, run[i], steps[i]);
  }

  // And the poll that finds the user gone brings it all back.
  lemma IdleResumes(cfg: Config, run: seq<Sys>, steps: seq<Step>, i: nat)
    requires IsRun(cfg, run, steps) && i < |steps| && SoundUntil(run, steps, i)
    requires steps[i].CommitPoll? && run[i].control.state == Active
    ensures var s, s' := run[i], run[i + 1];
      && s'.control.state == Idling && s'.control.activeSince == None && !s'.view.active
      && forall id | id in s.phase.snapshot && id in Live(s.table) && id !in steps[i].vanished ::
           id in s'.table && s'.table[id].live && s'.table[id].state == Prior(s.table[id])
  {
    NothingRunsExactly(cfg, run, steps, i);
    RunIsOrderly(cfg, run, steps, i);
    assert Inv(run[i]) && run[i + 1] == Do(cfg, run[i], steps[i]);
  }

  // A drain takes the machine out of the view for good.
  lemma DrainWithdraws(cfg: Config, run: seq<Sys>, steps: seq<Step>, i: nat)
    requires IsRun(cfg, run, steps) && i < |steps| && steps[i] == Drain && run[i].control.state != Draining
    ensures run[i + 1].control.state == Draining && run[i + 1].view.active && !run[i + 1].view.ready
  {
    RunIsOrderly(cfg, run, steps, i);
    assert run[i + 1] == Do(cfg, run[i], steps[i]);
  }

  // ---- Runs on which it fails ----

  lemma ExtendRun(cfg: Config, run: seq<Sys>, steps: seq<Step>, step: Step) returns (run': seq<Sys>, steps': seq<Step>)
    requires IsRun(cfg, run, steps) && Enabled(run[|steps|], step)
    ensures IsRun(cfg, run', steps') && run'[|steps'|] == Do(cfg, run[|steps|], step)
  {
    run', steps' := run + [Do(cfg, run[|steps|], step)], steps + [step];
  }

  // The daemon comes up on an idle machine.
  lemma IdleBoot(cfg: Config) returns (run: seq<Sys>, steps: seq<Step>)
    ensures IsRun(cfg, run, steps)
    ensures run[|steps|] == BOOT.(control := Control(Idling, Some(cfg.pollIntervalS), None, false), primed := true)
  {
    run, steps := [BOOT], [];
    run, steps := ExtendRun(cfg, run, steps, PollReclaim(false));
    run, steps := ExtendRun(cfg, run, steps, PollController(cfg.pollIntervalS, 0.0));
    run, steps := ExtendRun(cfg, run, steps, PublishReclaim);
    run, steps := ExtendRun(cfg, run, steps, PublishReady);
  }

  // A tick up to the snapshot, on an idle controller, for a returning user.
  lemma UserReturns(cfg: Config, run: seq<Sys>, steps: seq<Step>) returns (run': seq<Sys>, steps': seq<Step>)
    requires IsRun(cfg, run, steps) && cfg.pollIntervalS > 0.0
    requires var s := run[|steps|]; s.phase == BetweenTicks && s.control.state == Idling && !s.reclaimed
    ensures IsRun(cfg, run', steps')
    ensures run'[|steps'|] == run[|steps|].(phase := Signalling(Live(run[|steps|].table), 0.0, 1.0))
  {
    run', steps' := ExtendRun(cfg, run, steps, PollReclaim(false));
    run', steps' := ExtendRun(cfg, run', steps', PollController(0.0, 1.0));
  }

  // The guard passes, the user returns during the spawn, the child registers:
  // after the suspend, or between its snapshot and its commit.
  lemma SplitGuardBreaks(cfg: Config, id: string, inside: bool) returns (run: seq<Sys>, steps: seq<Step>)
    requires cfg.pollIntervalS > 0.0
    ensures IsRun(cfg, run, steps)
    ensures var s := run[|steps|];
      s.control.state == Active && s.table == map[id := Replica(true, Loading, None, 1, false)] && !NothingRuns(s.table)
  {
    run, steps := IdleBoot(cfg);
    run, steps := ExtendRun(cfg, run, steps, PassGuard(id));
    run, steps := UserReturns(cfg, run, steps);
    assert Live(run[|steps|].table) == {};
    if inside {
      run, steps := ExtendRun(cfg, run, steps, Step.Register(1, false));
      run, steps := ExtendRun(cfg, run, steps, CommitPoll({}));
    } else {
      run, steps := ExtendRun(cfg, run, steps, CommitPoll({}));
      assert run[|steps|].table == map[];
      run, steps := ExtendRun(cfg, run, steps, Step.Register(1, false));
    }
    assert run[|steps|].table[id].state == Loading;
  }

  // A stop between the snapshot and the commit strands the replica.
  lemma StopInsideYieldBreaks(cfg: Config, id: string) returns (run: seq<Sys>, steps: seq<Step>)
    requires cfg.pollIntervalS > 0.0
    ensures IsRun(cfg, run, steps)
    ensures run[|steps|].control.state == Active && Stranded(run[|steps|].table, id)
  {
    run, steps := IdleBoot(cfg);
    run, steps := ExtendRun(cfg, run, steps, PassGuard(id));
    run, steps := ExtendRun(cfg, run, steps, Step.Register(1, false));
    run, steps := UserReturns(cfg, run, steps);
    assert id in Live(run[|steps|].table);
    run, steps := ExtendRun(cfg, run, steps, StopOne(id));
    run, steps := ExtendRun(cfg, run, steps, CommitPoll({}));
  }

  // ---- When the view is ready ----

  // The view does not mirror the controller: a user who reclaims the machine
  // and releases it again is forgotten.
  lemma ReleaseForgetsUser(cfg: Config) returns (run: seq<Sys>, steps: seq<Step>)
    requires cfg.pollIntervalS > 0.0
    ensures IsRun(cfg, run, steps)
    ensures run[|steps|].control.state == Active && !run[|steps|].view.active
  {
    run, steps := IdleBoot(cfg);
    run, steps := UserReturns(cfg, run, steps);
    run, steps := ReclaimAndRelease(cfg, run, steps);
  }

  // The end of a tick.
  lemma Publish(cfg: Config, run: seq<Sys>, steps: seq<Step>) returns (run': seq<Sys>, steps': seq<Step>)
    requires IsRun(cfg, run, steps) && run[|steps|].phase in {FlagSampled, ControllerPolled}
    ensures IsRun(cfg, run', steps')
    ensures run'[|steps'|] == Do(cfg, Do(cfg, run[|steps|], PublishReclaim), PublishReady)
  {
    run', steps' := ExtendRun(cfg, run, steps, PublishReclaim);
    run', steps' := ExtendRun(cfg, run', steps', PublishReady);
  }

  // The user has just returned to a machine with no replicas, then reclaims
  // and releases it.
  lemma ReclaimAndRelease(cfg: Config, run: seq<Sys>, steps: seq<Step>) returns (run': seq<Sys>, steps': seq<Step>)
    requires IsRun(cfg, run, steps) && cfg.pollIntervalS > 0.0
    requires var s := run[|steps|];
      s.table == map[] && s.control.state == Idling && s.phase == Signalling({}, 0.0, 1.0) && !s.reclaimed
    ensures IsRun(cfg, run', steps')
    ensures var s, s' := run[|steps|], run'[|steps'|];
      && s'.control.state == Active && !s'.reclaimed && s'.phase == FlagSampled
      && !s'.view.active && s'.table == map[] && s'.pending == s.pending
  {
    run', steps' := ExtendRun(cfg, run, steps, CommitPoll({}));
    run', steps' := Publish(cfg, run', steps');
    run', steps' := ExtendRun(cfg, run', steps', PollReclaim(true));
    run', steps' := ExtendRun(cfg, run', steps', CommitReclaim({}));
    run', steps' := Publish(cfg, run', steps');
    run', steps' := ExtendRun(cfg, run', steps', PollReclaim(false));
    run', steps' := ExtendRun(cfg, run', steps', EmitRelease);
  }

  // The step publishes readiness of the machine to a user whom the view has
  // forgotten.
  predicate Exposes(s: Sys, step: Step) {
    && s.control.state == Active && !s.view.active && !s.reclaimed
    && ((step.PublishReady? && HasReady(s.table)) || (step.PublishReclaim? && s.view.hasReady))
  }

  predicate AwayIfReady(s: Sys) {
    s.view.ready ==> s.control.state != Active
  }

  lemma StepExposesExactly(cfg: Config, s: Sys, step: Step)
    requires Orderly(cfg, s) && AwayIfReady(s) && Enabled(s, step)
    ensures AwayIfReady(Do(cfg, s, step)) <==> !Exposes(s, step)
  {
  }

  // Over every run: the view is never ready while the controller is ACTIVE if
  // and only if no step exposes it.
  lemma {:induction false} ReadyMeansAwayExactly(cfg: Config, run: seq<Sys>, steps: seq<Step>, n: nat)
    requires IsRun(cfg, run, steps) && n < |run|
    ensures (forall i :: 0 <= i <= n ==> AwayIfReady(run[i])) <==> (forall i :: 0 <= i < n ==> !Exposes(run[i], steps[i]))
  {
    if n > 0 {
      ReadyMeansAwayExactly(cfg, run, steps, n - 1);
      RunIsOrderly(cfg, run, steps, n - 1);
      assert run[n - 1 + 1] == Do(cfg, run[n - 1], steps[n - 1]);
      if forall i :: 0 <= i <= n - 1 ==> AwayIfReady(run[i]) {
        StepExposesExactly(cfg, run[n - 1], steps[n - 1]);
      }
    }
  }

  // Over every run: when the view is ready the machine is not reclaimed, except
  // inside the very tick that engages the reclaim.
  lemma ReadyMeansUnreclaimed(cfg: Config, run: seq<Sys>, steps: seq<Step>, n: nat)
    requires IsRun(cfg, run, steps) && n < |run| && run[n].view.ready && run[n].reclaimed
    ensures run[n].phase == FlagSampled
  {
    RunIsOrderly(cfg, run, steps, n);
  }

  // What sound runs keep: a user the view has forgotten finds nothing ready.
  ghost predicate ViewInv(cfg: Config, s: Sys) {
    && Inv(s) && Orderly(cfg, s)
    && (s.control.state == Active ==> s.view.active || !s.view.hasReady)
    && (s.phase == BetweenTicks && s.reclaimed ==> !s.view.hasReady)
    && (s.phase == Released ==> !s.view.hasReady)
  }

  lemma StepKeepsViewInv(cfg: Config, s: Sys, step: Step)
    requires ViewInv(cfg, s) && Enabled(s, step) && Sound(s, step)
    ensures ViewInv(cfg, Do(cfg, s, step)) && !Exposes(s, step)
  {
    StepKeepsInvExactly(cfg, s, step);
    StepKeepsOrderly(cfg, s, step);
  }

  // Sound runs expose nothing, so on them ready means away.
  lemma {:induction false} ReadyMeansAway(cfg: Config, run: seq<Sys>, steps: seq<Step>, n: nat)
    requires IsRun(cfg, run, steps) && n < |run| && SoundUntil(run, steps, n)
    ensures ViewInv(cfg, run[n]) && AwayIfReady(run[n])
    ensures forall i :: 0 <= i < n ==> !Exposes(run[i], steps[i])
  {
    if n > 0 {
      ReadyMeansAway(cfg, run, steps, n - 1);
      assert run[n - 1 + 1] == Do(cfg, run[n - 1], steps[n - 1]) && Sound(run[n - 1], steps[n - 1]);
      StepKeepsViewInv(cfg, run[n - 1], steps[n - 1]);
    }
  }

  // An exposing run: a child whose guard passed before the user returned
  // registers after the release.
  lemma LateChildMakesReady(cfg: Config, id: string) returns (run: seq<Sys>, steps: seq<Step>)
    requires cfg.pollIntervalS > 0.0
    ensures IsRun(cfg, run, steps)
    ensures run[|steps|].control.state == Active && run[|steps|].view.ready
  {
    run, steps := IdleBoot(cfg);
    run, steps := ExtendRun(cfg, run, steps, PassGuard(id));
    run, steps := UserReturns(cfg, run, steps);
    run, steps := ReclaimAndRelease(cfg, run, steps);
    run, steps := ChildBecomesReady(cfg, run, steps);
  }

  // The child that was pending registers, passes its health check, and is
  // published to a user whom the view has forgotten.
  lemma ChildBecomesReady(cfg: Config, run: seq<Sys>, steps: seq<Step>) returns (run': seq<Sys>, steps': seq<Step>)
    requires IsRun(cfg, run, steps)
    requires var s := run[|steps|];
      s.control.state == Active && !s.reclaimed && s.phase == FlagSampled && !s.view.active && s.pending.Some?
    ensures IsRun(cfg, run', steps')
    ensures run'[|steps'|].control.state == Active && run'[|steps'|].view.ready
  {
    var id := run[|steps|].pending.value;
    run', steps' := ExtendRun(cfg, run, steps, Step.Register(1, false));
    run', steps' := ExtendRun(cfg, run', steps', Healthy(id));
    assert run'[|steps'|].table[id].state == Ready;
    run', steps' := Publish(cfg, run', steps');
  }

  // ---- Escalation and draining ----

  // Step i of a run evicts VRAM.
  ghost predicate EvictsAt(cfg: Config, run: seq<Sys>, steps: seq<Step>, i: nat)
    requires |run| == |steps| + 1 && i < |steps|
  {
    steps[i].PollController? && Escalates(cfg, run[i].control, steps[i].idleS, steps[i].now)
  }

  lemma {:induction false} EscalatedUntilIdle(cfg: Config, run: seq<Sys>, steps: seq<Step>, i: nat, j: nat)
    requires IsRun(cfg, run, steps) && i <= j < |run|
    requires run[i].control.escalated && forall k :: i <= k <= j ==> run[k].control.state == Active
    ensures run[j].control.escalated
    decreases j - i
  {
    if i < j {
      EscalatedUntilIdle(cfg, run, steps, i, j - 1);
    }
  }

  // How a step leaves the controller ACTIVE: by noticing the user, or by going
  // on, with or without an eviction.
  lemma ActiveStep(cfg: Config, s: Sys, step: Step)
    requires Orderly(cfg, s) && Enabled(s, step) && Do(cfg, s, step).control.state == Active
    ensures var c, c' := s.control, Do(cfg, s, step).control;
      if c.state == Active then
        && c'.activeSince == c.activeSince
        && (c'.escalated <==> c.escalated || (step.PollController? && Escalates(cfg, c, step.idleS, step.now)))
      else
        c.state == Idling && step.CommitPoll? && s.phase.Signalling? && c'.activeSince == Some(s.phase.now) && !c'.escalated
  {
  }

  // An active episode began with the poll that noticed the user, and its clock
  // runs from that poll.
  lemma {:induction false} EpisodeBegan(cfg: Config, run: seq<Sys>, steps: seq<Step>, n: nat) returns (k: nat)
    requires IsRun(cfg, run, steps) && n < |run| && run[n].control.state == Active
    ensures k < n && steps[k].CommitPoll? && run[k].control.state == Idling && run[k].phase.Signalling?
    ensures run[n].control.activeSince == Some(run[k].phase.now)
    ensures forall m :: k < m <= n ==> run[m].control.state == Active
    ensures run[n].control.escalated <==> exists j :: k < j < n && EvictsAt(cfg, run, steps, j)
  {
    RunIsOrderly(cfg, run, steps, n - 1);
    assert Enabled(run[n - 1], steps[n - 1]) && run[n - 1 + 1] == Do(cfg, run[n - 1], steps[n - 1]);
    ActiveStep(cfg, run[n - 1], steps[n - 1]);
    if run[n - 1].control.state == Active {
      k := EpisodeBegan(cfg, run, steps, n - 1);
      if run[n - 1].control.escalated {
        var j :| k < j < n - 1 && EvictsAt(cfg, run, steps, j);
        assert k < j < n && EvictsAt(cfg, run, steps, j);
      } else if EvictsAt(cfg, run, steps, n - 1) {
        assert k < n - 1 < n && run[n].control.escalated;
      }
    } else {
      k := n - 1;
    }
  }

  // A poll of an active episode evicts exactly if the episode has lasted long
  // enough and none before it has; otherwise it touches no replica.
  lemma EvictsExactlyOnceWhenDue(cfg: Config, run: seq<Sys>, steps: seq<Step>, i: nat) returns (k: nat)
    requires IsRun(cfg, run, steps) && i < |steps| && run[i].control.state == Active
    requires steps[i].PollController? && steps[i].idleS < cfg.idleThresholdS
    ensures k < i && steps[k].CommitPoll? && run[k].control.state == Idling && run[k].phase.Signalling?
    ensures forall m :: k < m <= i ==> run[m].control.state == Active
    ensures var due := steps[i].now - run[k].phase.now >= cfg.vramEvictAfterS
                       && !exists j :: k < j < i && EvictsAt(cfg, run, steps, j);
      && (EvictsAt(cfg, run, steps, i) <==> due)
      && run[i + 1].table == if due then Evicted(run[i].table) else run[i].table
  {
    k := EpisodeBegan(cfg, run, steps, i);
    assert run[i + 1] == Do(cfg, run[i], steps[i]);
  }

  // Two evictions are separated by a moment at which the user was away.
  lemma OneEvictionPerEpisode(cfg: Config, run: seq<Sys>, steps: seq<Step>, i: nat, j: nat)
    requires IsRun(cfg, run, steps) && i < j < |steps|
    requires EvictsAt(cfg, run, steps, i) && EvictsAt(cfg, run, steps, j)
    ensures exists k :: i < k < j && run[k].control.state != Active
  {
    if forall k :: i < k < j ==> run[k].control.state == Active {
      EscalatedUntilIdle(cfg, run, steps, i + 1, j);
      assert false;
    }
  }

  // On sound runs an eviction leaves no GPU replica but stopped ones, and
  // touches no other.
  lemma EvictionFreesEveryGpu(cfg: Config, run: seq<Sys>, steps: seq<Step>, i: nat)
    requires IsRun(cfg, run, steps) && i < |steps| && EvictsAt(cfg, run, steps, i)
    requires SoundUntil(run, steps, i)
    ensures var t, t' := run[i].table, run[i + 1].table;
      && t'.Keys == t.Keys
      && forall id | id in t :: if t[id].gpu then t'[id].state == Stopped else t'[id] == t[id]
  {
    NothingRunsExactly(cfg, run, steps, i);
    assert Inv(run[i]);
    EvictedExactly(run[i].table);
  }

  lemma {:induction false} DrainingIsTerminal(cfg: Config, run: seq<Sys>, steps: seq<Step>, i: nat, j: nat)
    requires IsRun(cfg, run, steps) && i <= j < |run| && run[i].control.state == Draining
    ensures run[j].control == run[i].control
    decreases j - i
  {
    if i < j {
      DrainingIsTerminal(cfg, run, steps, i, j - 1);
    }
  }
}

// Input detection, for readings that say how long ago the last input was.
module InputDetection {
  import opened Basics
  import opened Preempt

  // The most recent of the inputs up to a moment.
  ghost predicate IsLastInput(inputs: set<real>, now: real, last: real) {
    last in inputs && last <= now && forall x | x in inputs && x <= now :: x <= last
  }

  ghost predicate InputBetween(inputs: set<real>, earlier: real, now: real) {
    exists x :: x in inputs && earlier < x <= now
  }

  // An idling controller's last reading was at least a poll interval.
  ghost predicate Settled(cfg: Config, c: Control) {
    c.state == Idling && c.prevIdleS.Some? ==> c.prevIdleS.value >= cfg.pollIntervalS
  }

  function Next(cfg: Config, c: Control, idleS: real, now: real): Control {
    Polled(cfg, c, map[], idleS, now, {}).control
  }

  function AfterPolls(cfg: Config, polls: seq<(real, real)>): Control {
    if polls == [] then START
    else Next(cfg, AfterPolls(cfg, polls[..|polls| - 1]), polls[|polls| - 1].0, polls[|polls| - 1].1)
  }

  // Holds after any polls whatever, honest or not.
  lemma {:induction false} PollsSettle(cfg: Config, polls: seq<(real, real)>)
    requires cfg.idleThresholdS >= cfg.pollIntervalS
    ensures Settled(cfg, AfterPolls(cfg, polls))
    ensures polls != [] && AfterPolls(cfg, polls).state != Draining ==> AfterPolls(cfg, polls).prevIdleS == Some(polls[|polls| - 1].0)
  {
    if polls != [] {
      PollsSettle(cfg, polls[..|polls| - 1]);
    }
  }

  // After any polls that left the controller idling, the next one goes ACTIVE
  // if and only if an input occurred since, and it is more recent than a poll
  // interval or than the previous reading was.
  lemma DetectsExactly(cfg: Config, polls: seq<(real, real)>, inputs: set<real>, last: real, now: real, last': real)
    requires cfg.idleThresholdS >= cfg.pollIntervalS
    requires polls != [] && AfterPolls(cfg, polls).state == Idling
    requires var then_ := polls[|polls| - 1].1;
      then_ <= now && IsLastInput(inputs, then_, last) && polls[|polls| - 1].0 == then_ - last
    requires IsLastInput(inputs, now, last')
    ensures var c, (prev, then_) := AfterPolls(cfg, polls), polls[|polls| - 1];
      Next(cfg, c, now - last', now).state == Active
      <==> InputBetween(inputs, then_, now) && (now - last' < prev || now - last' < cfg.pollIntervalS)
  {
    PollsSettle(cfg, polls);
    var then_ := polls[|polls| - 1].1;
    if last' > then_ {
      assert InputBetween(inputs, then_, now);
    } else {
      assert last' == last;
      assert !InputBetween(inputs, then_, now);
    }
  }

  // A touch right after one poll, and a long gap before the next: missed.
  lemma InputCanBeMissed(cfg: Config)
    requires cfg.pollIntervalS == 1.0 && cfg.idleThresholdS >= 1.0
    ensures var inputs, polls := {0.0, 2.1}, [(2.0, 2.0)];
      && IsLastInput(inputs, 2.0, 0.0) && IsLastInput(inputs, 5.0, 2.1) && InputBetween(inputs, 2.0, 5.0)
      && AfterPolls(cfg, polls).state == Idling && Next(cfg, AfterPolls(cfg, polls), 5.0 - 2.1, 5.0).state == Idling
  {
    assert 2.1 in {0.0, 2.1};
    assert [(2.0, 2.0)][..0] == [];
  }

  // With poll gaps no longer than the previous reading, no input is missed
  // and none is imagined.
  lemma DetectsEveryInput(cfg: Config, polls: seq<(real, real)>, inputs: set<real>, last: real, now: real, last': real)
    requires cfg.idleThresholdS >= cfg.pollIntervalS
    requires polls != [] && AfterPolls(cfg, polls).state == Idling
    requires var (prev, then_) := polls[|polls| - 1];
      && then_ <= now && IsLastInput(inputs, then_, last) && prev == then_ - last
      && now - then_ <= prev
    requires IsLastInput(inputs, now, last')
    ensures Next(cfg, AfterPolls(cfg, polls), now - last', now).state == Active
       <==> InputBetween(inputs, polls[|polls| - 1].1, now)
  {
    DetectsExactly(cfg, polls, inputs, last, now, last');
    var then_ := polls[|polls| - 1].1;
    if InputBetween(inputs, then_, now) {
      var x :| x in inputs && then_ < x <= now;
      assert last' >= x;
    }
  }
}
