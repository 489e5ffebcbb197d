// eventsink.go, sitesink.go, runtime.go:beatSeq and loops.go:heartbeatLoop:
// sequenced events, flush barriers and heartbeats on one wire.
//
// Each step is one critical section, channel operation or network call of one
// goroutine, so a run is any interleaving of the emitters, the heartbeat loop
// and the drain worker.

module EventSink {
  import opened Basics

  const BUFFER := 128
  const CRITICAL_ATTEMPTS := 3

  datatype Kind = UserReturned | UserIdle | AgentStopping

  predicate Critical(kind: Kind) {
    kind == UserReturned || kind == UserIdle
  }

  function Attempts(kind: Kind): nat {
    if Critical(kind) then CRITICAL_ATTEMPTS else 1
  }

  datatype Event = Event(number: int, kind: Kind)

  // The channel's items; an event is named by its place among all enqueued.
  datatype Item = Queued(n: nat) | Barrier

  datatype Worker = Idle | Delivering(n: nat, failures: nat)

  // A heartbeat from its number to its sending; `mark` counts the events
  // enqueued when the number was taken.
  datatype Beat =
    | Resting
    | Numbered(h: int, mark: nat, final: bool)
    | Flushing(h: int, mark: nat, final: bool)
    | Flushed(h: int, mark: nat, final: bool)

  datatype Wire = Push(n: nat, ok: bool) | Beaten(h: int, final: bool)

  datatype State = State(
    last: int,              // the newest sequence number handed out
    enqueued: seq<Event>,   // every event that entered the channel, in order
    taken: nat,             // how many of them the worker has taken out
    queue: seq<Item>,
    worker: Worker,
    beat: Beat,
    cancelled: bool,        // the run context
    wire: seq<Wire>)

  datatype Step =
    | Emit(kind: Kind, number: int)          // number and enqueue under the presence lock
    | TakeNumber(number: int, final: bool)   // beatSeq under the presence lock
    | SendBarrier
    | Receive                                // the worker takes the next item
    | Attempt(ok: bool)                      // one PushEvent
    | SendBeat
    | Shutdown

  // Numbers never regress; module Numbering draws them from module Sequence.
  predicate Enabled(s: State, step: Step) {
    match step
    case Emit(_, number) => number >= s.last
    case TakeNumber(number, _) => number >= s.last && Possible(s, step)
    case _ => Possible(s, step)
  }

  // What a step needs apart from its number.
  predicate Possible(s: State, step: Step) {
    match step
    case Emit(_, _) => true
    case TakeNumber(_, final) => s.beat.Resting? && (final ==> s.cancelled)
    case SendBarrier => s.beat.Numbered? && |s.queue| < BUFFER
    case Receive => s.worker.Idle? && s.queue != []
    case Attempt(_) => s.worker.Delivering? && s.worker.n < |s.enqueued|
    case SendBeat => s.beat.Flushed?
    case Shutdown => true
  }

  function Do(s: State, step: Step): State
    requires Enabled(s, step)
  {
    match step
    case Emit(kind, number) =>
      if |s.queue| < BUFFER then
        s.(last := number,
           enqueued := s.enqueued + [Event(number, kind)],
           queue := s.queue + [Queued(|s.enqueued|)])
      else s.(last := number)
    case TakeNumber(number, final) => s.(last := number, beat := Numbered(number, |s.enqueued|, final))
    case SendBarrier => s.(queue := s.queue + [Barrier], beat := Flushing(s.beat.h, s.beat.mark, s.beat.final))
    case Receive =>
      var rest := s.(queue := s.queue[1..]);
      if s.queue[0].Barrier? then
        rest.(beat := if s.beat.Flushing? then Flushed(s.beat.h, s.beat.mark, s.beat.final) else s.beat)
      else rest.(worker := Delivering(s.queue[0].n, 0), taken := s.taken + 1)
    case Attempt(ok) => Attempted(s, ok)
    case SendBeat =>
      // A periodic beat on a cancelled context is not sent.
      if s.cancelled && !s.beat.final then s.(beat := Resting)
      else s.(beat := Resting, wire := s.wire + [Beaten(s.beat.h, s.beat.final)])
    case Shutdown => s.(cancelled := true)
  }

  // A failed push is retried; a presence event that runs out of attempts
  // cancels the run.
  function Attempted(s: State, ok: bool): State
    requires s.worker.Delivering? && s.worker.n < |s.enqueued|
  {
    var Delivering(n, failures) := s.worker;
    var kind := s.enqueued[n].kind;
    var sent := s.(wire := s.wire + [Push(n, ok)]);
    if ok then sent.(worker := Idle)
    else if failures + 1 < Attempts(kind) then sent.(worker := Delivering(n, failures + 1))
    else sent.(worker := Idle, cancelled := s.cancelled || Critical(kind))
  }

  ghost predicate IsRun(run: seq<State>, steps: seq<Step>) {
    && |run| == |steps| + 1
    && run[0].enqueued == [] && run[0].queue == [] && run[0].wire == [] && run[0].taken == 0
    && run[0].worker == Idle && run[0].beat == Resting
    && forall i :: 0 <= i < |steps| ==> Enabled(run[i], steps[i]) && run[i + 1] == Do(run[i], steps[i])
  }

  // ---- The channel ----

  // The channel holds events n, n+1, ..., end-1 in order, and a barrier where
  // `bar` says: before event `bar`, or nowhere.
  datatype Place = Nowhere | Before(n: nat)

  ghost predicate Lined(queue: seq<Item>, n: nat, end: nat, bar: Place) {
    if queue == [] then n == end && bar == Nowhere
    else
      match queue[0]
      case Queued(m) => m == n && Lined(queue[1..], n + 1, end, bar)
      case Barrier => bar == Before(n) && Lined(queue[1..], n, end, Nowhere)
  }

  lemma {:induction false} LinedAppends(queue: seq<Item>, n: nat, end: nat, bar: Place)
    requires Lined(queue, n, end, bar)
    ensures n <= end && (bar.Before? ==> n <= bar.n <= end)
    ensures Lined(queue + [Queued(end)], n, end + 1, bar)
    ensures bar == Nowhere ==> Lined(queue + [Barrier], n, end, Before(end))
  {
    if queue == [] {
      assert [Queued(end)][1..] == [] && [Barrier][1..] == [];
    } else {
      assert (queue + [Queued(end)])[1..] == queue[1..] + [Queued(end)];
      assert (queue + [Barrier])[1..] == queue[1..] + [Barrier];
      match queue[0]
      case Queued(m) => LinedAppends(queue[1..], n + 1, end, bar);
      case Barrier => LinedAppends(queue[1..], n, end, Nowhere);
    }
  }

  // ---- The invariant ----

  // Events are numbered in the order they were enqueued.
  ghost predicate NumbersRise(s: State) {
    && (forall i, j :: 0 <= i < j < |s.enqueued| ==> s.enqueued[i].number <= s.enqueued[j].number)
    && (forall i :: 0 <= i < |s.enqueued| ==> s.enqueued[i].number <= s.last)
  }

  ghost predicate QueueIsLined(s: State) {
    && s.taken <= |s.enqueued|
    && (s.worker.Delivering? ==> s.worker.n + 1 == s.taken)
    && (if s.beat.Flushing?
        then exists b: nat :: b >= s.beat.mark && Lined(s.queue, s.taken, |s.enqueued|, Before(b))
        else Lined(s.queue, s.taken, |s.enqueued|, Nowhere))
  }

  // Events behind the mark of a numbered beat have larger numbers, and once
  // flushed all events before the mark are finished.
  ghost predicate BeatIsMarked(s: State) {
    !s.beat.Resting? ==>
      && s.beat.mark <= |s.enqueued| && s.beat.h <= s.last
      && (forall i :: s.beat.mark <= i < |s.enqueued| ==> s.enqueued[i].number >= s.beat.h)
      && (s.beat.Flushed? ==> Finished(s) >= s.beat.mark)
      && (s.beat.final ==> s.cancelled)
  }

  // Events before this one are no longer in the sink.
  function Finished(s: State): int {
    if s.worker.Delivering? then s.worker.n else s.taken
  }

  ghost predicate Delivered(wire: seq<Wire>, n: nat) {
    exists q :: 0 <= q < |wire| && wire[q] == Push(n, true)
  }

  // A presence event leaves the sink delivered, or with the run cancelled.
  ghost predicate NoneLost(s: State) {
    forall n :: 0 <= n < Finished(s) && n < |s.enqueued| && Critical(s.enqueued[n].kind) ==>
      Delivered(s.wire, n) || s.cancelled
  }

  // The wire so far, and that what is still to come keeps it so.
  ghost predicate WireIsOrdered(s: State) {
    && (forall p :: 0 <= p < |s.wire| && s.wire[p].Push? ==> s.wire[p].n < s.taken)
    && (forall p :: 0 <= p < |s.wire| && s.wire[p].Beaten? ==> s.wire[p].h <= s.last)
    && (forall p :: 0 <= p < |s.wire| && s.wire[p].Beaten? ==>
          forall n :: 0 <= n < |s.enqueued| && s.enqueued[n].number < s.wire[p].h ==> SettledBefore(s, p, n))
  }

  // Event n is out of the sink, was last pushed before place p of the wire,
  // and was delivered there if it is a presence event and the beat periodic.
  ghost predicate SettledBefore(s: State, p: nat, n: nat)
    requires p < |s.wire| && s.wire[p].Beaten? && n < |s.enqueued|
  {
    && n < Finished(s)
    && (forall q :: p < q < |s.wire| && s.wire[q].Push? ==> s.wire[q].n != n)
    && (!s.wire[p].final && Critical(s.enqueued[n].kind) ==> Delivered(s.wire[..p], n))
  }

  ghost predicate Inv(s: State) {
    NumbersRise(s) && QueueIsLined(s) && BeatIsMarked(s) && NoneLost(s) && WireIsOrdered(s)
  }

  // ---- Every step keeps it ----

  // An append to the wire keeps every earlier beat settled, unless it pushes
  // an event that a beat has already passed.
  lemma WireGrows(s: State, t: State, w: Wire)
    requires WireIsOrdered(s)
    requires t.enqueued == s.enqueued && t.wire == s.wire + [w]
    requires t.taken >= s.taken && t.last >= s.last && Finished(t) >= Finished(s)
    requires w.Push? ==> Finished(s) <= w.n < s.taken
    requires w.Beaten? ==> w.h <= s.last
    requires w.Beaten? ==> forall n :: 0 <= n < |s.enqueued| && s.enqueued[n].number < w.h ==>
      n < Finished(s) && (!w.final && Critical(s.enqueued[n].kind) ==> Delivered(s.wire, n))
    ensures WireIsOrdered(t)
  {
    forall p, n | 0 <= p < |t.wire| && t.wire[p].Beaten? && 0 <= n < |t.enqueued| && t.enqueued[n].number < t.wire[p].h
      ensures SettledBefore(t, p, n)
    {
      if p < |s.wire| {
        assert SettledBefore(s, p, n);
        assert t.wire[..p] == s.wire[..p];
      } else {
        assert t.wire[..p] == s.wire;
      }
    }
  }

  // A step that leaves the wire and the events alone.
  lemma WireStays(s: State, t: State)
    requires WireIsOrdered(s)
    requires t.enqueued == s.enqueued && t.wire == s.wire
    requires t.taken >= s.taken && t.last >= s.last && Finished(t) >= Finished(s)
    ensures WireIsOrdered(t)
  {
    forall p, n | 0 <= p < |t.wire| && t.wire[p].Beaten? && 0 <= n < |t.enqueued| && t.enqueued[n].number < t.wire[p].h
      ensures SettledBefore(t, p, n)
    {
      assert SettledBefore(s, p, n);
    }
  }

  lemma EmitKeepsInv(s: State, kind: Kind, number: int)
    requires Inv(s) && Enabled(s, Emit(kind, number))
    ensures Inv(Do(s, Emit(kind, number)))
  {
    var t := Do(s, Emit(kind, number));
    if |s.queue| >= BUFFER {
      WireStays(s, t);
    } else {
      if s.beat.Flushing? {
        var b: nat :| b >= s.beat.mark && Lined(s.queue, s.taken, |s.enqueued|, Before(b));
        LinedAppends(s.queue, s.taken, |s.enqueued|, Before(b));
      } else {
        LinedAppends(s.queue, s.taken, |s.enqueued|, Nowhere);
      }
      EmitKeepsWire(s, kind, number);
    }
  }

  lemma EmitKeepsWire(s: State, kind: Kind, number: int)
    requires Inv(s) && Enabled(s, Emit(kind, number)) && |s.queue| < BUFFER
    ensures WireIsOrdered(Do(s, Emit(kind, number)))
  {
    var t := Do(s, Emit(kind, number));
    forall p, n | 0 <= p < |t.wire| && t.wire[p].Beaten? && 0 <= n < |t.enqueued| && t.enqueued[n].number < t.wire[p].h
      ensures SettledBefore(t, p, n)
    {
      assert n < |s.enqueued|;
      assert SettledBefore(s, p, n);
    }
  }

  lemma SendBarrierKeepsInv(s: State)
    requires Inv(s) && Enabled(s, SendBarrier)
    ensures Inv(Do(s, SendBarrier))
  {
    LinedAppends(s.queue, s.taken, |s.enqueued|, Nowhere);
    WireStays(s, Do(s, SendBarrier));
  }

  lemma ReceiveKeepsInv(s: State)
    requires Inv(s) && Enabled(s, Receive)
    ensures Inv(Do(s, Receive))
  {
    var t := Do(s, Receive);
    if s.beat.Flushing? {
      var b: nat :| b >= s.beat.mark && Lined(s.queue, s.taken, |s.enqueued|, Before(b));
      if s.queue[0].Queued? {
        LinedAppends(s.queue[1..], s.taken + 1, |s.enqueued|, Before(b));
      }
    } else if s.queue[0].Queued? {
      LinedAppends(s.queue[1..], s.taken + 1, |s.enqueued|, Nowhere);
    }
    WireStays(s, t);
  }

  lemma AttemptKeepsInv(s: State, ok: bool)
    requires Inv(s) && Enabled(s, Attempt(ok))
    ensures Inv(Do(s, Attempt(ok)))
  {
    var t := Do(s, Attempt(ok));
    WireGrows(s, t, Push(s.worker.n, ok));
    forall n | 0 <= n < Finished(t) && n < |t.enqueued| && Critical(t.enqueued[n].kind)
      ensures Delivered(t.wire, n) || t.cancelled
    {
      if n < Finished(s) && Delivered(s.wire, n) {
        var q :| 0 <= q < |s.wire| && s.wire[q] == Push(n, true);
        assert t.wire[q] == Push(n, true);
      } else if n == s.worker.n && ok {
        assert t.wire[|s.wire|] == Push(n, true);
      }
    }
  }

  lemma SendBeatKeepsInv(s: State)
    requires Inv(s) && Enabled(s, SendBeat)
    ensures Inv(Do(s, SendBeat))
  {
    var t := Do(s, SendBeat);
    if s.cancelled && !s.beat.final {
      WireStays(s, t);
    } else {
      WireGrows(s, t, Beaten(s.beat.h, s.beat.final));
      forall n | 0 <= n < Finished(t) && n < |t.enqueued| && Critical(t.enqueued[n].kind)
        ensures Delivered(t.wire, n) || t.cancelled
      {
        if Delivered(s.wire, n) {
          var q :| 0 <= q < |s.wire| && s.wire[q] == Push(n, true);
          assert t.wire[q] == Push(n, true);
        }
      }
    }
  }

  lemma StepKeepsInv(s: State, step: Step)
    requires Inv(s) && Enabled(s, step)
    ensures Inv(Do(s, step))
  {
    match step
    case Emit(kind, number) => EmitKeepsInv(s, kind, number);
    case TakeNumber(_, _) => WireStays(s, Do(s, step));
    case SendBarrier => SendBarrierKeepsInv(s);
    case Receive => ReceiveKeepsInv(s);
    case Attempt(ok) => AttemptKeepsInv(s, ok);
    case SendBeat => SendBeatKeepsInv(s);
    case Shutdown => WireStays(s, Do(s, step));
  }

  lemma {:induction false} RunKeepsInv(run: seq<State>, steps: seq<Step>, n: nat)
    requires IsRun(run, steps) && n < |run|
    ensures Inv(run[n])
  {
    if n > 0 {
      RunKeepsInv(run, steps, n - 1);
      StepKeepsInv(run[n - 1], steps[n - 1]);
    }
  }

  // ---- The theorems ----

  // In every interleaving, behind a beat numbered h nothing numbered below h
  // is pushed any more; and before a periodic beat every presence event
  // numbered below h has been delivered.
  lemma BeatNeverOvertakes(run: seq<State>, steps: seq<Step>, i: nat, p: nat, n: nat)
    requires IsRun(run, steps) && i < |run|
    requires p < |run[i].wire| && run[i].wire[p].Beaten?
    requires n < |run[i].enqueued| && run[i].enqueued[n].number < run[i].wire[p].h
    ensures forall q :: p < q < |run[i].wire| && run[i].wire[q].Push? ==> run[i].wire[q].n != n
    ensures !run[i].wire[p].final && Critical(run[i].enqueued[n].kind) ==> Delivered(run[i].wire[..p], n)
  {
    RunKeepsInv(run, steps, i);
    assert SettledBefore(run[i], p, n);
  }

  // When a flush is acknowledged, every presence event numbered below the beat
  // has been delivered, or the run has been cancelled.
  lemma FlushAcknowledgesDelivery(run: seq<State>, steps: seq<Step>, i: nat, n: nat)
    requires IsRun(run, steps) && i < |run| && run[i].beat.Flushed?
    requires n < |run[i].enqueued| && run[i].enqueued[n].number < run[i].beat.h
    requires Critical(run[i].enqueued[n].kind)
    ensures Delivered(run[i].wire, n) || run[i].cancelled
  {
    RunKeepsInv(run, steps, i);
  }

  // ---- Delivery, exactly ----

  ghost function Failures(wire: seq<Wire>, n: nat): nat {
    if wire == [] then 0
    else Failures(wire[..|wire| - 1], n) + if wire[|wire| - 1] == Push(n, false) then 1 else 0
  }

  // The tally of event n: delivered exactly if an attempt succeeded before
  // they ran out, and untouched until the worker takes it.
  ghost predicate Tallied(s: State, n: nat)
    requires n < |s.enqueued|
  {
    var failed, allowed := Failures(s.wire, n), Attempts(s.enqueued[n].kind);
    if n < Finished(s) then Delivered(s.wire, n) <==> failed < allowed
    else
      && !Delivered(s.wire, n)
      && failed < allowed
      && failed == if n < s.taken && s.worker.Delivering? then s.worker.failures else 0
  }

  ghost predicate AllTallied(s: State) {
    forall n :: 0 <= n < |s.enqueued| ==> Tallied(s, n)
  }

  lemma WireTally(wire: seq<Wire>, w: Wire, n: nat)
    ensures Failures(wire + [w], n) == Failures(wire, n) + if w == Push(n, false) then 1 else 0
    ensures Delivered(wire + [w], n) <==> Delivered(wire, n) || w == Push(n, true)
  {
    var more := wire + [w];
    assert more[..|wire|] == wire;
    if w == Push(n, true) {
      assert more[|wire|] == Push(n, true);
    }
    if Delivered(wire, n) {
      var q :| 0 <= q < |wire| && wire[q] == Push(n, true);
      assert more[q] == Push(n, true);
    }
  }

  lemma {:induction false} UnpushedIsUntallied(wire: seq<Wire>, n: nat)
    requires forall p :: 0 <= p < |wire| && wire[p].Push? ==> wire[p].n != n
    ensures Failures(wire, n) == 0 && !Delivered(wire, n)
  {
    if wire != [] {
      UnpushedIsUntallied(wire[..|wire| - 1], n);
    }
  }

  lemma AttemptKeepsTally(s: State, ok: bool, n: nat)
    requires QueueIsLined(s) && s.worker.Delivering? && n < |s.enqueued| && Tallied(s, n)
    ensures Tallied(Attempted(s, ok), n)
  {
    WireTally(s.wire, Push(s.worker.n, ok), n);
  }

  lemma EmitKeepsTally(s: State, kind: Kind, number: int, n: nat)
    requires Inv(s) && Enabled(s, Emit(kind, number)) && n < |Do(s, Emit(kind, number)).enqueued|
    requires n < |s.enqueued| ==> Tallied(s, n)
    ensures Tallied(Do(s, Emit(kind, number)), n)
  {
    if n == |s.enqueued| {
      UnpushedIsUntallied(s.wire, n);
    }
  }

  lemma SendBeatKeepsTally(s: State, n: nat)
    requires Enabled(s, SendBeat) && n < |s.enqueued| && Tallied(s, n)
    ensures Tallied(Do(s, SendBeat), n)
  {
    WireTally(s.wire, Beaten(s.beat.h, s.beat.final), n);
  }

  lemma ReceiveKeepsTally(s: State, n: nat)
    requires QueueIsLined(s) && Enabled(s, Receive) && n < |s.enqueued| && Tallied(s, n)
    ensures Tallied(Do(s, Receive), n)
  {
  }

  // Numbers, barriers and shutdown touch neither the wire nor the worker.
  lemma QuietKeepsTally(s: State, step: Step, n: nat)
    requires Enabled(s, step) && (step.TakeNumber? || step.SendBarrier? || step.Shutdown?)
    requires n < |s.enqueued| && Tallied(s, n)
    ensures Tallied(Do(s, step), n)
  {
  }

  lemma StepKeepsTally(s: State, step: Step)
    requires Inv(s) && AllTallied(s) && Enabled(s, step)
    ensures AllTallied(Do(s, step))
  {
    var t := Do(s, step);
    forall n | 0 <= n < |t.enqueued|
      ensures Tallied(t, n)
    {
      assert n < |s.enqueued| ==> Tallied(s, n);
      match step
      case Emit(kind, number) => EmitKeepsTally(s, kind, number, n);
      case Attempt(ok) => AttemptKeepsTally(s, ok, n);
      case SendBeat => SendBeatKeepsTally(s, n);
      case Receive => ReceiveKeepsTally(s, n);
      case _ => QuietKeepsTally(s, step, n);
    }
  }

  lemma {:induction false} RunKeepsTally(run: seq<State>, steps: seq<Step>, n: nat)
    requires IsRun(run, steps) && n < |run|
    ensures Inv(run[n]) && AllTallied(run[n])
  {
    RunKeepsInv(run, steps, n);
    if n > 0 {
      RunKeepsTally(run, steps, n - 1);
      StepKeepsTally(run[n - 1], steps[n - 1]);
    }
  }

  // The final beat goes out on a fresh context, so it can overtake a presence
  // event: exactly one whose attempts all failed.
  lemma FinalBeatExactly(run: seq<State>, steps: seq<Step>, i: nat, p: nat, n: nat)
    requires IsRun(run, steps) && i < |run|
    requires p < |run[i].wire| && run[i].wire[p].Beaten?
    requires n < |run[i].enqueued| && run[i].enqueued[n].number < run[i].wire[p].h
    ensures Delivered(run[i].wire, n) <==> Failures(run[i].wire, n) < Attempts(run[i].enqueued[n].kind)
  {
    RunKeepsTally(run, steps, i);
    assert SettledBefore(run[i], p, n);
    assert Tallied(run[i], n);
  }

  lemma ExtendRun(run: seq<State>, steps: seq<Step>, step: Step) returns (run': seq<State>, steps': seq<Step>)
    requires IsRun(run, steps) && Enabled(run[|steps|], step)
    ensures IsRun(run', steps') && run'[|steps'|] == Do(run[|steps|], step)
  {
    run', steps' := run + [Do(run[|steps|], step)], steps + [step];
  }

  // Such a run exists: a user return whose three attempts fail, then the
  // final beat.
  lemma LostReturn() returns (run: seq<State>, steps: seq<Step>)
    ensures IsRun(run, steps)
    ensures run[|steps|] == State(0, [Event(0, UserReturned)], 1, [], Idle, Resting, true,
                                  [Push(0, false), Push(0, false), Push(0, false)])
  {
    run, steps := [State(0, [], 0, [], Idle, Resting, false, [])], [];
    run, steps := ExtendRun(run, steps, Emit(UserReturned, 0));
    run, steps := ExtendRun(run, steps, Receive);
    run, steps := ExtendRun(run, steps, Attempt(false));
    run, steps := ExtendRun(run, steps, Attempt(false));
    run, steps := ExtendRun(run, steps, Attempt(false));
  }

  lemma FinalBeatMayOvertake() returns (run: seq<State>, steps: seq<Step>)
    ensures IsRun(run, steps)
    ensures var s := run[|steps|];
      && s.enqueued == [Event(0, UserReturned)]
      && s.wire == [Push(0, false), Push(0, false), Push(0, false), Beaten(1, true)]
      && !Delivered(s.wire, 0)
  {
    run, steps := LostReturn();
    run, steps := ExtendRun(run, steps, TakeNumber(1, true));
    run, steps := ExtendRun(run, steps, SendBarrier);
    run, steps := ExtendRun(run, steps, Receive);
    run, steps := ExtendRun(run, steps, SendBeat);
  }

  // ---- What a run records ----

  // The events emitted while the channel had room, in order.
  ghost function Accepted(run: seq<State>, steps: seq<Step>, n: nat): seq<Event>
    requires n <= |steps| < |run|
  {
    if n == 0 then []
    else
      var before := Accepted(run, steps, n - 1);
      match steps[n - 1]
      case Emit(kind, number) => if |run[n - 1].queue| < 128 then before + [Event(number, kind)] else before
      case _ => before
  }

  // An event is enqueued with its own number exactly if the channel, which
  // holds 128 items, has room for it.
  lemma {:induction false} EnqueuedAreAccepted(run: seq<State>, steps: seq<Step>, n: nat)
    requires IsRun(run, steps) && n < |run|
    ensures run[n].enqueued == Accepted(run, steps, n)
  {
    if n > 0 {
      EnqueuedAreAccepted(run, steps, n - 1);
      assert run[n - 1 + 1] == Do(run[n - 1], steps[n - 1]);
    }
  }

  // The heartbeat in the making: the newest number taken for one.
  ghost function Taken(steps: seq<Step>, n: nat): Option<(int, bool)>
    requires n <= |steps|
  {
    if n == 0 then None
    else
      match steps[n - 1]
      case TakeNumber(number, final) => Some((number, final))
      case _ => Taken(steps, n - 1)
  }

  lemma {:induction false} BeatCarriesItsNumber(run: seq<State>, steps: seq<Step>, n: nat)
    requires IsRun(run, steps) && n < |run| && !run[n].beat.Resting?
    ensures Taken(steps, n) == Some((run[n].beat.h, run[n].beat.final))
  {
    if n > 0 {
      assert Enabled(run[n - 1], steps[n - 1]) && run[n - 1 + 1] == Do(run[n - 1], steps[n - 1]);
      if !run[n - 1].beat.Resting? {
        BeatCarriesItsNumber(run, steps, n - 1);
      }
    }
  }

  // What goes out: one push for each attempt, on the event the worker holds,
  // and each heartbeat with the number taken for it, unless it is a periodic
  // one on a cancelled run.
  ghost function Sent(run: seq<State>, steps: seq<Step>, n: nat): seq<Wire>
    requires n <= |steps| < |run|
  {
    if n == 0 then []
    else
      Sent(run, steps, n - 1) + Outgoing(run[n - 1], steps[n - 1], Taken(steps, n - 1))
  }

  ghost function Outgoing(s: State, step: Step, taken: Option<(int, bool)>): seq<Wire> {
    if step.Attempt? && s.worker.Delivering? then [Push(s.worker.n, step.ok)]
    else if step.SendBeat? && taken.Some? && (taken.value.1 || !s.cancelled) then [Beaten(taken.value.0, taken.value.1)]
    else []
  }

  lemma {:induction false} WireIsSent(run: seq<State>, steps: seq<Step>, n: nat)
    requires IsRun(run, steps) && n < |run|
    ensures run[n].wire == Sent(run, steps, n)
  {
    if n > 0 {
      WireIsSent(run, steps, n - 1);
      assert Enabled(run[n - 1], steps[n - 1]) && run[n - 1 + 1] == Do(run[n - 1], steps[n - 1]);
      if steps[n - 1].SendBeat? {
        BeatCarriesItsNumber(run, steps, n - 1);
      }
    }
  }

  // Every heartbeat on the wire was numbered by a step of the run, and sent as
  // the kind it was numbered as.
  lemma {:induction false} BeatsWereNumbered(run: seq<State>, steps: seq<Step>, n: nat, p: nat) returns (i: nat)
    requires IsRun(run, steps) && n < |run| && p < |run[n].wire| && run[n].wire[p].Beaten?
    ensures i < n && steps[i] == TakeNumber(run[n].wire[p].h, run[n].wire[p].final)
  {
    WireIsSent(run, steps, n);
    i := SentWereNumbered(run, steps, n, p);
  }

  lemma {:induction false} SentWereNumbered(run: seq<State>, steps: seq<Step>, n: nat, p: nat) returns (i: nat)
    requires n <= |steps| < |run| && p < |Sent(run, steps, n)| && Sent(run, steps, n)[p].Beaten?
    ensures i < n && steps[i] == TakeNumber(Sent(run, steps, n)[p].h, Sent(run, steps, n)[p].final)
  {
    if p < |Sent(run, steps, n - 1)| {
      i := SentWereNumbered(run, steps, n - 1, p);
    } else {
      i := TakenBy(steps, n - 1);
    }
  }

  lemma {:induction false} TakenBy(steps: seq<Step>, n: nat) returns (i: nat)
    requires n <= |steps| && Taken(steps, n).Some?
    ensures i < n && steps[i] == TakeNumber(Taken(steps, n).value.0, Taken(steps, n).value.1)
  {
    if steps[n - 1].TakeNumber? {
      i := n - 1;
    } else {
      i := TakenBy(steps, n - 1);
    }
  }

  // The last attempt on a presence event fails.
  ghost predicate Exhausts(s: State, step: Step) {
    && step == Attempt(false) && s.worker.Delivering? && s.worker.n < |s.enqueued|
    && s.enqueued[s.worker.n].kind != AgentStopping && s.worker.failures >= 2
  }

  // The run is cancelled exactly by a shutdown or by the third failure on a
  // presence event.
  lemma {:induction false} CancelledExactly(run: seq<State>, steps: seq<Step>, n: nat)
    requires IsRun(run, steps) && n < |run|
    ensures run[n].cancelled
       <==> run[0].cancelled || exists i :: 0 <= i < n && (steps[i] == Shutdown || Exhausts(run[i], steps[i]))
  {
    if n > 0 {
      CancelledExactly(run, steps, n - 1);
      assert Enabled(run[n - 1], steps[n - 1]) && run[n - 1 + 1] == Do(run[n - 1], steps[n - 1]);
      assert run[n].cancelled <==> run[n - 1].cancelled || steps[n - 1] == Shutdown || Exhausts(run[n - 1], steps[n - 1]);
    }
  }

  function Pushes(n: nat, outcome: nat -> bool, k: nat): seq<Wire> {
    seq(k, i requires 0 <= i < k => Push(n, outcome(i)))
  }

  // The worker's retry loop for the event it holds: attempts until one
  // succeeds or they run out, each of them one step of the model.
  method Deliver(s: State, outcome: nat -> bool) returns (t: State, sent: nat)
    requires s.worker.Delivering? && s.worker.n < |s.enqueued| && s.worker.failures == 0
    ensures var kind := s.enqueued[s.worker.n].kind;
      && 1 <= sent <= (if kind == AgentStopping then 1 else 3)
      && (forall i: nat :: i < sent - 1 ==> !outcome(i))
      && (sent < (if kind == AgentStopping then 1 else 3) ==> outcome(sent - 1))
      && t == s.(worker := Idle,
                 wire := s.wire + Pushes(s.worker.n, outcome, sent),
                 cancelled := s.cancelled || (kind != AgentStopping && !outcome(sent - 1)))
  {
    var n := s.worker.n;
    var attempts := Attempts(s.enqueued[n].kind);
    t, sent := s, 0;
    while sent < attempts
      invariant sent < attempts && t == s.(worker := Delivering(n, sent), wire := s.wire + Pushes(n, outcome, sent))
      invariant forall i: nat :: i < sent ==> !outcome(i)
    {
      assert Pushes(n, outcome, sent + 1) == Pushes(n, outcome, sent) + [Push(n, outcome(sent))];
      t := Attempted(t, outcome(sent));
      sent := sent + 1;
      if outcome(sent - 1) || sent == attempts {
        return;
      }
    }
  }
}

// The sink's numbers are the ones the crash-safe sequence hands out.
module Numbering {
  import opened EventSink
  import Sequence

  predicate Numbered(step: Step) {
    step.Emit? || step.TakeNumber?
  }

  // The numbers drawn by a schedule of steps, in order.
  function Drawn(steps: seq<Step>): seq<int> {
    if steps == [] then []
    else
      var before, last := Drawn(steps[..|steps| - 1]), steps[|steps| - 1];
      if Numbered(last) then before + [last.number] else before
  }

  // The states a schedule goes through, whatever its numbers are.
  ghost predicate Follows(run: seq<State>, steps: seq<Step>) {
    && |run| == |steps| + 1
    && run[0].enqueued == [] && run[0].queue == [] && run[0].wire == [] && run[0].taken == 0
    && run[0].worker == Idle && run[0].beat == Resting
    && forall i :: 0 <= i < |steps| ==>
         Possible(run[i], steps[i]) && (Enabled(run[i], steps[i]) ==> run[i + 1] == Do(run[i], steps[i]))
  }

  lemma {:induction false} DrawnIsPrefix(steps: seq<Step>, n: nat)
    requires n <= |steps|
    ensures Drawn(steps[..n]) <= Drawn(steps)
    decreases |steps|
  {
    if n < |steps| {
      assert steps[..|steps| - 1][..n] == steps[..n];
      DrawnIsPrefix(steps[..|steps| - 1], n);
    } else {
      assert steps[..n] == steps;
    }
  }

  // What the sequence of a process has handed out, from some call on.
  ghost predicate HandedOut(numbers: seq<int>, handed: seq<Sequence.Handed>, from: nat) {
    && from + |numbers| <= |handed|
    && forall i :: 0 <= i < |numbers| ==> numbers[i] == handed[from + i].value
  }

  // The newest number is the last one drawn.
  ghost predicate LastIsDrawn(start: State, s: State, drawn: seq<int>) {
    s.last == if drawn == [] then start.last else drawn[|drawn| - 1]
  }

  // The numbers drawn are the values handed out from some call on, and the
  // sink has seen none above the first of them.
  ghost predicate FromSequence(start: State, steps: seq<Step>, handed: seq<Sequence.Handed>, from: nat) {
    && Sequence.Monotone(handed) && HandedOut(Drawn(steps), handed, from)
    && (Drawn(steps) != [] ==> start.last <= Drawn(steps)[0])
  }

  lemma NextIsEnabled(start: State, s: State, steps: seq<Step>, n: nat, handed: seq<Sequence.Handed>, from: nat)
    requires n < |steps| && Possible(s, steps[n]) && FromSequence(start, steps, handed, from)
    requires LastIsDrawn(start, s, Drawn(steps[..n]))
    ensures Enabled(s, steps[n]) && LastIsDrawn(start, Do(s, steps[n]), Drawn(steps[..n + 1]))
  {
    assert steps[..n + 1][..n] == steps[..n];
    if Numbered(steps[n]) {
      var d := Drawn(steps[..n]);
      DrawnIsPrefix(steps, n + 1);
      assert Drawn(steps[..n + 1]) == d + [steps[n].number];
      NumberRises(d, steps[n].number, Drawn(steps), handed, from);
    }
  }

  lemma NumberRises(d: seq<int>, number: int, drawn: seq<int>, handed: seq<Sequence.Handed>, from: nat)
    requires d + [number] <= drawn && Sequence.Monotone(handed) && HandedOut(drawn, handed, from)
    ensures drawn[|d|] == number && (d != [] ==> d[|d| - 1] <= number)
  {
    assert drawn[|d|] == (d + [number])[|d|];
    if d != [] {
      assert drawn[|d| - 1] == (d + [number])[|d| - 1];
      assert handed[from + (|d| - 1)].value <= handed[from + |d|].value;
    }
  }

  lemma {:induction false} StepIsEnabled(run: seq<State>, steps: seq<Step>, n: nat, handed: seq<Sequence.Handed>, from: nat)
    requires Follows(run, steps) && n < |steps| && FromSequence(run[0], steps, handed, from)
    ensures LastIsDrawn(run[0], run[n], Drawn(steps[..n])) && Enabled(run[n], steps[n])
  {
    if n > 0 {
      StepIsEnabled(run, steps, n - 1, handed, from);
      NextIsEnabled(run[0], run[n - 1], steps, n - 1, handed, from);
      assert run[n - 1 + 1] == Do(run[n - 1], steps[n - 1]);
    }
    assert Possible(run[n], steps[n]);
    NextIsEnabled(run[0], run[n], steps, n, handed, from);
  }

  // A schedule whose numbers come from any run of the sequence, with whatever
  // failed saves, crashes and restarts before it, is a run of the sink: the
  // numbers are never the reason that a step is not enabled.
  lemma SequenceNumbersTheSink(run: seq<State>, steps: seq<Step>,
                               issued: seq<Sequence.State>, issuing: seq<Sequence.Step>, m: nat, from: nat)
    requires Follows(run, steps)
    requires Sequence.IsRun(issued, issuing) && m < |issued| && HandedOut(Drawn(steps), issued[m].handed, from)
    requires Drawn(steps) != [] ==> run[0].last <= Drawn(steps)[0]
    ensures IsRun(run, steps)
  {
    Sequence.SequenceNeverRegresses(issued, issuing, m);
    forall i | 0 <= i < |steps|
      ensures Enabled(run[i], steps[i])
    {
      StepIsEnabled(run, steps, i, issued[m].handed, from);
    }
  }
}
