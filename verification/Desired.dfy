// site.go: submitDesired, reconcileWorker, applyIfEligible and coalesce.  The
// heartbeat loop hands desired model sets to the reconcile worker through a
// one-place channel; sets are named by the order of their submission.

module Desired {
  import opened Basics

  datatype Producer = Between | Drained(n: nat)

  datatype Worker = Selecting | Coalescing(d: nat) | Deciding | Applying

  datatype State = State(
    submitted: nat,           // sets whose submission has finished
    producer: Producer,
    channel: Option<nat>,
    poke: bool,
    worker: Worker,
    pending: Option<nat>,
    applied: seq<nat>)        // sets given to Apply, in order

  const INITIAL := State(0, Between, None, false, Selecting, None, [])

  datatype Step =
    | Drain                   // submitDesired's first select
    | Send                    // and its second
    | Nudge
    | Receive                 // the worker's select takes a set
    | TakePoke                // or a poke
    | CoalesceMore
    | CoalesceDone
    | Decide(eligible: bool)
    | Finish

  predicate Enabled(s: State, step: Step) {
    match step
    case Drain => s.producer.Between?
    case Send => s.producer.Drained?
    case Nudge => true
    case Receive => s.worker.Selecting? && s.channel.Some?
    case TakePoke => s.worker.Selecting? && s.poke
    case CoalesceMore => s.worker.Coalescing? && s.channel.Some?
    case CoalesceDone => s.worker.Coalescing? && s.channel.None?
    case Decide(_) => s.worker.Deciding?
    case Finish => s.worker.Applying?
  }

  function Do(s: State, step: Step): State
    requires Enabled(s, step)
  {
    match step
    case Drain => s.(producer := Drained(s.submitted + 1), channel := None)
    case Send =>
      // Both selects have a default: a full channel drops the set.
      s.(producer := Between, submitted := s.producer.n,
         channel := if s.channel.None? then Some(s.producer.n) else s.channel)
    case Nudge => s.(poke := true)
    case Receive => s.(worker := Coalescing(s.channel.value), channel := None)
    case TakePoke => s.(worker := Deciding, poke := false)
    case CoalesceMore => s.(worker := Coalescing(s.channel.value), channel := None)
    case CoalesceDone => s.(worker := Deciding, pending := Some(s.worker.d))
    case Decide(eligible) =>
      if s.pending.None? || !eligible then s.(worker := Selecting)
      else s.(worker := Applying, pending := None, applied := s.applied + [s.pending.value])
    case Finish => s.(worker := Selecting)
  }

  ghost predicate IsRun(run: seq<State>, steps: seq<Step>) {
    && |run| == |steps| + 1 && run[0] == INITIAL
    && forall i :: 0 <= i < |steps| ==> Enabled(run[i], steps[i]) && run[i + 1] == Do(run[i], steps[i])
  }

  // ---- Where the sets are ----

  function Opt(o: Option<nat>): seq<nat> {
    if o.Some? then [o.value] else []
  }

  // From the sets already applied to the one the producer is handing over.
  function Pipeline(s: State): seq<nat> {
    s.applied + Opt(s.pending)
    + (if s.worker.Coalescing? then [s.worker.d] else [])
    + Opt(s.channel)
    + (if s.producer.Drained? then [s.producer.n] else [])
  }

  function Newest(s: State): nat {
    if s.producer.Drained? then s.producer.n else s.submitted
  }

  ghost predicate Rising(q: seq<nat>) {
    forall i, j :: 0 <= i < j < |q| ==> q[i] < q[j]
  }

  // Rising up to the newest set, if there is one.
  ghost predicate UpTo(q: seq<nat>, newest: nat) {
    && Rising(q)
    && (newest > 0 ==> q != [] && q[|q| - 1] == newest)
    && (forall x | x in q :: x <= newest)
  }

  ghost predicate Inv(s: State) {
    && UpTo(Pipeline(s), Newest(s))
    && (s.producer.Drained? ==> s.channel.None? && s.producer.n == s.submitted + 1)
  }

  // A newer set in the producer's hand replaces whatever was in the channel.
  lemma DrainKeepsInv(s: State)
    requires Inv(s) && s.producer.Between?
    ensures Inv(Do(s, Drain))
  {
    var p, q := Pipeline(s), Pipeline(Do(s, Drain));
    var n := |q| - 1;
    assert q == p[..n] + [s.submitted + 1];
    forall i | 0 <= i < n
      ensures q[i] <= s.submitted
    {
      assert q[i] == p[i] && p[i] in p;
    }
  }

  // Dropping a set that is not the last keeps the order and the newest.
  lemma DroppedKeepsOrder(a: seq<nat>, x: nat, b: seq<nat>, newest: nat)
    requires UpTo(a + [x] + b, newest) && b != []
    ensures UpTo(a + b, newest)
  {
    assert (a + b)[|a + b| - 1] == (a + [x] + b)[|a + [x] + b| - 1];
    assert forall y | y in a + b :: y in a + [x] + b;
    forall i, j | 0 <= i < j < |a + b|
      ensures (a + b)[i] < (a + b)[j]
    {
      var i', j' := if i < |a| then i else i + 1, if j < |a| then j else j + 1;
      assert (a + b)[i] == (a + [x] + b)[i'] && (a + b)[j] == (a + [x] + b)[j'];
    }
  }

  // What lies behind the worker's hand.
  function Behind(s: State): seq<nat> {
    Opt(s.channel) + if s.producer.Drained? then [s.producer.n] else []
  }

  lemma CoalesceMoreKeepsInv(s: State)
    requires Inv(s) && Enabled(s, CoalesceMore)
    ensures Inv(Do(s, CoalesceMore))
  {
    var a := s.applied + Opt(s.pending);
    assert Pipeline(s) == a + [s.worker.d] + Behind(s);
    assert Pipeline(Do(s, CoalesceMore)) == a + Behind(s);
    DroppedKeepsOrder(a, s.worker.d, Behind(s), Newest(s));
  }

  lemma CoalesceDoneKeepsInv(s: State)
    requires Inv(s) && Enabled(s, CoalesceDone)
    ensures Inv(Do(s, CoalesceDone))
  {
    var b := [s.worker.d] + Behind(s);
    assert Pipeline(Do(s, CoalesceDone)) == s.applied + b;
    if s.pending.None? {
      assert Pipeline(s) == s.applied + b;
    } else {
      assert Pipeline(s) == s.applied + [s.pending.value] + b;
      DroppedKeepsOrder(s.applied, s.pending.value, b, Newest(s));
    }
  }

  lemma StepKeepsInv(s: State, step: Step)
    requires Inv(s) && Enabled(s, step)
    ensures Inv(Do(s, step))
  {
    match step
    case Drain => DrainKeepsInv(s);
    case CoalesceMore => CoalesceMoreKeepsInv(s);
    case CoalesceDone => CoalesceDoneKeepsInv(s);
    case _ => assert Pipeline(Do(s, step)) == Pipeline(s);
  }

  lemma {:induction false} RunKeepsInv(run: seq<State>, steps: seq<Step>, n: nat)
    requires IsRun(run, steps) && n < |run|
    ensures Inv(run[n])
  {
    if n > 0 {
      RunKeepsInv(run, steps, n - 1);
      StepKeepsInv(run[n - 1], steps[n - 1]);
    }
  }

  // ---- What a run records ----

  // One set is submitted for each drain, numbered from one.
  ghost function Drains(steps: seq<Step>, n: nat): nat
    requires n <= |steps|
  {
    if n == 0 then 0 else Drains(steps, n - 1) + if steps[n - 1] == Drain then 1 else 0
  }

  lemma {:induction false} NewestIsLastSubmitted(run: seq<State>, steps: seq<Step>, n: nat)
    requires IsRun(run, steps) && n < |run|
    ensures Newest(run[n]) == Drains(steps, n)
  {
    if n > 0 {
      NewestIsLastSubmitted(run, steps, n - 1);
      RunKeepsInv(run, steps, n - 1);
      assert run[n - 1 + 1] == Do(run[n - 1], steps[n - 1]);
    }
  }

  // The sets that were pending when the worker found the machine eligible.
  ghost function Granted(run: seq<State>, steps: seq<Step>, n: nat): seq<nat>
    requires n <= |steps| < |run|
  {
    if n == 0 then []
    else if steps[n - 1] == Decide(true) then Granted(run, steps, n - 1) + Opt(run[n - 1].pending)
    else Granted(run, steps, n - 1)
  }

  // A set is applied exactly when it is pending and the machine eligible, and
  // it stays pending when the machine is not.
  lemma {:induction false} AppliedWhenEligible(run: seq<State>, steps: seq<Step>, n: nat)
    requires IsRun(run, steps) && n < |run|
    ensures run[n].applied == Granted(run, steps, n)
    ensures n > 0 && steps[n - 1] == Decide(false) ==> run[n].pending == run[n - 1].pending
    ensures n > 0 && steps[n - 1] == Decide(true) ==> run[n].pending == None
  {
    if n > 0 {
      AppliedWhenEligible(run, steps, n - 1);
      assert Enabled(run[n - 1], steps[n - 1]) && run[n - 1 + 1] == Do(run[n - 1], steps[n - 1]);
    }
  }

  // A nudge at i that the worker has not taken.
  ghost predicate Outstanding(steps: seq<Step>, i: nat, n: nat)
    requires i < n <= |steps|
  {
    steps[i] == Nudge && forall j :: i < j < n ==> steps[j] != TakePoke
  }

  // A nudge is remembered until the worker takes it.
  lemma {:induction false} NudgeIsRemembered(run: seq<State>, steps: seq<Step>, n: nat)
    requires IsRun(run, steps) && n < |run|
    ensures run[n].poke <==> exists i :: 0 <= i < n && Outstanding(steps, i, n)
  {
    if n > 0 {
      NudgeIsRemembered(run, steps, n - 1);
      assert Enabled(run[n - 1], steps[n - 1]) && run[n - 1 + 1] == Do(run[n - 1], steps[n - 1]);
      if steps[n - 1] == Nudge {
        assert Outstanding(steps, n - 1, n);
      } else if steps[n - 1] != TakePoke {
        if run[n - 1].poke {
          var i :| 0 <= i < n - 1 && Outstanding(steps, i, n - 1);
          assert Outstanding(steps, i, n);
        } else if i :| 0 <= i < n - 1 && Outstanding(steps, i, n) {
          assert Outstanding(steps, i, n - 1);
        }
      }
    }
  }

  // And it makes the worker look at a set that was deferred: what is pending is
  // applied as soon as the machine is eligible.
  lemma NudgeRevivesDeferred(s: State)
    requires s.worker.Selecting? && s.poke && s.pending.Some?
    ensures Enabled(s, TakePoke) && Enabled(Do(s, TakePoke), Decide(true))
    ensures var t := Do(Do(s, TakePoke), Decide(true));
      t.applied == s.applied + [s.pending.value] && t.pending == None && !t.poke && t.channel == s.channel && t.producer == s.producer
  {
  }

  // ---- Where the newest is ----

  // The newest set is never lost: it is with the producer, in the channel, in
  // the worker's hand, pending, or the last one given to Apply.
  lemma NewestIsNeverLost(run: seq<State>, steps: seq<Step>, n: nat)
    requires IsRun(run, steps) && n < |run| && Newest(run[n]) > 0
    ensures var s := run[n];
      || s.producer == Drained(Newest(s))
      || s.channel == Some(Newest(s))
      || s.worker == Coalescing(Newest(s))
      || s.pending == Some(Newest(s))
      || (s.applied != [] && s.applied[|s.applied| - 1] == Newest(s))
  {
    RunKeepsInv(run, steps, n);
  }

  // Sets are applied in submission order, none twice, and whatever is still
  // on its way is newer than all of them.
  lemma AppliedInOrder(run: seq<State>, steps: seq<Step>, n: nat)
    requires IsRun(run, steps) && n < |run|
    ensures Rising(run[n].applied)
    ensures run[n].pending.Some? ==> forall x | x in run[n].applied :: x < run[n].pending.value
  {
    RunKeepsInv(run, steps, n);
    var s := run[n];
    assert s.applied == Pipeline(s)[..|s.applied|];
    if s.pending.Some? {
      assert Pipeline(s)[|s.applied|] == s.pending.value;
    }
  }

  // submitDesired never reaches the default of its second select.
  lemma SendNeverDrops(run: seq<State>, steps: seq<Step>, n: nat)
    requires IsRun(run, steps) && n < |steps| && steps[n].Send?
    ensures run[n + 1].channel == Some(run[n].producer.n)
  {
    RunKeepsInv(run, steps, n);
  }
}
