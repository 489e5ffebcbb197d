// supervisor/supervisor.go: the replica maps, the cached status list, and the
// suspend and resume signals.

// What the supervisor knows of each replica, and what each critical section
// does to it.
module Replicas {
  import opened Basics

  datatype ReplicaState = Loading | Ready | Suspended | Stopped

  // `live`: a child process is registered.  `saved`: the state to restore.
  datatype Replica = Replica(live: bool, state: ReplicaState, saved: Option<ReplicaState>, port: int, gpu: bool)

  type Table = map<string, Replica>

  datatype Status = Status(id: string, port: int, state: ReplicaState, gpu: bool)

  function Live(t: Table): set<string> {
    set id | id in t && t[id].live
  }

  function StatusOf(t: Table, id: string): Status
    requires id in t
  {
    Status(id, t[id].port, t[id].state, t[id].gpu)
  }

  // Registration leaves a saved state alone.
  function Registered(t: Table, id: string, port: int, gpu: bool): Table {
    t[id := Replica(true, Loading, if id in t then t[id].saved else None, port, gpu)]
  }

  function Down(r: Replica): Replica {
    r.(live := false, state := Stopped, saved := None)
  }

  // A stop and a crash have the same effect on the maps.
  function Ended(t: Table, id: string): Table {
    if id in t then t[id := Down(t[id])] else t
  }

  function BecameReady(t: Table, id: string): Table {
    if id in t && t[id].state == Loading then t[id := t[id].(state := Ready)] else t
  }

  function Signalled(r: Replica, vanished: bool, suspend: bool): Replica {
    if vanished then Down(r)
    else if suspend then
      r.(state := Suspended, saved := if r.state != Suspended then Some(r.state) else r.saved)
    else if r.saved.Some? then r.(state := r.saved.value, saved := None)
    else r
  }

  // Commits a signal to the replicas that were snapshotted, registered or not.
  function Commit(t: Table, snapshot: set<string>, vanished: set<string>, suspend: bool): Table {
    map id | id in t :: if id in snapshot then Signalled(t[id], id in vanished, suspend) else t[id]
  }

  // A signal taken as one step: snapshot and commit together.
  function Signal(t: Table, vanished: set<string>, suspend: bool): Table {
    Commit(t, Live(t), vanished, suspend)
  }

  // Replicas stopped one after the other.
  ghost function EndedAll(t: Table, ids: seq<string>): Table {
    if ids == [] then t else Ended(EndedAll(t, ids[..|ids| - 1]), ids[|ids| - 1])
  }

  lemma {:induction false} EndedAllRows(t: Table, ids: seq<string>)
    ensures EndedAll(t, ids).Keys == t.Keys
    ensures forall id | id in t :: EndedAll(t, ids)[id] == if id in ids then Down(t[id]) else t[id]
  {
    if ids != [] {
      var n := |ids| - 1;
      EndedAllRows(t, ids[..n]);
      assert ids == ids[..n] + [ids[n]];
    }
  }

  // ---- Coherence ----

  // A registered child is exactly what is not stopped, and a saved state is
  // kept exactly while suspended.
  ghost predicate CoherentReplica(r: Replica) {
    && (r.live <==> r.state != Stopped)
    && (r.saved.Some? <==> r.state == Suspended)
    && (r.saved.Some? ==> r.saved.value in {Loading, Ready})
  }

  ghost predicate Coherent(t: Table) {
    forall id | id in t :: CoherentReplica(t[id])
  }

  // Whoever is in the snapshot of a suspend has vanished or is still registered.
  ghost predicate CleanCommit(t: Table, snapshot: set<string>, vanished: set<string>, suspend: bool) {
    suspend ==> forall id | id in t && id in snapshot && id !in vanished :: t[id].live
  }

  // A commit keeps coherence if and only if everyone a suspend snapshotted is
  // registered at that moment, or was found vanished.
  lemma CommitCoherentExactly(t: Table, snapshot: set<string>, vanished: set<string>, suspend: bool)
    requires Coherent(t)
    ensures Coherent(Commit(t, snapshot, vanished, suspend)) <==> CleanCommit(t, snapshot, vanished, suspend)
  {
    var t' := Commit(t, snapshot, vanished, suspend);
    if !CleanCommit(t, snapshot, vanished, suspend) {
      var id :| id in t && id in snapshot && id !in vanished && !t[id].live;
      assert id in t' && !CoherentReplica(t'[id]);
    }
  }

  // Steps of the supervisor; a signal is two of them, so that anything may
  // fall in between.  A registration does not look again at whether the model
  // is already running, so two starts of one model may race.
  datatype Step =
    | Register(id: string, port: int, gpu: bool)
    | End(id: string)                                // stop or crash
    | Probe(id: string)                              // a health check succeeded
    | Snapshot(suspend: bool)
    | CommitSignal(vanished: set<string>)

  datatype State = State(table: Table, inFlight: Option<(set<string>, bool)>)

  predicate Enabled(s: State, step: Step) {
    match step
    case Snapshot(_) => s.inFlight.None?
    case CommitSignal(_) => s.inFlight.Some?
    case _ => true
  }

  function Do(s: State, step: Step): State
    requires Enabled(s, step)
  {
    match step
    case Register(id, port, gpu) => s.(table := Registered(s.table, id, port, gpu))
    case End(id) => s.(table := Ended(s.table, id))
    case Probe(id) => s.(table := BecameReady(s.table, id))
    case Snapshot(suspend) => s.(inFlight := Some((Live(s.table), suspend)))
    case CommitSignal(vanished) =>
      State(Commit(s.table, s.inFlight.value.0, vanished, s.inFlight.value.1), None)
  }

  ghost predicate IsRun(run: seq<State>, steps: seq<Step>) {
    && |run| == |steps| + 1 && run[0] == State(map[], None)
    && forall i :: 0 <= i < |steps| ==> Enabled(run[i], steps[i]) && run[i + 1] == Do(run[i], steps[i])
  }

  // Commits are clean, and no second start lands on a suspended replica.
  ghost predicate CleanStep(s: State, step: Step)
    requires Enabled(s, step)
  {
    && (step.CommitSignal? ==> CleanCommit(s.table, s.inFlight.value.0, step.vanished, s.inFlight.value.1))
    && (step.Register? && step.id in s.table ==> s.table[step.id].state != Suspended)
  }

  lemma StepCoherentExactly(s: State, step: Step)
    requires Enabled(s, step) && Coherent(s.table)
    ensures Coherent(Do(s, step).table) <==> CleanStep(s, step)
  {
    match step
    case CommitSignal(vanished) =>
      CommitCoherentExactly(s.table, s.inFlight.value.0, vanished, s.inFlight.value.1);
    case Register(id, port, gpu) =>
      assert id in Registered(s.table, id, port, gpu);
    case _ =>
  }

  // Over every run: the maps stay coherent up to the first unclean step, and
  // are incoherent right after it.
  lemma {:induction false} RunCoherentExactly(run: seq<State>, steps: seq<Step>, n: nat)
    requires IsRun(run, steps) && n < |run|
    ensures (forall i :: 0 <= i <= n ==> Coherent(run[i].table))
       <==> (forall i :: 0 <= i < n ==> CleanStep(run[i], steps[i]))
  {
    if n > 0 {
      RunCoherentExactly(run, steps, n - 1);
      assert run[n] == Do(run[n - 1], steps[n - 1]);
      if forall i :: 0 <= i <= n - 1 ==> Coherent(run[i].table) {
        StepCoherentExactly(run[n - 1], steps[n - 1]);
      }
    }
  }

  // ---- What the rows record ----

  // The step ends the replica: a stop, a crash, or a signal, suspend or resume,
  // that found its process gone.
  ghost predicate Ends(s: State, step: Step, id: string)
    requires Enabled(s, step)
  {
    || step == End(id)
    || (step.CommitSignal? && id in s.inFlight.value.0 && id in step.vanished)
  }

  // Registered at i, and not ended since.
  ghost predicate RegisteredSince(run: seq<State>, steps: seq<Step>, i: nat, n: nat, id: string)
    requires IsRun(run, steps) && i < n < |run|
  {
    && steps[i].Register? && steps[i].id == id
    && forall j :: i < j < n ==> !Ends(run[j], steps[j], id)
  }

  // Over every run: a replica has a process exactly if it was registered and
  // has not ended since.
  lemma {:induction false} LiveExactly(run: seq<State>, steps: seq<Step>, n: nat, id: string)
    requires IsRun(run, steps) && n < |run|
    ensures id in Live(run[n].table) <==> exists i :: 0 <= i < n && RegisteredSince(run, steps, i, n, id)
  {
    if n > 0 {
      var s, step := run[n - 1], steps[n - 1];
      LiveExactly(run, steps, n - 1, id);
      assert Enabled(s, step) && run[n - 1 + 1] == Do(s, step);
      if step.Register? && step.id == id {
        assert RegisteredSince(run, steps, n - 1, n, id);
      } else if !Ends(s, step, id) {
        if id in Live(s.table) {
          var i :| 0 <= i < n - 1 && RegisteredSince(run, steps, i, n - 1, id);
          assert RegisteredSince(run, steps, i, n, id);
        } else if i :| 0 <= i < n - 1 && RegisteredSince(run, steps, i, n, id) {
          assert RegisteredSince(run, steps, i, n - 1, id);
        }
      }
    }
  }

  // Ending a replica leaves it stopped with nothing saved, and where it was.
  lemma EndsStopped(s: State, step: Step, id: string)
    requires Enabled(s, step) && Ends(s, step, id) && id in s.table
    ensures id in Do(s, step).table
    ensures var row, row' := s.table[id], Do(s, step).table[id];
      row'.state == Stopped && row'.saved == None && !row'.live && row'.port == row.port && row'.gpu == row.gpu
  {
  }

  // The port and the GPU flag are those of the last registration.
  lemma {:induction false} RowIsAsRegistered(run: seq<State>, steps: seq<Step>, n: nat, id: string) returns (i: nat)
    requires IsRun(run, steps) && n < |run| && id in run[n].table
    ensures i < n && steps[i] == Register(id, run[n].table[id].port, run[n].table[id].gpu)
    ensures forall j :: i < j < n ==> !(steps[j].Register? && steps[j].id == id)
  {
    assert Enabled(run[n - 1], steps[n - 1]) && run[n - 1 + 1] == Do(run[n - 1], steps[n - 1]);
    if steps[n - 1].Register? && steps[n - 1].id == id {
      i := n - 1;
    } else {
      i := RowIsAsRegistered(run, steps, n - 1, id);
    }
  }

  // An unclean commit leaves a replica that reads SUSPENDED with no process
  // behind it, and no later signal ever changes that.
  ghost predicate Stranded(t: Table, id: string) {
    id in t && !t[id].live && t[id].state == Suspended
  }

  lemma StrandedReplicaStays(t: Table, id: string, vanished: set<string>, suspend: bool)
    requires Stranded(t, id)
    ensures Stranded(Signal(t, vanished, suspend), id)
  {
  }

  // A stop between a suspend's snapshot and its commit is such a run.
  lemma StopInsideSuspendStrands(id: string, port: int, gpu: bool)
    ensures var s1 := Do(State(map[], None), Register(id, port, gpu));
      var s2 := Do(s1, Snapshot(true));
      var s3 := Do(s2, End(id));
      Coherent(s3.table) && Stranded(Do(s3, CommitSignal({})).table, id)
  {
    var s1 := Do(State(map[], None), Register(id, port, gpu));
    assert id in Live(s1.table);
  }

  // A start that lands on it (from a status list read before the commit) and
  // a resume leave the opposite: a process registered as STOPPED.
  ghost predicate Phantom(t: Table, id: string) {
    id in t && t[id].live && t[id].state == Stopped
  }

  lemma StartOnStrandedMakesPhantom(id: string, port: int, gpu: bool)
    ensures var s1 := Do(State(map[], None), Register(id, port, gpu));
      var s2 := Do(Do(Do(s1, Snapshot(true)), End(id)), CommitSignal({}));
      var s3 := Do(Do(s2, Register(id, port, gpu)), Snapshot(false));
      Stranded(s2.table, id) && Phantom(Do(s3, CommitSignal({})).table, id)
  {
    var s1 := Do(State(map[], None), Register(id, port, gpu));
    StopInsideSuspendStrands(id, port, gpu);
    var s2 := Do(Do(Do(s1, Snapshot(true)), End(id)), CommitSignal({}));
    assert id in Live(s1.table) && s2.table[id].saved == Some(Stopped);
    assert id in Live(Do(s2, Register(id, port, gpu)).table);
  }

  // ---- Suspend and resume ----

  // The state a replica returns to when it is resumed.
  function Prior(r: Replica): ReplicaState {
    if r.state == Suspended && r.saved.Some? then r.saved.value else r.state
  }

  // The replica keeps its process from moment i to moment j: it is registered
  // throughout and not registered anew.
  ghost predicate Survives(run: seq<State>, steps: seq<Step>, i: nat, j: nat, id: string)
    requires i <= j < |run| == |steps| + 1
  {
    && (forall k :: i <= k <= j ==> id in Live(run[k].table))
    && (forall k :: i <= k < j ==> !(steps[k].Register? && steps[k].id == id))
  }

  // A health check succeeds on the loading replica.
  ghost predicate Readied(s: State, step: Step, id: string) {
    step.Probe? && step.id == id && id in s.table && s.table[id].state == Loading
  }

  ghost predicate ReadiedDuring(run: seq<State>, steps: seq<Step>, i: nat, j: nat, id: string)
    requires i <= j < |run| == |steps| + 1
  {
    exists k :: i <= k < j && Readied(run[k], steps[k], id)
  }

  lemma SignalKeepsPrior(r: Replica, suspend: bool)
    requires CoherentReplica(r) && r.live
    ensures Prior(Signalled(r, false, suspend)) == Prior(r)
    ensures !suspend ==> Signalled(r, false, suspend).state == Prior(r)
  {
  }

  lemma StepKeepsPrior(s: State, step: Step, id: string)
    requires Enabled(s, step) && Coherent(s.table)
    requires id in Live(s.table) && id in Live(Do(s, step).table)
    requires !(step.Register? && step.id == id)
    ensures Prior(Do(s, step).table[id]) == if Readied(s, step, id) then Ready else Prior(s.table[id])
    ensures Resumes(s, step, id) ==> Do(s, step).table[id].state == Prior(s.table[id])
  {
    if step.CommitSignal? {
      SignalKeepsPrior(s.table[id], s.inFlight.value.1);
    }
  }

  // The commit of a resume that snapshotted the replica.
  ghost predicate Resumes(s: State, step: Step, id: string)
    requires Enabled(s, step)
  {
    step.CommitSignal? && !s.inFlight.value.1 && id in s.inFlight.value.0
  }

  // On every clean run, whatever falls between and inside the signals: the
  // state a surviving replica returns to is the one it had, or READY once a
  // health check has found it so; and a resume brings it back to that state.
  lemma {:induction false} ResumeRestores(run: seq<State>, steps: seq<Step>, i: nat, j: nat, id: string)
    requires IsRun(run, steps) && i <= j < |run| && Survives(run, steps, i, j, id)
    requires forall k :: 0 <= k < j ==> CleanStep(run[k], steps[k])
    ensures Prior(run[j].table[id]) == if ReadiedDuring(run, steps, i, j, id) then Ready else Prior(run[i].table[id])
    ensures i < j && Resumes(run[j - 1], steps[j - 1], id) ==> run[j].table[id].state == Prior(run[j].table[id])
    decreases j - i
  {
    if i < j {
      var s, step := run[j - 1], steps[j - 1];
      ResumeRestores(run, steps, i, j - 1, id);
      RunCoherentExactly(run, steps, j - 1);
      assert Enabled(s, step) && run[j - 1 + 1] == Do(s, step);
      StepKeepsPrior(s, step, id);
      if Readied(s, step, id) {
        assert ReadiedDuring(run, steps, i, j, id);
      } else {
        ReadiedLonger(run, steps, i, j, id);
      }
    }
  }

  lemma ReadiedLonger(run: seq<State>, steps: seq<Step>, i: nat, j: nat, id: string)
    requires i < j < |run| == |steps| + 1 && !Readied(run[j - 1], steps[j - 1], id)
    ensures ReadiedDuring(run, steps, i, j, id) <==> ReadiedDuring(run, steps, i, j - 1, id)
  {
    if ReadiedDuring(run, steps, i, j - 1, id) {
      var k :| i <= k < j - 1 && Readied(run[k], steps[k], id);
      assert i <= k < j && Readied(run[k], steps[k], id);
    }
  }

  // A suspend taken as one step parks the whole table.
  lemma SuspendParks(t: Table, vanished: set<string>)
    requires Coherent(t)
    ensures var t' := Signal(t, vanished, true);
      && Coherent(t') && t'.Keys == t.Keys
      && forall id | id in t :: t'[id].state == Stopped || (t'[id].state == Suspended && Prior(t'[id]) == Prior(t[id]))
  {
    CommitCoherentExactly(t, Live(t), vanished, true);
  }
}

// The supervisor object.  Each method body is one critical section, or a
// snapshot and its commit with the signals in between.
module Supervision {
  import opened Basics
  import opened Replicas

  // The source's maps, as one value.
  datatype Maps = Maps(
    children: map<string, nat>,           // process ids
    states: map<string, ReplicaState>,
    ports: map<string, int>,
    gpu: map<string, bool>,
    preSuspend: map<string, ReplicaState>)
  {
    ghost predicate Keyed() {
      && states.Keys == ports.Keys == gpu.Keys
      && children.Keys <= states.Keys && preSuspend.Keys <= states.Keys
    }

    function Row(id: string): Replica
      requires id in states && id in ports && id in gpu
    {
      Replica(id in children, states[id], if id in preSuspend then Some(preSuspend[id]) else None, ports[id], gpu[id])
    }

    function Known(): Table
      requires Keyed()
    {
      map id | id in states :: Row(id)
    }
  }

  // One replica changed, the others did not.
  lemma OneRow(m: Maps, m': Maps, id: string)
    requires m.Keyed() && m'.Keyed() && m'.states.Keys == m.states.Keys + {id}
    requires forall x | x in m.states && x != id :: m'.Row(x) == m.Row(x)
    ensures m'.Known() == m.Known()[id := m'.Row(id)]
  {
  }

  lemma ReadyRow(m: Maps, id: string)
    requires m.Keyed() && id in m.states && m.states[id] == Loading
    ensures var m' := m.(states := m.states[id := Ready]);
      m'.Keyed() && m'.Known() == BecameReady(m.Known(), id)
  {
    OneRow(m, m.(states := m.states[id := Ready]), id);
  }

  // The cached list is the projection of the table: one status each.
  ghost predicate IsProjection(cached: seq<Status>, t: Table) {
    && (forall i, j :: 0 <= i < j < |cached| ==> cached[i].id != cached[j].id)
    && (forall s | s in cached :: s.id in t && s == StatusOf(t, s.id))
    && (forall id | id in t :: StatusOf(t, id) in cached)
  }

  class Supervisor {
    var m: Maps
    var cached: seq<Status>

    // Holds at every lock release, in every interleaving.
    ghost predicate Valid()
      reads this
    {
      m.Keyed() && IsProjection(cached, m.Known())
    }

    ghost function Known(): Table
      requires m.Keyed()
      reads this
    {
      m.Known()
    }

    constructor ()
      ensures Valid() && Known() == map[]
    {
      m := Maps(map[], map[], map[], map[], map[]);
      cached := [];
    }

    // `spawned` is the new process, or None when the spawn fails.
    method StartReplica(id: string, port: int, usesGpu: bool, spawned: Option<nat>) returns (failed: bool)
      requires Valid()
      modifies this
      ensures Valid()
      ensures failed <==> id !in Live(old(Known())) && spawned.None?
      ensures Known() == if id in Live(old(Known())) || failed then old(Known()) else Registered(old(Known()), id, port, usesGpu)
    {
      assert id in Live(Known()) <==> id in m.children;
      if id in m.children {
        return false;
      }
      if spawned.None? {
        return true;
      }
      ghost var was := m;
      m := m.(children := m.children[id := spawned.value], ports := m.ports[id := port], gpu := m.gpu[id := usesGpu]);
      m := m.(states := m.states[id := Loading]);
      OneRow(was, m, id);
      RebuildCache();
      return false;
    }

    method StopReplica(id: string)
      requires Valid()
      modifies this
      ensures Valid() && Known() == Ended(old(Known()), id)
    {
      ghost var was := m;
      m := m.(children := m.children - {id}, preSuspend := m.preSuspend - {id});
      if id in m.ports {
        m := m.(states := m.states[id := Stopped]);
        OneRow(was, m, id);
        RebuildCache();
      } else {
        assert m.Known() == was.Known();
      }
    }

    method MarkReady(id: string)
      requires Valid()
      modifies this
      ensures Valid() && Known() == BecameReady(old(Known()), id)
    {
      if id in m.states && m.states[id] == Loading {
        ReadyRow(m, id);
        m := m.(states := m.states[id := Ready]);
        RebuildCache();
      }
    }

    method MarkCrashed(id: string)
      requires Valid()
      modifies this
      ensures Valid() && Known() == Ended(old(Known()), id)
    {
      ghost var was := m;
      m := m.(children := m.children - {id}, preSuspend := m.preSuspend - {id});
      if id in m.states {
        m := m.(states := m.states[id := Stopped]);
        OneRow(was, m, id);
        RebuildCache();
      } else {
        assert m.Known() == was.Known();
      }
    }

    method Statuses() returns (out: seq<Status>)
      requires Valid()
      ensures IsProjection(out, Known())
    {
      return cached;
    }

    method SuspendAll(vanished: set<string>)
      requires Valid()
      modifies this
      ensures Valid() && Known() == Signal(old(Known()), vanished, true)
    {
      ApplySignal(vanished, true);
    }

    method ResumeAll(vanished: set<string>)
      requires Valid()
      modifies this
      ensures Valid() && Known() == Signal(old(Known()), vanished, false)
    {
      ApplySignal(vanished, false);
    }

    method ApplySignal(vanished: set<string>, suspend: bool)
      requires Valid()
      modifies this
      ensures Valid() && Known() == Signal(old(Known()), vanished, suspend)
    {
      var snapshot := m.children.Keys;
      assert snapshot == Live(Known());
      CommitSignals(snapshot, vanished, suspend);
    }

    // The locked part of a signal, for whatever was snapshotted earlier.
    method CommitSignals(snapshot: set<string>, vanished: set<string>, suspend: bool)
      requires Valid()
      modifies this
      ensures Valid() && Known() == Commit(old(Known()), snapshot, vanished, suspend)
    {
      ghost var t0 := m.Known();
      ghost var done: set<string> := {};
      var todo := snapshot;
      assert t0 == Commit(t0, {}, vanished, suspend);
      while todo != {}
        invariant done !! todo && done + todo == snapshot
        invariant m.Keyed() && m.Known() == Commit(t0, done, vanished, suspend)
        decreases todo
      {
        var id :| id in todo;
        CommitOneMore(t0, done, id, vanished, suspend);
        SignalOne(id, id in vanished, suspend);
        todo := todo - {id};
        done := done + {id};
      }
      assert done == snapshot;
      RebuildCache();
    }

    // pruneLocked and transitionSignalLocked.
    method SignalOne(id: string, vanished: bool, suspend: bool)
      requires m.Keyed()
      modifies `m
      ensures m.Keyed()
      ensures m.Known() == if id in old(m.Known()) then old(m.Known())[id := Signalled(old(m.Known())[id], vanished, suspend)] else old(m.Known())
    {
      ghost var was := m;
      if vanished {
        m := m.(children := m.children - {id}, preSuspend := m.preSuspend - {id});
        if id in m.states {
          m := m.(states := m.states[id := Stopped]);
        }
      } else if id in m.states {
        if suspend {
          if m.states[id] != Suspended {
            m := m.(preSuspend := m.preSuspend[id := m.states[id]]);
          }
          m := m.(states := m.states[id := Suspended]);
        } else if id in m.preSuspend {
          m := m.(states := m.states[id := m.preSuspend[id]], preSuspend := m.preSuspend - {id});
        }
      }
      if id in was.states {
        OneRow(was, m, id);
      } else {
        assert m.Known() == was.Known();
      }
    }

    method RebuildCache()
      requires m.Keyed()
      modifies `cached
      ensures IsProjection(cached, m.Known())
    {
      cached := [];
      var todo := m.states.Keys;
      ghost var t := m.Known();
      while todo != {}
        invariant todo <= m.states.Keys
        invariant forall i, j :: 0 <= i < j < |cached| ==> cached[i].id != cached[j].id
        invariant forall s | s in cached :: s.id in t && s.id !in todo && s == StatusOf(t, s.id)
        invariant forall id | id in t && id !in todo :: StatusOf(t, id) in cached
        decreases todo
      {
        var id :| id in todo;
        var status := Status(id, m.ports[id], m.states[id], m.gpu[id]);
        assert status == StatusOf(t, id);
        cached := cached + [status];
        todo := todo - {id};
      }
    }
  }

  lemma CommitOneMore(t0: Table, done: set<string>, id: string, vanished: set<string>, suspend: bool)
    requires id !in done
    ensures var t := Commit(t0, done, vanished, suspend);
      Commit(t0, done + {id}, vanished, suspend)
      == if id in t then t[id := Signalled(t[id], id in vanished, suspend)] else t
  {
  }
}
