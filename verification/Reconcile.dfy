// reconcile/reconcile.go: Apply makes the running replicas match the desired
// set, over the supervisor of supervisor.go.

module Reconcile {
  import opened Basics
  import opened Replicas
  import opened Supervision
  import opened Sorting

  datatype PortRange = PortRange(start: int, count: nat)

  predicate InRange(r: PortRange, p: int) {
    r.start <= p < r.start + r.count
  }

  function Running(t: Table): set<string> {
    set id | id in t && t[id].state != Stopped
  }

  ghost predicate DistinctPorts(t: Table) {
    forall a, b | a in Running(t) && b in Running(t) && a != b :: t[a].port != t[b].port
  }

  // ---- The local view Apply keeps while it works ----

  function UsedPorts(running: map<string, int>): set<int> {
    set id | id in running && running[id] > 0 :: running[id]
  }

  ghost predicate Tracks(t: Table, running: map<string, int>, used: set<int>) {
    && running.Keys == Running(t)
    && (forall id | id in running :: running[id] == t[id].port)
    && used == UsedPorts(running)
  }

  lemma EndTracks(t: Table, running: map<string, int>, used: set<int>, id: string)
    requires DistinctPorts(t) && Tracks(t, running, used) && id in running
    ensures var t' := Ended(t, id);
      && DistinctPorts(t') && Running(t') == Running(t) - {id}
      && Tracks(t', running - {id}, if running[id] > 0 then used - {running[id]} else used)
  {
    var t', running' := Ended(t, id), running - {id};
    assert Running(t') == Running(t) - {id};
    var used' := if running[id] > 0 then used - {running[id]} else used;
    forall p
      ensures p in used' <==> p in UsedPorts(running')
    {
      if p in used' {
        var x :| x in running && running[x] > 0 && running[x] == p;
        assert x in running' && running'[x] == p;
      }
      if p in UsedPorts(running') {
        var x :| x in running' && running'[x] > 0 && running'[x] == p;
        assert x in running && x in Running(t) && id in Running(t);
      }
    }
  }

  // The view while replicas are being started.  A start that the supervisor
  // ignores, for a phantom, is counted as if it had happened.
  ghost predicate Agrees(t: Table, running: map<string, int>, used: set<int>) {
    && Running(t) <= running.Keys
    && (forall id | id in running :: if id in Running(t) then running[id] == t[id].port else Phantom(t, id))
    && used == UsedPorts(running)
  }

  // What StartReplica makes of the table when the process spawns.
  function Start(t: Table, id: string, port: int, gpu: bool): Table {
    if id in Live(t) then t else Registered(t, id, port, gpu)
  }

  lemma StartAgrees(t: Table, running: map<string, int>, used: set<int>, id: string, port: int, gpu: bool)
    requires DistinctPorts(t) && Agrees(t, running, used)
    requires id !in running && port > 0 && port !in used
    ensures var t' := Start(t, id, port, gpu);
      DistinctPorts(t') && Agrees(t', running[id := port], used + {port})
  {
    UsedGrows(running, id, port);
    if id !in Live(t) {
      var t' := Registered(t, id, port, gpu);
      assert Running(t') == Running(t) + {id};
      forall x | x in Running(t)
        ensures t[x].port != port
      {
        assert running[x] == t[x].port;
        assert running[x] > 0 ==> running[x] in UsedPorts(running);
      }
    }
  }

  // The lowest free port, or none if every port of the range is taken.
  method NextPort(r: PortRange, used: set<int>) returns (p: Option<int>)
    ensures p.Some? ==> InRange(r, p.value) && p.value !in used && forall q | r.start <= q < p.value :: q in used
    ensures p.None? ==> forall q | InRange(r, q) :: q in used
  {
    for i := 0 to r.count
      invariant forall q | r.start <= q < r.start + i :: q in used
    {
      if r.start + i !in used {
        return Some(r.start + i);
      }
    }
    return None;
  }

  // ---- Apply ----

  datatype Manifest = Manifest(modelId: string, usesGpu: bool)

  // What the outside does: fetch manifests, fill the cache, spawn or refuse a
  // process, and cancel the context after some number of looks at it.
  datatype World = World(
    manifest: string -> Option<Manifest>,
    cached: string -> bool,
    spawned: string -> Option<nat>,
    looks: nat)

  // Manifests carry the id they were asked for.
  ghost predicate Matching(w: World) {
    forall id :: w.manifest(id).Some? ==> w.manifest(id).value.modelId == id
  }

  datatype ApplyError =
    | ContextDone
    | ManifestFailed(id: string)
    | CacheFailed(id: string)
    | PortExhausted(id: string)
    | StartFailed(id: string)

  // The distinct non-empty ids.
  function Wanted(desired: seq<string>): set<string> {
    set id | id in desired && id != ""
  }

  datatype View = View(running: map<string, int>, used: set<int>)

  // The view after going through a status list.
  ghost function Entered(statuses: seq<Status>): View {
    if statuses == [] then View(map[], {})
    else
      var v, s := Entered(statuses[..|statuses| - 1]), statuses[|statuses| - 1];
      if s.state == Stopped then v
      else View(v.running[s.id := s.port], if s.port > 0 then v.used + {s.port} else v.used)
  }

  method ReadRunning(supervisor: Supervisor) returns (running: map<string, int>, used: set<int>)
    requires supervisor.Valid()
    ensures Tracks(supervisor.Known(), running, used)
  {
    var statuses := supervisor.Statuses();
    running, used := map[], {};
    for i := 0 to |statuses|
      invariant View(running, used) == Entered(statuses[..i])
    {
      var s := statuses[i];
      assert statuses[..i + 1][..i] == statuses[..i];
      if s.state != Stopped {
        running := running[s.id := s.port];
        if s.port > 0 {
          used := used + {s.port};
        }
      }
    }
    assert statuses[..|statuses|] == statuses;
    EnteredTracks(supervisor.Known(), statuses);
  }

  // The listed replicas that are not stopped, with their ports.
  ghost predicate Lists(t: Table, statuses: seq<Status>, v: View) {
    && (forall id :: id in v.running <==> id in t && StatusOf(t, id) in statuses && t[id].state != Stopped)
    && (forall id | id in v.running :: v.running[id] == t[id].port)
    && v.used == UsedPorts(v.running)
  }

  lemma {:induction false} EnteredLists(t: Table, statuses: seq<Status>)
    requires forall i, j :: 0 <= i < j < |statuses| ==> statuses[i].id != statuses[j].id
    requires forall s | s in statuses :: s.id in t && s == StatusOf(t, s.id)
    ensures Lists(t, statuses, Entered(statuses))
  {
    if statuses != [] {
      var before, s := statuses[..|statuses| - 1], statuses[|statuses| - 1];
      assert statuses == before + [s];
      EnteredLists(t, before);
      if s.state != Stopped {
        UsedGrows(Entered(before).running, s.id, s.port);
      }
    }
  }

  lemma EnteredTracks(t: Table, statuses: seq<Status>)
    requires IsProjection(statuses, t)
    ensures Tracks(t, Entered(statuses).running, Entered(statuses).used)
  {
    EnteredLists(t, statuses);
    forall id
      ensures id in Entered(statuses).running <==> id in Running(t)
    {
    }
  }

  lemma UsedGrows(running: map<string, int>, id: string, port: int)
    requires id !in running
    ensures UsedPorts(running[id := port]) == UsedPorts(running) + if port > 0 then {port} else {}
  {
    var more := running[id := port];
    forall p
      ensures p in UsedPorts(more) <==> p in UsedPorts(running) || (p == port && port > 0)
    {
      if p in UsedPorts(running) {
        var x :| x in running && running[x] > 0 && running[x] == p;
        assert x in more && more[x] == p;
      }
      if p == port && port > 0 {
        assert id in more && more[id] == p;
      }
    }
  }

  // The local view agrees with the table.
  ghost predicate InOrder(t: Table, running: map<string, int>, used: set<int>) {
    DistinctPorts(t) && Tracks(t, running, used)
  }

  // What was running and is not wanted is stopped; nothing else has changed.
  ghost predicate Halted(t: Table, t': Table, want: set<string>) {
    && t'.Keys == t.Keys
    && forall id | id in t' :: t'[id] == if id in Running(t) && id !in want then Down(t[id]) else t[id]
  }

  // The view without one replica, and without several one after the other.
  function Dropped(v: View, id: string): View {
    if id in v.running
    then View(v.running - {id}, if v.running[id] > 0 then v.used - {v.running[id]} else v.used)
    else v
  }

  ghost function DroppedAll(v: View, ids: seq<string>): View {
    if ids == [] then v else Dropped(DroppedAll(v, ids[..|ids| - 1]), ids[|ids| - 1])
  }

  lemma {:induction false} DroppedKeys(v: View, ids: seq<string>, id: string)
    ensures id in DroppedAll(v, ids).running <==> id in v.running && id !in ids
  {
    if ids != [] {
      assert ids == ids[..|ids| - 1] + [ids[|ids| - 1]];
      DroppedKeys(v, ids[..|ids| - 1], id);
    }
  }

  lemma {:induction false} StopsTrack(t: Table, v: View, ids: seq<string>)
    requires InOrder(t, v.running, v.used) && Distinct(ids)
    requires forall id | id in ids :: id in v.running
    ensures var v' := DroppedAll(v, ids);
      InOrder(EndedAll(t, ids), v'.running, v'.used)
  {
    if ids != [] {
      var before, id := ids[..|ids| - 1], ids[|ids| - 1];
      StopsTrack(t, v, before);
      DroppedKeys(v, before, id);
      var v' := DroppedAll(v, before);
      EndTracks(EndedAll(t, before), v'.running, v'.used, id);
    }
  }

  // All that was running and is not wanted, in any order.
  lemma StopsHalt(t: Table, v: View, want: set<string>, ids: seq<string>)
    requires InOrder(t, v.running, v.used) && Distinct(ids)
    requires forall id :: id in ids <==> id in v.running && id !in want
    ensures var t', v' := EndedAll(t, ids), DroppedAll(v, ids);
      InOrder(t', v'.running, v'.used) && v'.running.Keys == v.running.Keys * want && Halted(t, t', want)
  {
    StopsTrack(t, v, ids);
    EndedAllRows(t, ids);
    forall id
      ensures id in DroppedAll(v, ids).running <==> id in v.running && id in want
    {
      DroppedKeys(v, ids, id);
    }
  }

  // `gone` has been stopped and `todo` is left.
  ghost predicate Between(all: set<string>, gone: seq<string>, todo: set<string>) {
    Distinct(gone) && todo <= all && forall id :: id in gone <==> id in all && id !in todo
  }

  lemma BetweenStep(all: set<string>, gone: seq<string>, todo: set<string>, id: string)
    requires Between(all, gone, todo) && id in todo
    ensures Between(all, gone + [id], todo - {id})
  {
  }

  // Replicas that are no longer wanted are stopped, and their ports freed.
  method StopUnwanted(supervisor: Supervisor, want: set<string>, running0: map<string, int>, used0: set<int>)
    returns (running: map<string, int>, used: set<int>)
    requires supervisor.Valid() && InOrder(supervisor.Known(), running0, used0)
    modifies supervisor
    ensures supervisor.Valid() && InOrder(supervisor.Known(), running, used)
    ensures running.Keys == running0.Keys * want
    ensures Halted(old(supervisor.Known()), supervisor.Known(), want)
  {
    ghost var t, v := supervisor.Known(), View(running0, used0);
    ghost var gone: seq<string> := [];
    running, used := running0, used0;
    var all := running0.Keys - want;
    var todo := all;
    while todo != {}
      invariant supervisor.Valid() && supervisor.Known() == EndedAll(t, gone)
      invariant View(running, used) == DroppedAll(v, gone) && Between(all, gone, todo)
      decreases |todo|
    {
      var id :| id in todo;
      DroppedKeys(v, gone, id);
      BetweenStep(all, gone, todo, id);
      running, used := StopOne(supervisor, t, v, gone, running, used, id);
      todo, gone := todo - {id}, gone + [id];
    }
    StopsHalt(t, v, want, gone);
  }

  method StopOne(supervisor: Supervisor, ghost t: Table, ghost v: View, ghost gone: seq<string>,
                 running0: map<string, int>, used0: set<int>, id: string)
    returns (running: map<string, int>, used: set<int>)
    requires supervisor.Valid() && supervisor.Known() == EndedAll(t, gone)
    requires View(running0, used0) == DroppedAll(v, gone) && id in running0
    modifies supervisor
    ensures supervisor.Valid() && supervisor.Known() == EndedAll(t, gone + [id])
    ensures View(running, used) == DroppedAll(v, gone + [id])
  {
    assert (gone + [id])[..|gone|] == gone;
    supervisor.StopReplica(id);
    running, used := running0 - {id}, used0;
    if running0[id] > 0 {
      used := used - {running0[id]};
    }
  }

  // The starts so far are on the lowest ports of the range that were free, in
  // the order of their ids.
  ghost predicate Progress(r: PortRange, running0: map<string, int>, running: map<string, int>, used: set<int>) {
    && running0.Keys <= running.Keys
    && (forall id | id in running && id !in running0 :: InRange(r, running[id]) && FilledTo(r, used, running[id]))
    && (forall a, b | a in running && b in running && a !in running0 && b !in running0 && StringLess(a, b) :: running[a] < running[b])
    && (forall a, b | a in running && b in running && a !in running0 && a != b :: running[a] != running[b])
  }

  ghost predicate FilledTo(r: PortRange, used: set<int>, p: int) {
    forall q | r.start <= q <= p :: q in used
  }

  lemma StartProgresses(r: PortRange, running0: map<string, int>, running: map<string, int>, used: set<int>, id: string, port: int)
    requires Progress(r, running0, running, used) && used == UsedPorts(running) && port > 0
    requires id !in running && id !in running0 && forall x | x in running && x !in running0 :: StringLess(x, id)
    requires InRange(r, port) && port !in used && forall q | r.start <= q < port :: q in used
    ensures Progress(r, running0, running[id := port], used + {port})
  {
    var running', used' := running[id := port], used + {port};
    forall x | x in running' && x !in running0
      ensures InRange(r, running'[x]) && FilledTo(r, used', running'[x])
    {
      if x != id {
        assert FilledTo(r, used, running[x]);
      }
    }
    forall a, b | a in running' && b in running' && a !in running0 && b !in running0 && StringLess(a, b)
      ensures running'[a] < running'[b]
    {
      if a == id {
        StringLessAsymmetric(a, b);
      } else if b == id {
        assert FilledTo(r, used, running[a]);
      }
    }
    forall x | x in running
      ensures running[x] != port
    {
      assert running[x] > 0 ==> running[x] in UsedPorts(running);
    }
  }

  // The row of a replica that was started: it has its manifest, its file in the
  // cache and its process, and is loading on its port.
  ghost predicate Fresh(w: World, t0: Table, id: string, port: int, row: Replica) {
    && id !in Live(t0) && w.manifest(id).Some? && w.cached(id) && w.spawned(id).Some?
    && row == Replica(true, Loading, if id in t0 then t0[id].saved else None, port, w.manifest(id).value.usesGpu)
  }

  // Only what was started has changed since t0; a phantom's start is no change.
  ghost predicate Framed(w: World, t0: Table, running0: map<string, int>, t: Table, running: map<string, int>) {
    && t.Keys == t0.Keys + running.Keys
    && forall id | id in t ::
         if id in running && id !in running0 && id !in Live(t0) then Fresh(w, t0, id, running[id], t[id])
         else id in t0 && t[id] == t0[id]
  }

  lemma StartFrames(w: World, t0: Table, running0: map<string, int>, t: Table, running: map<string, int>, id: string, port: int)
    requires Framed(w, t0, running0, t, running) && id !in running && id !in running0
    requires w.manifest(id).Some? && w.cached(id) && (id in Live(t) || w.spawned(id).Some?)
    ensures Framed(w, t0, running0, Start(t, id, port, w.manifest(id).value.usesGpu), running[id := port])
  {
  }

  lemma StringLessAsymmetric(a: string, b: string)
    ensures !(StringLess(a, b) && StringLess(b, a)) && !StringLess(a, a)
  {
    StringLessIsOrder();
  }

  ghost predicate Exhausted(r: PortRange, used: set<int>) {
    forall p | InRange(r, p) :: p in used
  }

  datatype Started = Started(port: int) | Failed(error: ApplyError)

  // The start of one replica: manifest, cache, port, process, in that order.
  method StartOne(supervisor: Supervisor, r: PortRange, w: World, id: string, used: set<int>) returns (s: Started)
    requires supervisor.Valid()
    modifies supervisor
    ensures supervisor.Valid()
    ensures s.Started? ==>
      && w.manifest(id).Some? && w.cached(id) && InRange(r, s.port) && s.port !in used && (forall q | r.start <= q < s.port :: q in used)
      && (w.manifest(id).value.modelId in Live(old(supervisor.Known())) || w.spawned(id).Some?)
      && supervisor.Known() == Start(old(supervisor.Known()), w.manifest(id).value.modelId, s.port, w.manifest(id).value.usesGpu)
    ensures s.Failed? ==> supervisor.Known() == old(supervisor.Known())
    ensures s.Failed? ==> !s.error.ContextDone? && s.error.id == id && Caused(r, w, used, s.error)
  {
    var manifest := w.manifest(id);
    if manifest.None? {
      return Failed(ManifestFailed(id));
    }
    if !w.cached(id) {
      return Failed(CacheFailed(id));
    }
    var port := NextPort(r, used);
    if port.None? {
      return Failed(PortExhausted(id));
    }
    var failed := supervisor.StartReplica(manifest.value.modelId, port.value, manifest.value.usesGpu, w.spawned(id));
    if failed {
      return Failed(StartFailed(id));
    }
    return Started(port.value);
  }

  // The error is what happened.
  ghost predicate Caused(r: PortRange, w: World, used: set<int>, e: ApplyError) {
    match e
    case ContextDone => true
    case ManifestFailed(id) => w.manifest(id).None?
    case CacheFailed(id) => w.manifest(id).Some? && !w.cached(id)
    case PortExhausted(id) => w.manifest(id).Some? && w.cached(id) && Exhausted(r, used)
    case StartFailed(id) => w.manifest(id).Some? && w.cached(id) && w.spawned(id).None?
  }

  // Every port of the range is taken by a replica that was running, or by one
  // that comes before `id`.
  ghost predicate TakenBefore(r: PortRange, running0: map<string, int>, running: map<string, int>, id: string) {
    forall p | InRange(r, p) :: exists x :: x in running && running[x] == p && (x in running0 || StringLess(x, id))
  }

  // The error is what happened, by the local view.
  ghost predicate Established(r: PortRange, w: World, running0: map<string, int>, running: map<string, int>, e: ApplyError) {
    match e
    case ContextDone => true
    case ManifestFailed(id) => w.manifest(id).None?
    case CacheFailed(id) => w.manifest(id).Some? && !w.cached(id)
    case PortExhausted(id) => w.manifest(id).Some? && w.cached(id) && TakenBefore(r, running0, running, id)
    case StartFailed(id) => w.manifest(id).Some? && w.cached(id) && w.spawned(id).None?
  }

  lemma FailureEstablished(r: PortRange, w: World, running0: map<string, int>, running: map<string, int>, used: set<int>, e: ApplyError)
    requires !e.ContextDone? && Caused(r, w, used, e) && used == UsedPorts(running)
    requires forall x | x in running && x !in running0 :: StringLess(x, e.id)
    ensures Established(r, w, running0, running, e)
  {
    if e.PortExhausted? {
      forall p | InRange(r, p)
        ensures exists x :: x in running && running[x] == p && (x in running0 || StringLess(x, e.id))
      {
        assert p in UsedPorts(running);
        var x :| x in running && running[x] > 0 && running[x] == p;
      }
    }
  }

  lemma EstablishedLater(r: PortRange, w: World, running0: map<string, int>, running: map<string, int>, e: ApplyError, id: string, port: int)
    requires Established(r, w, running0, running, e) && id !in running
    ensures Established(r, w, running0, running[id := port], e)
  {
    if e.PortExhausted? {
      forall p | InRange(r, p)
        ensures exists x :: x in running[id := port] && running[id := port][x] == p && (x in running0 || StringLess(x, e.id))
      {
        var x :| x in running && running[x] == p && (x in running0 || StringLess(x, e.id));
        assert x in running[id := port] && running[id := port][x] == p;
      }
    }
  }

  // Where the loop over the sorted ids stands after the ids in `done`.
  ghost predicate Through(r: PortRange, w: World, done: seq<string>, running0: map<string, int>, running: map<string, int>, errors: seq<ApplyError>) {
    && (forall id | id in running :: id in running0 || id in done)
    && (errors == [] <==> forall id | id in done :: id in running)
    && (forall e | e in errors :: Established(r, w, running0, running, e))
    && (forall e | e in errors && !e.ContextDone? :: e.id in done && e.id !in running)
    && (ContextDone !in errors ==> forall id | id in done && id !in running :: Named(errors, id))
  }

  // Some error is about this replica.
  ghost predicate Named(errors: seq<ApplyError>, id: string) {
    exists e :: e in errors && !e.ContextDone? && e.id == id
  }

  lemma ThroughError(r: PortRange, w: World, done: seq<string>, running0: map<string, int>, running: map<string, int>, errors: seq<ApplyError>, id: string, e: ApplyError)
    requires Through(r, w, done, running0, running, errors) && id !in running
    requires Established(r, w, running0, running, e) && (e.ContextDone? || e.id == id)
    ensures Through(r, w, done + [id], running0, running, errors + [e])
  {
    assert id in done + [id];
    assert e in errors + [e];
    forall x | x in done && x !in running && ContextDone !in errors + [e]
      ensures Named(errors + [e], x)
    {
      assert ContextDone !in errors;
      var f :| f in errors && !f.ContextDone? && f.id == x;
      assert f in errors + [e];
    }
  }

  lemma ThroughStarted(r: PortRange, w: World, done: seq<string>, running0: map<string, int>, running: map<string, int>, errors: seq<ApplyError>, id: string, port: int)
    requires Through(r, w, done, running0, running, errors) && id !in running && id !in done
    ensures Through(r, w, done + [id], running0, running[id := port], errors)
  {
    var running' := running[id := port];
    if errors != [] {
      var x :| x in done && x !in running;
      assert x in done + [id] && x !in running';
    }
    forall e | e in errors
      ensures Established(r, w, running0, running', e)
    {
      EstablishedLater(r, w, running0, running, e, id, port);
    }
  }

  method StartWanted(supervisor: Supervisor, r: PortRange, w: World, ids: seq<string>, running0: map<string, int>, used0: set<int>, looks: nat)
    returns (errors: seq<ApplyError>, running: map<string, int>, used: set<int>)
    requires supervisor.Valid() && InOrder(supervisor.Known(), running0, used0)
    requires r.start > 0 && Matching(w) && Sorted(ids, StringLess)
    modifies supervisor
    ensures supervisor.Valid()
    ensures Underway(r, w, old(supervisor.Known()), running0, supervisor.Known(), running, used)
    ensures Through(r, w, ids, running0, running, errors)
    ensures ContextDone in errors ==> looks < |ids|
    ensures Tries(running0, running, errors, looks)
  {
    ghost var t0 := supervisor.Known();
    errors, running, used := [], running0, used0;
    var left: nat := looks;
    for i := 0 to |ids|
      invariant supervisor.Valid()
      invariant Midway(r, w, ids, i, t0, running0, supervisor.Known(), running, used, errors, left, looks)
    {
      if ids[i] !in running && left == 0 {
        CutShort(r, w, ids, i, t0, running0, supervisor.Known(), running, used, errors, looks);
        errors := errors + [ContextDone];
        return;
      }
      errors, running, used, left := Visit(supervisor, r, w, ids, i, t0, running0, running, used, errors, left, looks);
    }
    AllVisited(r, w, ids, t0, running0, supervisor.Known(), running, used, errors, left, looks);
  }

  // The loop before ids[i], with `left` looks at the context to go.
  ghost predicate Midway(r: PortRange, w: World, ids: seq<string>, i: nat, t0: Table, running0: map<string, int>,
                         t: Table, running: map<string, int>, used: set<int>, errors: seq<ApplyError>, left: nat, looks: nat)
  {
    && i <= |ids| && Underway(r, w, t0, running0, t, running, used)
    && Through(r, w, ids[..i], running0, running, errors) && ContextDone !in errors
    && looks <= left + i && Tried(running0, running, errors) + left == looks
  }

  lemma CutShort(r: PortRange, w: World, ids: seq<string>, i: nat, t0: Table, running0: map<string, int>,
                 t: Table, running: map<string, int>, used: set<int>, errors: seq<ApplyError>, looks: nat)
    requires i < |ids| && Midway(r, w, ids, i, t0, running0, t, running, used, errors, 0, looks) && ids[i] !in running
    ensures Underway(r, w, t0, running0, t, running, used)
    ensures Through(r, w, ids, running0, running, errors + [ContextDone])
    ensures looks < |ids| && Tries(running0, running, errors + [ContextDone], looks)
  {
    ThroughRest(r, w, ids, i, running0, running, errors);
    LooksRunOut(running0, running, errors);
  }

  lemma AllVisited(r: PortRange, w: World, ids: seq<string>, t0: Table, running0: map<string, int>,
                   t: Table, running: map<string, int>, used: set<int>, errors: seq<ApplyError>, left: nat, looks: nat)
    requires Midway(r, w, ids, |ids|, t0, running0, t, running, used, errors, left, looks)
    ensures Underway(r, w, t0, running0, t, running, used)
    ensures Through(r, w, ids, running0, running, errors) && ContextDone !in errors
    ensures Tries(running0, running, errors, looks)
  {
    assert ids[..|ids|] == ids;
    LooksRemain(running0, running, errors, left);
  }

  // One turn of the loop: a running id is passed over, another is tried.
  method Visit(supervisor: Supervisor, r: PortRange, w: World, ids: seq<string>, i: nat, ghost t0: Table,
               ghost running0: map<string, int>, running: map<string, int>, used: set<int>, errors: seq<ApplyError>,
               left: nat, ghost looks: nat)
    returns (errors': seq<ApplyError>, running': map<string, int>, used': set<int>, left': nat)
    requires supervisor.Valid() && i < |ids| && r.start > 0 && Matching(w) && Sorted(ids, StringLess)
    requires Midway(r, w, ids, i, t0, running0, supervisor.Known(), running, used, errors, left, looks)
    requires ids[i] in running || left > 0
    modifies supervisor
    ensures supervisor.Valid()
    ensures Midway(r, w, ids, i + 1, t0, running0, supervisor.Known(), running', used', errors', left', looks)
  {
    errors', running', used', left' := errors, running, used, left;
    if ids[i] in running {
      ThroughRunning(r, w, ids, i, running0, running, errors);
    } else {
      left' := left - 1;
      errors', running', used' := TryStart(supervisor, r, w, ids, i, t0, running0, running, used, errors);
    }
  }

  lemma ThroughRunning(r: PortRange, w: World, ids: seq<string>, i: nat, running0: map<string, int>, running: map<string, int>, errors: seq<ApplyError>)
    requires i < |ids| && Through(r, w, ids[..i], running0, running, errors) && ids[i] in running
    ensures Through(r, w, ids[..i + 1], running0, running, errors)
  {
    OneMore(ids, i);
  }

  // One id of the loop: it is started, or an error is recorded for it.
  method TryStart(supervisor: Supervisor, r: PortRange, w: World, ids: seq<string>, i: nat, ghost t0: Table,
                  ghost running0: map<string, int>, running: map<string, int>, used: set<int>, errors: seq<ApplyError>)
    returns (errors': seq<ApplyError>, running': map<string, int>, used': set<int>)
    requires supervisor.Valid() && Underway(r, w, t0, running0, supervisor.Known(), running, used)
    requires r.start > 0 && Matching(w) && Sorted(ids, StringLess) && i < |ids| && ids[i] !in running
    requires Through(r, w, ids[..i], running0, running, errors) && ContextDone !in errors
    modifies supervisor
    ensures supervisor.Valid() && Underway(r, w, t0, running0, supervisor.Known(), running', used')
    ensures Through(r, w, ids[..i + 1], running0, running', errors') && ContextDone !in errors'
    ensures Tried(running0, running', errors') == Tried(running0, running, errors) + 1
  {
    var id := ids[i];
    ghost var t := supervisor.Known();
    var s := StartOne(supervisor, r, w, id, used);
    OneMore(ids, i);
    SortedBefore(ids, i);
    errors', running', used' := errors, running, used;
    if s.Failed? {
      FailureEstablished(r, w, running0, running, used, s.error);
      ThroughError(r, w, ids[..i], running0, running, errors, id, s.error);
      errors' := errors + [s.error];
    } else {
      StartStep(r, w, t0, running0, t, running, used, id, s.port);
      ThroughStarted(r, w, ids[..i], running0, running, errors, id, s.port);
      running' := running[id := s.port];
      used' := used + {s.port};
    }
  }

  lemma LooksRemain(running0: map<string, int>, running: map<string, int>, errors: seq<ApplyError>, left: nat)
    requires ContextDone !in errors && Tried(running0, running, errors) + left >= 0
    ensures Tries(running0, running, errors, Tried(running0, running, errors) + left)
  {
  }

  lemma OneMore(ids: seq<string>, i: nat)
    requires i < |ids|
    ensures ids[..i + 1] == ids[..i] + [ids[i]]
  {
  }

  lemma LooksRunOut(running0: map<string, int>, running: map<string, int>, errors: seq<ApplyError>)
    requires Tried(running0, running, errors) >= 0
    ensures Tries(running0, running, errors + [ContextDone], Tried(running0, running, errors))
    ensures ContextDone in errors + [ContextDone]
  {
  }

  // How often a start was tried: it was counted, or it is an error.
  function Tried(running0: map<string, int>, running: map<string, int>, errors: seq<ApplyError>): int {
    |running| - |running0| + |errors|
  }

  // One look at the context before each try, and work ends exactly when there
  // are no more.
  predicate Tries(running0: map<string, int>, running: map<string, int>, errors: seq<ApplyError>, looks: nat) {
    if ContextDone in errors then Tried(running0, running, errors) - 1 == looks
    else Tried(running0, running, errors) <= looks
  }

  // What the start loop keeps of the table and its view.
  ghost predicate Underway(r: PortRange, w: World, t0: Table, running0: map<string, int>, t: Table, running: map<string, int>, used: set<int>) {
    && DistinctPorts(t) && Agrees(t, running, used)
    && Progress(r, running0, running, used)
    && Framed(w, t0, running0, t, running)
  }

  lemma StartStep(r: PortRange, w: World, t0: Table, running0: map<string, int>, t: Table, running: map<string, int>, used: set<int>, id: string, port: int)
    requires r.start > 0 && Underway(r, w, t0, running0, t, running, used)
    requires id !in running && forall x | x in running && x !in running0 :: StringLess(x, id)
    requires w.manifest(id).Some? && w.cached(id) && (id in Live(t) || w.spawned(id).Some?)
    requires InRange(r, port) && port !in used && forall q | r.start <= q < port :: q in used
    ensures Underway(r, w, t0, running0, Start(t, id, port, w.manifest(id).value.usesGpu), running[id := port], used + {port})
  {
    StartAgrees(t, running, used, id, port, w.manifest(id).value.usesGpu);
    StartProgresses(r, running0, running, used, id, port);
    StartFrames(w, t0, running0, t, running, id, port);
  }

  // A cancelled context leaves the rest of the ids alone and says so.
  lemma ThroughRest(r: PortRange, w: World, ids: seq<string>, i: nat, running0: map<string, int>, running: map<string, int>, errors: seq<ApplyError>)
    requires i < |ids| && Through(r, w, ids[..i], running0, running, errors) && ids[i] !in running
    ensures Through(r, w, ids, running0, running, errors + [ContextDone])
  {
    assert ids[i] in ids && ContextDone in errors + [ContextDone];
    forall e | e in errors && !e.ContextDone?
      ensures e.id in ids
    {
      assert e.id in ids[..i];
    }
  }

  lemma SortedBefore(ids: seq<string>, i: nat)
    requires i < |ids| && Sorted(ids, StringLess)
    ensures forall x | x in ids[..i] :: StringLess(x, ids[i])
    ensures ids[i] !in ids[..i]
  {
    StringLessAsymmetric(ids[i], ids[i]);
  }

  // The wanted ids in sorted order.
  method SortedIds(desired: seq<string>) returns (ids: seq<string>, want: set<string>)
    ensures want == Wanted(desired) && forall id :: id in want <==> id in desired && id != ""
    ensures Sorted(ids, StringLess) && forall id :: id in ids <==> id in want
    ensures |ids| == |want|
  {
    want := {};
    for i := 0 to |desired|
      invariant want == Wanted(desired[..i])
    {
      assert desired[..i + 1] == desired[..i] + [desired[i]];
      if desired[i] != "" {
        want := want + {desired[i]};
      }
    }
    assert desired[..|desired|] == desired;
    var listed, todo := [], want;
    while todo != {}
      invariant todo <= want && Distinct(listed)
      invariant forall id :: id in listed <==> id in want && id !in todo
      decreases todo
    {
      var id :| id in todo;
      listed := listed + [id];
      todo := todo - {id};
    }
    StringLessIsOrder();
    SortSorts(listed, StringLess);
    ids := Sort(listed, StringLess);
    SortedCount(ids, want);
  }

  lemma {:induction false} SortedCount(ids: seq<string>, want: set<string>)
    requires Sorted(ids, StringLess) && forall id :: id in ids <==> id in want
    ensures |ids| == |want|
  {
    if ids == [] {
      assert want == {};
    } else {
      var n := |ids| - 1;
      SortedBefore(ids, n);
      assert ids == ids[..n] + [ids[n]];
      SortedCount(ids[..n], want - {ids[n]});
    }
  }

  // Ports of the range set aside for starts that the supervisor ignored, one
  // each and none of them in use.
  ghost predicate Aside(r: PortRange, t: Table, want: set<string>, aside: map<string, int>) {
    && (forall id | id in aside :: id in want && Phantom(t, id) && InRange(r, aside[id]))
    && (forall a, b | a in aside && b in aside && a != b :: aside[a] != aside[b])
    && (forall id, x | id in aside && x in Running(t) :: t[x].port != aside[id])
  }

  // Port p is held by a desired replica that was running or comes before `id`,
  // or set aside for a phantom before `id`.
  ghost predicate HeldBefore(t: Table, t': Table, want: set<string>, p: int, id: string) {
    exists x :: x in Running(t') && x in want && t'[x].port == p && (x in Running(t) || StringLess(x, id))
  }

  ghost predicate AsideBefore(aside: map<string, int>, p: int, id: string) {
    exists x :: x in aside && aside[x] == p && StringLess(x, id)
  }

  // The error is what happened, and what it is about does not run.
  ghost predicate Justified(r: PortRange, w: World, t: Table, t': Table, want: set<string>, aside: map<string, int>, e: ApplyError) {
    && (e.ContextDone? || (e.id in want && e.id !in Running(t') && e.id !in aside))
    && match e
       case ContextDone => w.looks <= |want|
       case ManifestFailed(id) => w.manifest(id).None?
       case CacheFailed(id) => w.manifest(id).Some? && !w.cached(id)
       case PortExhausted(id) =>
         && w.manifest(id).Some? && w.cached(id)
         && forall p | InRange(r, p) :: HeldBefore(t, t', want, p, id) || AsideBefore(aside, p, id)
       case StartFailed(id) => w.manifest(id).Some? && w.cached(id) && w.spawned(id).None?
  }

  // One row afterwards: not wanted means stopped, running and wanted means
  // untouched, and otherwise it is untouched or freshly started in the range.
  ghost predicate Row(r: PortRange, w: World, t: Table, t': Table, want: set<string>, id: string)
    requires id in t'
  {
    if id !in want then id in t && t'[id] == if id in Running(t) then Down(t[id]) else t[id]
    else
      || (id in t && t'[id] == t[id])
      || (id !in Running(t) && InRange(r, t'[id].port) && Fresh(w, t, id, t'[id].port, t'[id]))
  }

  // The context was looked at once, and again before each start that was tried;
  // it ended the work exactly when the looks ran out.
  ghost predicate Looked(w: World, t: Table, t': Table, want: set<string>, errors: seq<ApplyError>, aside: map<string, int>) {
    var looks := 1 + (|Running(t')| + |aside| - |Running(t) * want|) + |errors| - if ContextDone in errors then 1 else 0;
    looks <= w.looks && (ContextDone in errors ==> looks == w.looks)
  }

  // What Apply guarantees of the table it leaves.
  ghost predicate Reconciled(r: PortRange, w: World, t: Table, t': Table, want: set<string>, errors: seq<ApplyError>, aside: map<string, int>) {
    && DistinctPorts(t') && t.Keys <= t'.Keys
    && (forall id | id in t' :: Row(r, w, t, t', want, id))
    && (forall a, b | a in Running(t') - Running(t) && b in Running(t') - Running(t) && StringLess(a, b) :: t'[a].port < t'[b].port)
    && (Running(t') == want ==> errors == [])
    && Aside(r, t', want, aside)
    && (errors == [] ==> forall id | id in want :: id in Running(t') || id in aside)
    && (ContextDone !in errors ==> forall id | id in want && id !in Running(t') && id !in aside :: Named(errors, id))
    && (forall e | e in errors :: Justified(r, w, t, t', want, aside, e))
  }

  method Apply(supervisor: Supervisor, r: PortRange, w: World, desired: seq<string>)
    returns (errors: seq<ApplyError>, ghost aside: map<string, int>)
    requires supervisor.Valid() && DistinctPorts(supervisor.Known())
    requires r.start > 0 && Matching(w)
    modifies supervisor
    ensures supervisor.Valid()
    ensures w.looks == 0 ==> errors == [ContextDone] && supervisor.Known() == old(supervisor.Known())
    ensures w.looks > 0 ==> Reconciled(r, w, old(supervisor.Known()), supervisor.Known(), Wanted(desired), errors, aside)
    ensures w.looks > 0 ==> Looked(w, old(supervisor.Known()), supervisor.Known(), Wanted(desired), errors, aside)
  {
    if w.looks == 0 {
      return [ContextDone], map[];
    }
    ghost var t := supervisor.Known();
    var ids, want := SortedIds(desired);
    var running, used := ReadRunning(supervisor);
    running, used := StopUnwanted(supervisor, want, running, used);
    ghost var t1, running1 := supervisor.Known(), running;
    errors, running, used := StartWanted(supervisor, r, w, ids, running, used, w.looks - 1);
    aside := SetAside(supervisor.Known(), running);
    ApplyReconciles(r, w, t, t1, running1, supervisor.Known(), running, used, ids, want, errors);
    LooksAdd(w, t, supervisor.Known(), want, running1, running, errors);
  }

  // What the view counts and the table does not.
  ghost function SetAside(t: Table, running: map<string, int>): map<string, int> {
    map x | x in running && x !in Running(t) :: running[x]
  }

  lemma ApplyReconciles(r: PortRange, w: World, t: Table, t1: Table, running1: map<string, int>, t': Table, running: map<string, int>, used: set<int>,
                        ids: seq<string>, want: set<string>, errors: seq<ApplyError>)
    requires Halted(t, t1, want) && running1.Keys == Running(t) * want
    requires Underway(r, w, t1, running1, t', running, used)
    requires Through(r, w, ids, running1, running, errors)
    requires forall id :: id in ids <==> id in want
    requires r.start > 0 && (ContextDone in errors ==> w.looks <= |want|)
    ensures Reconciled(r, w, t, t', want, errors, SetAside(t', running))
  {
    forall id | id in t'
      ensures Row(r, w, t, t', want, id)
    {
      RowFollows(r, w, t, t1, running1, t', running, used, want, id);
    }
    AsideIsApart(r, w, t1, running1, t', running, used, want);
    forall e | e in errors
      ensures Justified(r, w, t, t', want, SetAside(t', running), e)
    {
      assert Established(r, w, running1, running, e);
      if e.PortExhausted? {
        ExhaustedIsTaken(r, w, t, t1, running1, t', running, used, want, e.id);
      }
    }
  }

  lemma RowFollows(r: PortRange, w: World, t: Table, t1: Table, running1: map<string, int>, t': Table, running: map<string, int>, used: set<int>,
                   want: set<string>, id: string)
    requires Halted(t, t1, want) && running1.Keys == Running(t) * want
    requires Underway(r, w, t1, running1, t', running, used) && id in t'
    requires forall x | x in running :: x in running1 || x in want
    ensures Row(r, w, t, t', want, id)
  {
    if id in running && id !in running1 && id !in Live(t1) {
      assert Fresh(w, t1, id, running[id], t'[id]);
    }
  }

  lemma Partition(a: set<string>, b: set<string>)
    requires b <= a
    ensures |a| == |b| + |a - b|
  {
    assert a == b + (a - b);
  }

  lemma LooksAdd(w: World, t: Table, t': Table, want: set<string>, running1: map<string, int>, running: map<string, int>, errors: seq<ApplyError>)
    requires Running(t') <= running.Keys && running1.Keys == Running(t) * want && w.looks > 0
    requires Tries(running1, running, errors, w.looks - 1)
    ensures Looked(w, t, t', want, errors, SetAside(t', running))
  {
    var aside := SetAside(t', running);
    assert aside.Keys == running.Keys - Running(t');
    assert |running| == |Running(t')| + |aside| by {
      Partition(running.Keys, Running(t'));
    }
  }

  lemma AsideIsApart(r: PortRange, w: World, t1: Table, running1: map<string, int>, t': Table, running: map<string, int>, used: set<int>,
                     want: set<string>)
    requires Underway(r, w, t1, running1, t', running, used) && running1.Keys <= Running(t1) && running.Keys <= want
    ensures Aside(r, t', want, SetAside(t', running))
  {
    forall id | id in running && id !in Running(t')
      ensures id !in running1 && Phantom(t', id)
    {
    }
  }

  lemma ExhaustedIsTaken(r: PortRange, w: World, t: Table, t1: Table, running1: map<string, int>, t': Table, running: map<string, int>, used: set<int>,
                         want: set<string>, id: string)
    requires Underway(r, w, t1, running1, t', running, used) && running1.Keys <= Running(t1) && running1.Keys <= Running(t)
    requires running.Keys <= want && TakenBefore(r, running1, running, id)
    ensures forall p | InRange(r, p) :: HeldBefore(t, t', want, p, id) || AsideBefore(SetAside(t', running), p, id)
  {
    forall p | InRange(r, p)
      ensures HeldBefore(t, t', want, p, id) || AsideBefore(SetAside(t', running), p, id)
    {
      var x :| x in running && running[x] == p && (x in running1 || StringLess(x, id));
      if x in Running(t') {
        assert x in want && t'[x].port == p;
      } else {
        assert x !in running1 && x in SetAside(t', running) && SetAside(t', running)[x] == p;
      }
    }
  }

  // ---- What success means ----

  // Reported as running with no process behind it, as a stranded replica is.
  ghost predicate Hollow(t: Table, id: string) {
    id in Running(t) && !t[id].live
  }

  // What is live afterwards, when there was no error.
  lemma LiveAfterSuccess(r: PortRange, w: World, t: Table, t': Table, want: set<string>, aside: map<string, int>, id: string)
    requires Reconciled(r, w, t, t', want, [], aside)
    ensures id in Live(t') <==> (if id in want then !Hollow(t, id) else Phantom(t, id))
    ensures id in Running(t') <==> id in want && !Phantom(t, id)
  {
    if id in want {
      assert id in Running(t') || id in aside;
    }
    if id in t' {
      assert Row(r, w, t, t', want, id);
    }
  }

  // An Apply without errors leaves the desired replicas running, and exactly
  // those, if and only if none of them was hollow or a phantom beforehand.
  lemma SuccessMeansDesired(r: PortRange, w: World, t: Table, t': Table, want: set<string>, aside: map<string, int>)
    requires Reconciled(r, w, t, t', want, [], aside)
    ensures Running(t') == want <==> forall id | id in want :: !Phantom(t, id)
    ensures Live(t') == want
       <==> (forall id | id in want :: !Hollow(t, id)) && (forall id | Phantom(t, id) :: id in want)
    ensures Live(t') * Running(t') == want <==> forall id | id in want :: !Hollow(t, id) && !Phantom(t, id)
  {
    forall id
      ensures id in Live(t') <==> (if id in want then !Hollow(t, id) else Phantom(t, id))
      ensures id in Running(t') <==> id in want && !Phantom(t, id)
    {
      LiveAfterSuccess(r, w, t, t', want, aside, id);
    }
  }

  // Port p is held by a running replica that is wanted.
  ghost predicate HeldByWanted(t: Table, want: set<string>, p: int) {
    exists id :: id in Running(t) && id in want && t[id].port == p
  }

  // When exhaustion is reported for an id, every port of the range is held by a
  // running replica that is wanted if and only if none was set aside for a
  // phantom that comes before it.
  lemma ExhaustionIsRealExactly(r: PortRange, w: World, t: Table, t': Table, want: set<string>, errors: seq<ApplyError>, aside: map<string, int>,
                                id: string)
    requires Reconciled(r, w, t, t', want, errors, aside) && PortExhausted(id) in errors
    ensures (forall p | InRange(r, p) :: HeldByWanted(t', want, p)) <==> (forall x | x in aside :: !StringLess(x, id))
  {
    assert Justified(r, w, t, t', want, aside, PortExhausted(id));
    if forall x | x in aside :: !StringLess(x, id) {
      forall p | InRange(r, p)
        ensures HeldByWanted(t', want, p)
      {
        assert HeldBefore(t, t', want, p, id);
      }
    } else {
      var x :| x in aside && StringLess(x, id);
      assert InRange(r, aside[x]) && !HeldByWanted(t', want, aside[x]);
    }
  }

  // Without phantoms among the desired replicas it is always real.
  lemma ExhaustionIsReal(r: PortRange, w: World, t: Table, t': Table, want: set<string>, errors: seq<ApplyError>, aside: map<string, int>,
                         id: string, p: int)
    requires Reconciled(r, w, t, t', want, errors, aside) && PortExhausted(id) in errors && InRange(r, p)
    requires forall x | x in want :: !Phantom(t, x)
    ensures HeldByWanted(t', want, p)
  {
    assert forall x | x in aside :: !StringLess(x, id) by {
      if x :| x in aside {
        PhantomsAreOld(r, w, t, t', want, errors, aside, x);
      }
    }
    ExhaustionIsRealExactly(r, w, t, t', want, errors, aside, id);
  }

  // Apply makes no phantoms.
  lemma PhantomsAreOld(r: PortRange, w: World, t: Table, t': Table, want: set<string>, errors: seq<ApplyError>, aside: map<string, int>, id: string)
    requires Reconciled(r, w, t, t', want, errors, aside) && Phantom(t', id)
    ensures Phantom(t, id)
  {
    assert Row(r, w, t, t', want, id);
  }

  // On a coherent table, with or without errors: it stays coherent, so running
  // is live, and no error means that exactly the desired replicas are.
  lemma CoherentStaysCoherent(r: PortRange, w: World, t: Table, t': Table, want: set<string>, errors: seq<ApplyError>, aside: map<string, int>)
    requires Reconciled(r, w, t, t', want, errors, aside) && Coherent(t)
    ensures Coherent(t') && Live(t') == Running(t') <= want
    ensures errors == [] <==> Live(t') == want
  {
    forall id | id in t'
      ensures CoherentReplica(t'[id]) && (id in Running(t') ==> id in want)
    {
      assert Row(r, w, t, t', want, id);
    }
  }

  // Neither kind is ever repaired by Apply while it is wanted.
  lemma BrokenStaysBroken(r: PortRange, w: World, t: Table, t': Table, want: set<string>, errors: seq<ApplyError>, aside: map<string, int>, id: string)
    requires Reconciled(r, w, t, t', want, errors, aside) && id in want
    ensures Hollow(t, id) ==> Hollow(t', id)
    ensures Phantom(t, id) ==> Phantom(t', id)
  {
    if id in t {
      assert Row(r, w, t, t', want, id);
    }
  }

  // ---- Where success is not what it says ----

  method StoppedSupervisor(port: int) returns (supervisor: Supervisor)
    ensures fresh(supervisor) && supervisor.Valid()
    ensures supervisor.Known() == map["m" := Replica(false, Stopped, None, port, false)]
  {
    supervisor := new Supervisor();
    var failed := supervisor.StartReplica("m", port, false, Some(1));
    assert supervisor.Known() == map["m" := Replica(true, Loading, None, port, false)];
    supervisor.StopReplica("m");
  }

  // A stop that falls inside a suspend.
  method StrandedSupervisor(port: int) returns (supervisor: Supervisor)
    ensures fresh(supervisor) && supervisor.Valid()
    ensures supervisor.Known() == map["m" := Replica(false, Suspended, Some(Stopped), port, false)]
  {
    supervisor := StoppedSupervisor(port);
    supervisor.CommitSignals({"m"}, {}, true);
  }

  // And on: a start on the stranded replica, and a resume.
  method PhantomSupervisor(port: int) returns (supervisor: Supervisor)
    ensures fresh(supervisor) && supervisor.Valid()
    ensures supervisor.Known() == map["m" := Replica(true, Stopped, None, port, false)]
  {
    supervisor := StrandedSupervisor(port);
    var failed := supervisor.StartReplica("m", port, false, Some(2));
    assert supervisor.Known() == map["m" := Replica(true, Loading, Some(Stopped), port, false)];
    supervisor.CommitSignals({"m"}, {}, false);
  }

  // What the examples below use of Apply.
  method ApplyTo(supervisor: Supervisor, r: PortRange, w: World, desired: seq<string>)
    returns (errors: seq<ApplyError>, ghost aside: map<string, int>)
    requires supervisor.Valid() && DistinctPorts(supervisor.Known())
    requires r.start > 0 && Matching(w) && w.looks > 0
    modifies supervisor
    ensures supervisor.Valid()
    ensures Reconciled(r, w, old(supervisor.Known()), supervisor.Known(), Wanted(desired), errors, aside)
  {
    errors, aside := Apply(supervisor, r, w, desired);
  }

  // No error, and no process.
  method ApplyOverStranded(r: PortRange, w: World) returns (supervisor: Supervisor, errors: seq<ApplyError>)
    requires r.start > 0 && Matching(w) && w.looks > 0
    ensures supervisor.Valid() && errors == [] && Live(supervisor.Known()) == {}
  {
    supervisor := StrandedSupervisor(r.start);
    ghost var t := supervisor.Known();
    ghost var aside;
    errors, aside := ApplyTo(supervisor, r, w, ["m"]);
    assert Wanted(["m"]) == {"m"};
    StrandedOutcome(r, w, t, supervisor.Known(), errors, aside);
  }

  // No error, and a process that counts as stopped.
  method ApplyOverPhantom(r: PortRange, w: World) returns (supervisor: Supervisor, errors: seq<ApplyError>)
    requires r.start > 0 && r.count > 0 && Matching(w) && w.looks > 1 && Available(w, "m")
    ensures supervisor.Valid() && errors == []
    ensures Running(supervisor.Known()) == {} && Live(supervisor.Known()) == {"m"}
  {
    supervisor := PhantomSupervisor(r.start);
    ghost var t := supervisor.Known();
    ghost var aside;
    errors, aside := ApplyTo(supervisor, r, w, ["m"]);
    assert Wanted(["m"]) == {"m"};
    PhantomOutcome(r, w, t, supervisor.Known(), errors, aside);
  }

  // Exhaustion, although no port of the range is in use.
  method ExhaustedByPhantom(r: PortRange, w: World) returns (supervisor: Supervisor, errors: seq<ApplyError>)
    requires r.start > 0 && r.count == 1 && Matching(w) && w.looks > 2 && Available(w, "m") && Available(w, "z")
    ensures supervisor.Valid() && PortExhausted("z") in errors && Running(supervisor.Known()) == {}
  {
    supervisor := PhantomSupervisor(r.start);
    ghost var t := supervisor.Known();
    ghost var aside;
    errors, aside := ApplyTo(supervisor, r, w, ["m", "z"]);
    assert Wanted(["m", "z"]) == {"m", "z"};
    ExhaustedOutcome(r, w, t, supervisor.Known(), errors, aside);
  }

  // Its manifest, its file and its process can be had.
  predicate Available(w: World, id: string) {
    w.manifest(id).Some? && w.cached(id) && w.spawned(id).Some?
  }

  lemma StrandedOutcome(r: PortRange, w: World, t: Table, t': Table, errors: seq<ApplyError>, aside: map<string, int>)
    requires Reconciled(r, w, t, t', {"m"}, errors, aside) && t.Keys == {"m"} && Hollow(t, "m")
    ensures errors == [] && Live(t') == {}
  {
    RowsStay(r, w, t, t', {"m"}, errors, aside);
    BrokenStaysBroken(r, w, t, t', {"m"}, errors, aside, "m");
    assert Running(t') == {"m"};
  }

  lemma PhantomOutcome(r: PortRange, w: World, t: Table, t': Table, errors: seq<ApplyError>, aside: map<string, int>)
    requires Reconciled(r, w, t, t', {"m"}, errors, aside) && t.Keys == {"m"} && Phantom(t, "m")
    requires r.count > 0 && w.looks > 1 && Available(w, "m")
    ensures errors == [] && Running(t') == {} && Live(t') == {"m"}
  {
    RowsStay(r, w, t, t', {"m"}, errors, aside);
    BrokenStaysBroken(r, w, t, t', {"m"}, errors, aside, "m");
    assert |{"m"}| == 1;
    OnlyExhaustion(r, w, t, t', {"m"}, errors, aside);
    StringLessAsymmetric("m", "m");
    NotExhaustedFirst(r, w, t, t', {"m"}, errors, aside, "m");
  }

  lemma ExhaustedOutcome(r: PortRange, w: World, t: Table, t': Table, errors: seq<ApplyError>, aside: map<string, int>)
    requires Reconciled(r, w, t, t', {"m", "z"}, errors, aside) && t.Keys == {"m"} && Phantom(t, "m")
    requires r.count == 1 && w.looks > 2 && Available(w, "m") && Available(w, "z")
    ensures PortExhausted("z") in errors && Running(t') == {}
  {
    var want := {"m", "z"};
    RowsStay(r, w, t, t', want, errors, aside);
    BrokenStaysBroken(r, w, t, t', want, errors, aside, "m");
    OnePortIsNotEnough(r, w, t, t', errors, aside);
    assert |want| == 2;
    OnlyExhaustion(r, w, t, t', want, errors, aside);
    assert StringLess("m", "z");
    StringLessAsymmetric("m", "z");
    NotExhaustedFirst(r, w, t, t', want, errors, aside, "m");
    assert errors[0] == PortExhausted("z") && Justified(r, w, t, t', want, aside, errors[0]);
  }

  lemma OnePortIsNotEnough(r: PortRange, w: World, t: Table, t': Table, errors: seq<ApplyError>, aside: map<string, int>)
    requires Reconciled(r, w, t, t', {"m", "z"}, errors, aside) && t.Keys == {"m"} && Phantom(t', "m") && r.count == 1
    ensures errors != []
  {
    assert "m" !in Running(t');
    assert "z" in t' ==> Row(r, w, t, t', {"m", "z"}, "z");
  }

  // Only desired rows are added.
  lemma RowsStay(r: PortRange, w: World, t: Table, t': Table, want: set<string>, errors: seq<ApplyError>, aside: map<string, int>)
    requires Reconciled(r, w, t, t', want, errors, aside)
    ensures t'.Keys <= t.Keys + want
  {
    forall x | x in t'
      ensures x in t || x in want
    {
      assert Row(r, w, t, t', want, x);
    }
  }

  // With everything else available, what is reported is exhaustion.
  lemma OnlyExhaustion(r: PortRange, w: World, t: Table, t': Table, want: set<string>, errors: seq<ApplyError>, aside: map<string, int>)
    requires Reconciled(r, w, t, t', want, errors, aside)
    requires w.looks > |want| && forall id | id in want :: Available(w, id)
    ensures forall e | e in errors :: e.PortExhausted? && e.id in want
    ensures errors == [] || (errors[0].PortExhausted? && errors[0].id in want)
  {
    forall e | e in errors
      ensures e.PortExhausted? && e.id in want
    {
      assert Justified(r, w, t, t', want, aside, e);
    }
  }

  // And not for the first id, if nothing ran.
  lemma NotExhaustedFirst(r: PortRange, w: World, t: Table, t': Table, want: set<string>, errors: seq<ApplyError>, aside: map<string, int>, id: string)
    requires Reconciled(r, w, t, t', want, errors, aside) && r.count > 0 && Running(t) == {}
    requires forall x | x in want :: !StringLess(x, id)
    ensures PortExhausted(id) !in errors
  {
    if PortExhausted(id) in errors {
      assert Justified(r, w, t, t', want, aside, PortExhausted(id));
      assert InRange(r, r.start);
    }
  }
}
