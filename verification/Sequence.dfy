// sequence.go and the save in state/identity.go: the restart-safe sequence
// that Site Mode heartbeats and presence events share.

module Sequence {
  import opened Basics

  const BLOCK := 16

  // ---- The source in one process ----

  // The identity file; a save replaces it whole or not at all.
  class IdentityFile {
    var ceiling: int

    constructor (ceiling: int)
      ensures this.ceiling == ceiling
    {
      this.ceiling := ceiling;
    }

    method Save(value: int, ok: bool)
      modifies this
      ensures ceiling == if ok then value else old(ceiling)
    {
      if ok {
        ceiling := value;
      }
    }
  }

  datatype Window = Window(cursor: int, reserved: int)

  // One call of next(): the value handed out and the window and file after it.
  datatype Handout = Handout(value: int, window: Window, disk: int, durable: bool)

  function Next(w: Window, disk: int, saved: bool): Handout {
    if w.cursor < w.reserved then Handout(w.cursor, w.(cursor := w.cursor + 1), disk, true)
    else if saved then Handout(w.cursor, Window(w.cursor + 1, w.cursor + BLOCK), w.cursor + BLOCK, true)
    else Handout(w.reserved, w, disk, false)
  }

  class PersistentSeq {
    const file: IdentityFile
    var cursor: int
    var reserved: int

    // Resumes from the file and reserves the first block, failing closed.
    static method Open(file: IdentityFile, saved: bool) returns (s: PersistentSeq?)
      modifies file
      ensures s != null <==> saved
      ensures s != null ==> fresh(s) && s.file == file
      ensures s != null ==> s.cursor == old(file.ceiling) && s.reserved == file.ceiling == s.cursor + BLOCK
      ensures s == null ==> file.ceiling == old(file.ceiling)
    {
      s := new PersistentSeq.Resume(file);
      var ok := s.Reserve(saved);
      if !ok {
        s := null;
      }
    }

    constructor Resume(file: IdentityFile)
      ensures this.file == file && cursor == reserved == file.ceiling
    {
      this.file := file;
      cursor, reserved := file.ceiling, file.ceiling;
    }

    // The new ceiling reaches the file before it is used.
    method Reserve(saved: bool) returns (ok: bool)
      modifies this, file
      ensures ok == saved && cursor == old(cursor)
      ensures ok ==> reserved == file.ceiling == cursor + BLOCK
      ensures !ok ==> reserved == old(reserved) && file.ceiling == old(file.ceiling)
    {
      var next := cursor + BLOCK;
      file.Save(next, saved);
      if !saved {
        return false;
      }
      reserved := next;
      return true;
    }

    method NextValue(saved: bool) returns (v: int, failed: bool)
      modifies this, file
      ensures Handout(v, Window(cursor, reserved), file.ceiling, !failed)
           == Next(old(Window(cursor, reserved)), old(file.ceiling), saved)
    {
      if cursor >= reserved {
        var ok := Reserve(saved);
        if !ok {
          return reserved, true;
        }
      }
      v := cursor;
      cursor := cursor + 1;
      failed := false;
    }
  }

  // ---- Runs with failed saves, crashes and restarts ----

  // A value on the wire; `durable` is false for the ceiling handed back after
  // a failed save.
  datatype Handed = Handed(value: int, durable: bool)

  datatype State = State(disk: int, process: Option<Window>, handed: seq<Handed>)

  datatype Step =
    | Call(saved: bool)          // next(), with its save succeeding or failing
    | Crash                      // between calls
    | CrashInSave(written: bool) // inside next() or startup, before or after the rename
    | Start(saved: bool)         // a fresh process resumes from the file

  predicate Enabled(s: State, step: Step) {
    match step
    case Call(_) => s.process.Some?
    case Crash => s.process.Some?
    case CrashInSave(_) => s.process.Some? ==> s.process.value.cursor >= s.process.value.reserved
    case Start(_) => s.process.None?
  }

  function Do(s: State, step: Step): State
    requires Enabled(s, step)
  {
    match step
    case Call(saved) =>
      var n := Next(s.process.value, s.disk, saved);
      State(n.disk, Some(n.window), s.handed + [Handed(n.value, n.durable)])
    case Crash => s.(process := None)
    case CrashInSave(written) =>
      var cursor := if s.process.Some? then s.process.value.cursor else s.disk;
      s.(process := None, disk := if written then cursor + BLOCK else s.disk)
    case Start(saved) =>
      if saved then State(s.disk + BLOCK, Some(Window(s.disk, s.disk + BLOCK)), s.handed)
      else s
  }

  // A first enrollment writes the file before any process uses it.
  ghost predicate IsRun(run: seq<State>, steps: seq<Step>) {
    && |run| == |steps| + 1
    && run[0].process == None && run[0].handed == []
    && forall i :: 0 <= i < |steps| ==> Enabled(run[i], steps[i]) && run[i + 1] == Do(run[i], steps[i])
  }

  // Where the next handout will start from.
  function Resume(s: State): int {
    if s.process.Some? then s.process.value.cursor else s.disk
  }

  // Later values are larger, except that a value handed out after a failed
  // save may come again.
  ghost predicate Monotone(handed: seq<Handed>) {
    forall i, j :: 0 <= i < j < |handed| ==>
      handed[i].value <= handed[j].value && (handed[i].durable ==> handed[i].value < handed[j].value)
  }

  ghost predicate Safe(s: State) {
    && Monotone(s.handed)
    && Resume(s) <= s.disk
    && (s.process.Some? ==> s.process.value.reserved == s.disk)
    && (forall x | x in s.handed :: x.value <= Resume(s) && (x.durable ==> x.value < Resume(s)))
  }

  lemma DoKeepsSafe(s: State, step: Step)
    requires Safe(s) && Enabled(s, step)
    ensures Safe(Do(s, step))
  {
  }

  // Over every run, in every state: values never decrease, a repeat follows
  // only a failed save, and the file's ceiling is at least every value handed out.
  lemma {:induction false} SequenceNeverRegresses(run: seq<State>, steps: seq<Step>, n: nat)
    requires IsRun(run, steps) && n < |run|
    ensures Safe(run[n]) && forall x | x in run[n].handed :: x.value <= run[n].disk
  {
    if n > 0 {
      SequenceNeverRegresses(run, steps, n - 1);
      DoKeepsSafe(run[n - 1], steps[n - 1]);
    }
  }

  // The value handed back after a failed save is the durable ceiling, and a
  // process that restarts from the file begins with that same value.
  lemma FailedSaveHandsBackCeiling(s: State)
    requires Safe(s) && s.process.Some? && s.process.value.cursor >= s.process.value.reserved
    ensures var t := Do(s, Call(false));
      && t.disk == s.disk
      && t.handed == s.handed + [Handed(s.disk, false)]
      && Resume(Do(Do(t, Crash), Start(true))) == s.disk
  {
  }

  // How many of the values were not handed back after a failed save.
  ghost function Durables(handed: seq<Handed>): nat {
    if handed == [] then 0
    else Durables(handed[..|handed| - 1]) + if handed[|handed| - 1].durable then 1 else 0
  }

  // A process counts up by one from the ceiling it found on disk, reserves no
  // more than sixteen numbers ahead, and saves only when they are used up.
  lemma {:induction false} ProcessCountsUp(run: seq<State>, steps: seq<Step>, k: nat, n: nat)
    requires IsRun(run, steps) && k < n < |run| && steps[k] == Start(true)
    requires forall m :: k < m < n ==> steps[m].Call?
    ensures run[n].process.Some?
    ensures var cursor := run[n].process.value.cursor;
      && cursor == run[k].disk + Durables(run[n].handed) - Durables(run[k].handed)
      && cursor <= run[n].disk <= cursor + 16
    ensures n > k + 1 ==>
      var before := run[n - 1].process.value;
      && run[n].handed == run[n - 1].handed + [if run[n].handed[|run[n].handed| - 1].durable then Handed(before.cursor, true) else Handed(run[n].disk, false)]
      && (before.cursor < run[n - 1].disk ==> run[n].disk == run[n - 1].disk && run[n].handed[|run[n].handed| - 1].durable)
  {
    SequenceNeverRegresses(run, steps, n);
    SequenceNeverRegresses(run, steps, n - 1);
    assert Enabled(run[n - 1], steps[n - 1]) && run[n - 1 + 1] == Do(run[n - 1], steps[n - 1]);
    if n > k + 1 {
      ProcessCountsUp(run, steps, k, n - 1);
      assert steps[n - 1].Call?;
      assert run[n].handed[..|run[n].handed| - 1] == run[n - 1].handed;
    }
  }
}
