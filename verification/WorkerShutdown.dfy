/**
 * Admission and shutdown of the child processes of `GhClient` (tools/ecosystem_source_inventory.py),
 * for any number of worker threads, `close` calls and signal handlers, interleaved step by step.
 */
module WorkerShutdown {
  import opened Bytes

  type Tid = nat
  type Pid = nat

  /** Where a worker stands in `_run`; the first three hold the process lock. */
  datatype Worker =
    | Admitted
    | Spawned(pid: Pid)
    | Registered(pid: Pid)
    | Running(pid: Pid)
    | Reaped(pid: Pid)

  /** Where a thread stands in `close` or in the signal handler. */
  datatype Sweeper =
    | Latched(barrier: bool)
    | Barred
    | Sweeping(todo: set<Pid>)
    | Done

  datatype State = State(
    latch: bool,
    holder: Option<Tid>,
    active: set<Pid>,
    created: set<Pid>,
    reaped: set<Pid>,
    workers: map<Tid, Worker>,
    sweepers: map<Tid, Sweeper>)

  datatype Step =
    | Refuse(w: Tid)                // latch seen under the lock: GH_SHUTDOWN
    | Admit(w: Tid)                 // lock taken, latch clear
    | SpawnFails(w: Tid)            // Popen raises: no process, lock released
    | Spawn(w: Tid, pid: Pid)       // Popen
    | Register(w: Tid)              // _active_processes.add
    | KillInside(w: Tid)            // executable pin mismatch, still under the lock
    | Leave(w: Tid)                 // lock released, normally or by an exception
    | Kill(w: Tid)                  // every way out of _run kills and reaps
    | Discard(w: Tid)               // the finally block, under the lock
    | SetLatch(c: Tid, barrier: bool) // close (with barrier) or the signal handler (without)
    | Barrier(c: Tid)               // `with lock: pass`
    | Snapshot(c: Tid)              // `processes = list(active)` under the lock
    | KillOne(c: Tid, pid: Pid)
    | Finish(c: Tid)

  const INIT := State(false, None, {}, {}, {}, map[], map[])

  predicate Enabled(s: State, step: Step) {
    match step
    case Refuse(w) => w !in s.workers && s.holder.None? && s.latch
    case Admit(w) => w !in s.workers && s.holder.None? && !s.latch
    case SpawnFails(w) => w in s.workers && s.workers[w].Admitted?
    case Spawn(w, pid) => w in s.workers && s.workers[w].Admitted? && pid !in s.created
    case Register(w) => w in s.workers && s.workers[w].Spawned?
    case KillInside(w) => w in s.workers && s.workers[w].Registered?
    case Leave(w) => w in s.workers && s.workers[w].Registered?
    case Kill(w) => w in s.workers && s.workers[w].Running?
    case Discard(w) => w in s.workers && s.workers[w].Reaped? && s.holder.None?
    case SetLatch(c, _) => c !in s.sweepers
    case Barrier(c) => c in s.sweepers && s.sweepers[c] == Latched(true) && s.holder.None?
    case Snapshot(c) => c in s.sweepers && (s.sweepers[c] == Latched(false) || s.sweepers[c].Barred?) && s.holder.None?
    case KillOne(c, pid) => c in s.sweepers && s.sweepers[c].Sweeping? && pid in s.sweepers[c].todo
    case Finish(c) => c in s.sweepers && s.sweepers[c] == Sweeping({})
  }

  function Apply(s: State, step: Step): State
    requires Enabled(s, step)
  {
    match step
    case Refuse(_) => s
    case Admit(w) => s.(holder := Some(w), workers := s.workers[w := Admitted])
    case SpawnFails(w) => s.(holder := None, workers := s.workers - {w})
    case Spawn(w, pid) => s.(created := s.created + {pid}, workers := s.workers[w := Spawned(pid)])
    case Register(w) =>
      var pid := s.workers[w].pid;
      s.(active := s.active + {pid}, workers := s.workers[w := Registered(pid)])
    case KillInside(w) => s.(reaped := s.reaped + {s.workers[w].pid})
    case Leave(w) => s.(holder := None, workers := s.workers[w := Running(s.workers[w].pid)])
    case Kill(w) =>
      var pid := s.workers[w].pid;
      s.(reaped := s.reaped + {pid}, workers := s.workers[w := Reaped(pid)])
    case Discard(w) => s.(active := s.active - {s.workers[w].pid}, workers := s.workers - {w})
    case SetLatch(c, barrier) => s.(latch := true, sweepers := s.sweepers[c := Latched(barrier)])
    case Barrier(c) => s.(sweepers := s.sweepers[c := Barred])
    case Snapshot(c) => s.(sweepers := s.sweepers[c := Sweeping(s.active)])
    case KillOne(c, pid) =>
      s.(reaped := s.reaped + {pid}, sweepers := s.sweepers[c := Sweeping(s.sweepers[c].todo - {pid})])
    case Finish(c) => s.(sweepers := s.sweepers[c := Done])
  }

  /** The state after a whole run, None if some step is not possible where the run puts it. */
  function Run(s: State, steps: seq<Step>): Option<State>
    decreases |steps|
  {
    if steps == [] then Some(s)
    else if Enabled(s, steps[0]) then Run(Apply(s, steps[0]), steps[1..])
    else None
  }

  // ----- Invariant -----

  predicate InSection(w: Worker) {
    w.Admitted? || w.Spawned? || w.Registered?
  }

  /** The lock was taken after the latch was set. */
  predicate Sealed(s: State) {
    exists c :: c in s.sweepers && !s.sweepers[c].Latched?
  }

  predicate LockInv(s: State) {
    && (forall w :: w in s.workers && InSection(s.workers[w]) ==> s.holder == Some(w))
    && (s.holder.Some? ==> s.holder.value in s.workers && InSection(s.workers[s.holder.value]))
  }

  predicate Spawning(s: State, pid: Pid) {
    s.holder.Some? && s.holder.value in s.workers && s.workers[s.holder.value] == Spawned(pid)
  }

  predicate ProcessInv(s: State) {
    && s.active <= s.created
    && (forall pid :: pid in s.created ==> pid in s.reaped || pid in s.active || Spawning(s, pid))
    && (forall w :: w in s.workers && s.workers[w].Reaped? ==> s.workers[w].pid in s.reaped)
    && (forall w :: w in s.workers && !s.workers[w].Admitted? ==> s.workers[w].pid in s.created)
  }

  predicate SweepInv(s: State) {
    && (s.sweepers != map[] ==> s.latch)
    && (Sealed(s) ==> s.holder.None?)
    && (forall c :: c in s.sweepers && s.sweepers[c].Sweeping? ==> s.created <= s.reaped + s.sweepers[c].todo)
    && (forall c :: c in s.sweepers && s.sweepers[c].Done? ==> s.created <= s.reaped)
  }

  predicate Inv(s: State) {
    LockInv(s) && ProcessInv(s) && SweepInv(s)
  }

  lemma LockStep(s: State, step: Step)
    requires Inv(s) && Enabled(s, step)
    ensures LockInv(Apply(s, step))
  {}

  lemma ProcessStep(s: State, step: Step)
    requires Inv(s) && Enabled(s, step)
    ensures ProcessInv(Apply(s, step))
  {
    var t := Apply(s, step);
    forall pid | pid in t.created ensures pid in t.reaped || pid in t.active || Spawning(t, pid) {
      assert pid in s.created ==> pid in s.reaped || pid in s.active || Spawning(s, pid);
    }
  }

  lemma SweepStep(s: State, step: Step)
    requires Inv(s) && Enabled(s, step)
    ensures SweepInv(Apply(s, step))
  {
    var t := Apply(s, step);
    if Sealed(s) {
      var c :| c in s.sweepers && !s.sweepers[c].Latched?;
      assert t.holder.None?;
    }
  }

  lemma InvStep(s: State, step: Step)
    requires Inv(s) && Enabled(s, step)
    ensures Inv(Apply(s, step))
  {
    LockStep(s, step);
    ProcessStep(s, step);
    SweepStep(s, step);
  }

  lemma {:induction false} InvRun(s: State, steps: seq<Step>)
    requires Inv(s) && Run(s, steps).Some?
    ensures Inv(Run(s, steps).value)
    decreases |steps|
  {
    if steps != [] {
      InvStep(s, steps[0]);
      InvRun(Apply(s, steps[0]), steps[1..]);
    }
  }

  // ----- Main theorems -----

  lemma SealedStep(s: State, step: Step)
    requires Inv(s) && Sealed(s) && Enabled(s, step)
    ensures Sealed(Apply(s, step)) && Apply(s, step).created == s.created
  {
    var c :| c in s.sweepers && !s.sweepers[c].Latched?;
    var t := Apply(s, step);
    assert c in t.sweepers && !t.sweepers[c].Latched?;
  }

  /** Once the latch is set and the lock has been taken after it, no process is ever created. */
  lemma {:induction false} NoProcessAfterSeal(s: State, steps: seq<Step>)
    requires Inv(s) && Sealed(s) && Run(s, steps).Some?
    ensures Run(s, steps).value.created == s.created && Sealed(Run(s, steps).value)
    decreases |steps|
  {
    if steps != [] {
      SealedStep(s, steps[0]);
      InvStep(s, steps[0]);
      NoProcessAfterSeal(Apply(s, steps[0]), steps[1..]);
    }
  }

  /** A process leaves the active set only after it was killed and reaped, over any stretch of a run. */
  lemma {:induction false} LeavesOnlyReaped(s: State, steps: seq<Step>, pid: Pid)
    requires Inv(s) && Run(s, steps).Some?
    requires pid in s.created && (pid in s.active || pid in s.reaped) && pid !in Run(s, steps).value.active
    ensures pid in Run(s, steps).value.reaped
    decreases |steps|
  {
    if steps != [] {
      var t := Apply(s, steps[0]);
      InvStep(s, steps[0]);
      assert pid in t.created && (pid in t.active || pid in t.reaped);
      LeavesOnlyReaped(t, steps[1..], pid);
    }
  }

  lemma {:induction false} ReapedGrows(s: State, steps: seq<Step>)
    requires Run(s, steps).Some?
    ensures s.reaped <= Run(s, steps).value.reaped
    decreases |steps|
  {
    if steps != [] {
      ReapedGrows(Apply(s, steps[0]), steps[1..]);
    }
  }

  lemma {:induction false} RunSplit(s: State, first: seq<Step>, rest: seq<Step>)
    requires Run(s, first + rest).Some?
    ensures Run(s, first).Some? && Run(Run(s, first).value, rest) == Run(s, first + rest)
    decreases |first|
  {
    if first == [] {
      assert [] + rest == rest;
    } else {
      assert (first + rest)[0] == first[0] && (first + rest)[1..] == first[1..] + rest;
      RunSplit(Apply(s, first[0]), first[1..], rest);
    }
  }

  /**
   * When a `close` or a signal handler has finished its sweep, every process ever created has been
   * killed and reaped, and that stays so however the run goes on.
   */
  lemma SweepLeavesNothing(first: seq<Step>, rest: seq<Step>, c: Tid)
    requires Run(INIT, first + rest).Some? && Run(INIT, first).Some?
    requires var s := Run(INIT, first).value; c in s.sweepers && s.sweepers[c].Done?
    ensures var t := Run(INIT, first + rest).value;
            t.created == Run(INIT, first).value.created && t.created <= t.reaped
  {
    RunSplit(INIT, first, rest);
    InvRun(INIT, first);
    var s := Run(INIT, first).value;
    assert Sealed(s);
    NoProcessAfterSeal(s, rest);
    ReapedGrows(s, rest);
  }

  /** The latch by itself is not enough: a worker admitted before it still spawns after it. */
  lemma LatchAloneDoesNotSeal()
    ensures var steps := [Admit(0), SetLatch(1, true), Spawn(0, 7)];
            Run(INIT, steps[..2]).Some? && Run(INIT, steps[..2]).value.latch
            && Run(INIT, steps).Some? && 7 in Run(INIT, steps).value.created
  {
    var steps := [Admit(0), SetLatch(1, true), Spawn(0, 7)];
    var s1 := Apply(INIT, Admit(0));
    var s2 := Apply(s1, SetLatch(1, true));
    var s3 := Apply(s2, Spawn(0, 7));
    assert steps[1..] == [SetLatch(1, true), Spawn(0, 7)];
    assert steps[1..][1..] == [Spawn(0, 7)];
    assert [Spawn(0, 7)][1..] == [];
    assert Run(s2, [Spawn(0, 7)]) == Some(s3);
    assert Run(s1, steps[1..]) == Some(s3);
    assert steps[..2][1..] == [SetLatch(1, true)] && [SetLatch(1, true)][1..] == [];
    assert Run(s1, steps[..2][1..]) == Some(s2);
  }

  predicate NobodyAdmitted(s: State) {
    forall w :: w in s.workers ==> !s.workers[w].Admitted?
  }

  /** No run from here ever creates a process. */
  ghost predicate CreatesNothing(s: State) {
    forall steps :: Run(s, steps).Some? ==> Run(s, steps).value.created == s.created
  }

  lemma LatchedStep(s: State, step: Step)
    requires s.latch && NobodyAdmitted(s) && Enabled(s, step)
    ensures Apply(s, step).latch && NobodyAdmitted(Apply(s, step)) && Apply(s, step).created == s.created
  {}

  lemma {:induction false} LatchedRun(s: State, steps: seq<Step>)
    requires s.latch && NobodyAdmitted(s) && Run(s, steps).Some?
    ensures Run(s, steps).value.created == s.created
    decreases |steps|
  {
    if steps != [] {
      LatchedStep(s, steps[0]);
      LatchedRun(Apply(s, steps[0]), steps[1..]);
    }
  }

  lemma {:induction false} FreshPid(pids: set<Pid>) returns (pid: Pid)
    ensures forall q <- pids :: q < pid
    decreases pids
  {
    if pids == {} {
      pid := 0;
    } else {
      var q :| q in pids;
      var above := FreshPid(pids - {q});
      pid := if q < above then above else q + 1;
      assert pids == (pids - {q}) + {q};
    }
  }

  /**
   * What the latch itself achieves: with it set, no process is ever created again exactly when no worker
   * stands between its admission and its spawn.
   */
  lemma LatchSealsIff(s: State)
    requires s.latch
    ensures CreatesNothing(s) <==> NobodyAdmitted(s)
  {
    if NobodyAdmitted(s) {
      forall steps | Run(s, steps).Some?
        ensures Run(s, steps).value.created == s.created
      {
        LatchedRun(s, steps);
      }
    } else {
      var w :| w in s.workers && s.workers[w].Admitted?;
      var pid := FreshPid(s.created);
      var steps := [Spawn(w, pid)];
      assert steps[1..] == [] && Run(s, steps) == Some(Apply(s, steps[0]));
      assert pid in Run(s, steps).value.created;
    }
  }

  /** Taking the lock after the latch is the way to get there. */
  lemma SealedCreatesNothing(s: State)
    requires Inv(s) && Sealed(s)
    ensures NobodyAdmitted(s) && CreatesNothing(s)
  {
    assert forall w :: w in s.workers && s.workers[w].Admitted? ==> InSection(s.workers[w]);
    LatchSealsIff(s);
  }

  // ----- Nothing gets stuck -----

  lemma OneStep(s: State, step: Step)
    requires Enabled(s, step)
    ensures Run(s, [step]) == Some(Apply(s, step))
  {
    assert [step][1..] == [] && Run(Apply(s, step), []) == Some(Apply(s, step));
  }

  lemma {:induction false} Chain(s: State, a: seq<Step>, b: seq<Step>)
    requires Run(s, a).Some?
    ensures Run(s, a + b) == Run(Run(s, a).value, b)
    decreases |a|
  {
    if a == [] {
      assert [] + b == b;
    } else {
      Chain(Apply(s, a[0]), a[1..], b);
      assert (a + b)[0] == a[0] && (a + b)[1..] == a[1..] + b;
    }
  }

  /** One more step at the end of a run. */
  lemma Extend(s: State, steps: seq<Step>, step: Step)
    requires Run(s, steps).Some? && Enabled(Run(s, steps).value, step)
    ensures Run(s, steps + [step]) == Some(Apply(Run(s, steps).value, step))
  {
    Chain(s, steps, [step]);
    OneStep(Run(s, steps).value, step);
  }

  /** Whoever holds the lock can release it, without the others moving. */
  lemma LockCanBeFreed(s: State) returns (steps: seq<Step>)
    requires Inv(s)
    ensures Run(s, steps).Some? && Inv(Run(s, steps).value)
    ensures var t := Run(s, steps).value; t.holder.None? && t.sweepers == s.sweepers
    ensures forall w :: w in s.workers && !InSection(s.workers[w]) ==>
              w in Run(s, steps).value.workers && Run(s, steps).value.workers[w] == s.workers[w]
  {
    steps := [];
    if s.holder.Some? {
      var w := s.holder.value;
      if s.workers[w].Admitted? {
        steps := [SpawnFails(w)];
        OneStep(s, SpawnFails(w));
      } else if s.workers[w].Registered? {
        steps := [Leave(w)];
        OneStep(s, Leave(w));
      } else {
        steps := [Register(w)];
        OneStep(s, Register(w));
        Extend(s, steps, Leave(w));
        steps := steps + [Leave(w)];
      }
    }
    InvRun(s, steps);
  }

  /** A worker outside the section can always end, and then its process is reaped and no longer active. */
  lemma WorkerCanEnd(s: State, w: Tid) returns (steps: seq<Step>)
    requires Inv(s) && w in s.workers && (s.workers[w].Running? || s.workers[w].Reaped?)
    ensures Run(s, steps).Some?
    ensures var t := Run(s, steps).value;
            w !in t.workers && s.workers[w].pid in t.reaped && s.workers[w].pid !in t.active
  {
    hide LockInv, ProcessInv, SweepInv, Enabled;
    steps := LockCanBeFreed(s);
    steps := WorkerEnds(s, steps, w);
  }

  lemma WorkerEnds(s: State, before: seq<Step>, w: Tid) returns (steps: seq<Step>)
    requires Run(s, before).Some? && Inv(Run(s, before).value)
    requires var t := Run(s, before).value;
             t.holder.None? && w in t.workers && (t.workers[w].Running? || t.workers[w].Reaped?)
    ensures Run(s, steps).Some?
    ensures var pid := Run(s, before).value.workers[w].pid; var t := Run(s, steps).value;
            w !in t.workers && pid in t.reaped && pid !in t.active
  {
    var t := Run(s, before).value;
    steps := before;
    if t.workers[w].Running? {
      Extend(s, steps, Kill(w));
      steps := steps + [Kill(w)];
    }
    Extend(s, steps, Discard(w));
    steps := steps + [Discard(w)];
  }

  /** Whatever the others were doing, a `close` or a handler can go on to the end, and every process is then reaped. */
  lemma CloseCanFinish(s: State, c: Tid) returns (steps: seq<Step>)
    requires Inv(s) && c in s.sweepers
    ensures Run(s, steps).Some?
    ensures var t := Run(s, steps).value; c in t.sweepers && t.sweepers[c].Done? && t.created <= t.reaped
  {
    hide LockInv, ProcessInv, InSection;
    steps := [];
    if s.sweepers[c].Latched? || s.sweepers[c].Barred? {
      steps := LockCanBeFreed(s);
      if s.sweepers[c] == Latched(true) {
        Extend(s, steps, Barrier(c));
        steps := steps + [Barrier(c)];
      }
      Extend(s, steps, Snapshot(c));
      steps := steps + [Snapshot(c)];
      InvRun(s, steps);
    }
    var t := Run(s, steps).value;
    if t.sweepers[c].Sweeping? {
      var sweep := SweepCanFinish(t, c);
      Chain(s, steps, sweep);
      steps := steps + sweep;
    }
    InvRun(s, steps);
  }

  lemma {:induction false} SweepCanFinish(s: State, c: Tid) returns (steps: seq<Step>)
    requires c in s.sweepers && s.sweepers[c].Sweeping?
    ensures Run(s, steps).Some? && c in Run(s, steps).value.sweepers && Run(s, steps).value.sweepers[c].Done?
    decreases s.sweepers[c].todo
  {
    var todo := s.sweepers[c].todo;
    if todo == {} {
      steps := [Finish(c)];
      OneStep(s, Finish(c));
    } else {
      var pid :| pid in todo;
      OneStep(s, KillOne(c, pid));
      var rest := SweepCanFinish(Apply(s, KillOne(c, pid)), c);
      Chain(s, [KillOne(c, pid)], rest);
      steps := [KillOne(c, pid)] + rest;
    }
  }

  // ----- The client object -----

  /** `GhClient` with its lock, whose methods are the atomic sections of `_run`, `close` and the handler. */
  class GhClient {
    var shutdownRequested: bool
    var lockHolder: Option<Tid>
    var activeProcesses: set<Pid>
    ghost var created: set<Pid>
    ghost var reaped: set<Pid>
    ghost var workers: map<Tid, Worker>
    ghost var sweepers: map<Tid, Sweeper>

    ghost function Abs(): State
      reads this
    {
      State(shutdownRequested, lockHolder, activeProcesses, created, reaped, workers, sweepers)
    }

    constructor ()
      ensures Abs() == INIT && Inv(Abs())
    {
      shutdownRequested, lockHolder, activeProcesses := false, None, {};
      created, reaped, workers, sweepers := {}, {}, map[], map[];
    }

    /** `with self._process_lock:` and the latch test; true when the worker may spawn. */
    method TryAdmit(w: Tid) returns (admitted: bool)
      requires Inv(Abs()) && w !in workers && lockHolder.None?
      modifies this
      ensures admitted == !old(shutdownRequested)
      ensures Abs() == Apply(old(Abs()), if admitted then Admit(w) else Refuse(w)) && Inv(Abs())
    {
      InvStep(Abs(), if shutdownRequested then Refuse(w) else Admit(w));
      if shutdownRequested {
        return false;
      }
      lockHolder := Some(w);
      workers := workers[w := Admitted];
      return true;
    }

    /** Popen and `_active_processes.add`, both before the lock is released. */
    method SpawnAndRegister(w: Tid, pid: Pid)
      requires Inv(Abs()) && w in workers && workers[w].Admitted? && pid !in created
      modifies this
      ensures Run(old(Abs()), [Spawn(w, pid), Register(w)]) == Some(Abs()) && Inv(Abs())
    {
      ghost var s := Abs();
      ghost var steps := [Spawn(w, pid), Register(w)];
      assert steps[1..] == [Register(w)] && steps[1..][1..] == [];
      created := created + {pid};
      workers := workers[w := Spawned(pid)];
      ghost var t := Abs();
      assert t == Apply(s, steps[0]) && Run(t, []) == Some(t);
      activeProcesses := activeProcesses + {pid};
      workers := workers[w := Registered(pid)];
      assert Abs() == Apply(t, Register(w));
      assert Run(t, steps[1..]) == Some(Abs());
      InvRun(s, steps);
    }

    method ReleaseAfterSpawn(w: Tid)
      requires Inv(Abs()) && w in workers && workers[w].Registered?
      modifies this
      ensures Abs() == Apply(old(Abs()), Leave(w)) && Inv(Abs())
    {
      InvStep(Abs(), Leave(w));
      lockHolder := None;
      workers := workers[w := Running(workers[w].pid)];
    }

    method KillAndReap(w: Tid)
      requires Inv(Abs()) && w in workers && workers[w].Running?
      modifies this
      ensures Abs() == Apply(old(Abs()), Kill(w)) && Inv(Abs())
    {
      InvStep(Abs(), Kill(w));
      reaped := reaped + {workers[w].pid};
      workers := workers[w := Reaped(workers[w].pid)];
    }

    /** The `finally` block: `with self._process_lock: self._active_processes.discard(process)`. */
    method DiscardProcess(w: Tid, pid: Pid)
      requires Inv(Abs()) && w in workers && workers[w] == Reaped(pid) && lockHolder.None?
      modifies this
      ensures Abs() == Apply(old(Abs()), Discard(w)) && Inv(Abs())
    {
      InvStep(Abs(), Discard(w));
      activeProcesses := activeProcesses - {pid};
      workers := workers - {w};
    }

    method RequestShutdown(c: Tid, barrier: bool)
      requires Inv(Abs()) && c !in sweepers
      modifies this
      ensures Abs() == Apply(old(Abs()), SetLatch(c, barrier)) && Inv(Abs())
    {
      InvStep(Abs(), SetLatch(c, barrier));
      shutdownRequested := true;
      sweepers := sweepers[c := Latched(barrier)];
    }

    /** `_kill_active_processes`: the copy taken under the lock, then a kill for each copied process. */
    method KillActiveProcesses(c: Tid)
      requires Inv(Abs()) && lockHolder.None?
      requires c in sweepers && (sweepers[c] == Latched(false) || sweepers[c].Barred?)
      modifies this
      ensures Inv(Abs()) && c in sweepers && sweepers[c].Done? && created <= reaped
      ensures created == old(created) && activeProcesses == old(activeProcesses) && shutdownRequested
      ensures reaped == old(reaped) + old(activeProcesses)
    {
      hide LockInv, ProcessInv, Spawning, InSection;
      InvStep(Abs(), Snapshot(c));
      var processes := activeProcesses;
      sweepers := sweepers[c := Sweeping(activeProcesses)];
      while processes != {}
        invariant Inv(Abs()) && c in sweepers && sweepers[c] == Sweeping(processes)
        invariant created == old(created) && activeProcesses == old(activeProcesses)
        invariant processes <= activeProcesses
        invariant reaped == old(reaped) + (activeProcesses - processes)
        decreases processes
      {
        var pid :| pid in processes;
        InvStep(Abs(), KillOne(c, pid));
        processes := processes - {pid};
        reaped := reaped + {pid};
        sweepers := sweepers[c := Sweeping(processes)];
      }
      InvStep(Abs(), Finish(c));
      sweepers := sweepers[c := Done];
    }
  }
}
