/** The campaign that writes the log: waiting, capturing, exporting, stopping (tools/live_gate_dev_smoke.py). */
module SmokeCampaign {
  import opened Bytes
  import opened PollTrace

  /** How the n-th command ends: its code, its output as a number and whether its output is `true`. */
  datatype Reply = TimedOut | Exited(code: int, number: Option<nat>, isTrue: bool)

  /** Everything outside: how commands end, what the clock shows, whether what was exported is valid. */
  datatype World = World(reply: nat -> Reply, clock: nat -> int, exportValid: bool)

  function ExitOf(r: Reply): Option<int> {
    if r.Exited? then Some(r.code) else None
  }

  /** A command that leaves the life cycle of the container alone: it does not touch it, or only in a reviewed way. */
  predicate Neutral(argv: Argv, t: Target) {
    Classify(argv, t) == Other && (Touches(argv, t) ==> Reviewed(argv, t))
  }

  lemma UntouchedIsNeutral(argv: Argv, t: Target)
    requires !Touches(argv, t)
    ensures Neutral(argv, t)
  {
    assert Poll(t)[2] == Export(t)[2] == Logs(t)[2] == Running(t)[4] == Stop(t)[4] == t.container;
    ClassesDiffer(argv, t);
  }

  /** Starting the container, inspecting it and removing it are neutral. */
  lemma HousekeepingIsNeutral(argv: Argv, t: Target)
    requires IsRun(argv, t) || argv == Inspect(t) || argv == Remove(t)
    ensures Neutral(argv, t)
  {
    ClassesDiffer(argv, t);
    assert argv[1] == "run" || argv[1] == "container" || argv[1] == "rm" by {
      assert IsRun(argv, t) ==> argv[..2][1] == "run";
    }
    assert |"run"| == 3 && |"container"| == 9 && |"rm"| == 2 && |"exec"| == 4 && |"inspect"| == 7 && |"stop"| == 4 && |"logs"| == 4;
  }

  lemma LettersAppend(records: seq<Record>, r: Record, t: Target)
    ensures Letters(records + [r], t) == Letters(records, t) + [LetterOf(r, t)]
  {
  }

  /** One more command moves the automaton one step and keeps the log reviewed when the command is. */
  lemma OneMoreRecord(records: seq<Record>, r: Record, t: Target)
    ensures Run(Letters(records + [r], t), t.gate) == Step(Run(Letters(records, t), t.gate), |records|, LetterOf(r, t), t.gate)
    ensures OnlyReviewed(records + [r], t) <==> OnlyReviewed(records, t) && (Touches(r.argv, t) ==> Reviewed(r.argv, t))
  {
    hide Touches, Reviewed, Step;
    LettersAppend(records, r, t);
    var ls := Letters(records, t) + [LetterOf(r, t)];
    assert ls[..|ls| - 1] == Letters(records, t);
    assert (records + [r])[|records|] == r;
    assert forall i :: 0 <= i < |records| ==> (records + [r])[i] == records[i];
  }

  // ----- What a campaign issues and when it gets through -----

  /** The log of these commands when the first of them is the campaign's from-th. */
  function Recorded(w: World, argvs: seq<Argv>, from: nat): (records: seq<Record>)
    ensures |records| == |argvs|
  {
    seq(|argvs|, i requires 0 <= i < |argvs| => Record(argvs[i], ExitOf(w.reply(from + i))))
  }

  lemma RecordedAppend(w: World, a: seq<Argv>, b: seq<Argv>, from: nat)
    ensures Recorded(w, a + b, from) == Recorded(w, a, from) + Recorded(w, b, from + |a|)
  {
  }

  lemma RecordedOne(w: World, a: seq<Argv>, argv: Argv, from: nat)
    ensures Recorded(w, a + [argv], from) == Recorded(w, a, from) + [Record(argv, ExitOf(w.reply(from + |a|)))]
  {
  }

  /** n polls, each followed by its running check. */
  function RoundArgvs(t: Target, n: nat): (argvs: seq<Argv>)
    ensures |argvs| == 2 * n
  {
    if n == 0 then [] else RoundArgvs(t, n - 1) + [Poll(t)] + [Running(t)]
  }

  function RouterArgvs(t: Target, router: string): seq<Argv> {
    if t.gate then [["docker", "logs", router]] else []
  }

  /** The whole life cycle with n failed polls. */
  function LifeArgvs(t: Target, router: string, n: nat): seq<Argv> {
    RoundArgvs(t, n) + [Poll(t)] + [Logs(t)] + RouterArgvs(t, router) + [Export(t)] + [Stop(t)]
  }

  predicate Failed(r: Reply) { r.Exited? && r.code != 0 }

  predicate Alive(r: Reply) { r.Exited? && r.code == 0 && r.isTrue }

  predicate Answered(r: Reply) { r.Exited? && r.code == 0 && r.number.Some? }

  /** The i-th poll, made in time, fails, and the running check after it, made in time, holds. */
  predicate RoundOk(w: World, from: nat, tick: nat, deadline: int, i: nat) {
    && w.clock(tick + 1 + 3 * i) < deadline && Failed(w.reply(from + 2 * i))
    && w.clock(tick + 2 + 3 * i) < deadline && Alive(w.reply(from + 2 * i + 1))
  }

  predicate RoundsOk(w: World, from: nat, tick: nat, deadline: int, n: nat) {
    forall i: nat :: i < n ==> RoundOk(w, from, tick, deadline, i)
  }

  /** The n-th poll is made in time and answered with a number. */
  predicate DoneAt(w: World, from: nat, tick: nat, deadline: int, n: nat) {
    w.clock(tick + 1 + 3 * n) < deadline && Answered(w.reply(from + 2 * n))
  }

  /** The marker appears after n failed polls, before the deadline that is set at reading `tick`. */
  predicate Answers(w: World, from: nat, tick: nat, timeout: int, n: nat) {
    var deadline := w.clock(tick) + timeout;
    RoundsOk(w, from, tick, deadline, n) && DoneAt(w, from, tick, deadline, n)
  }

  predicate CleanExit(r: Reply) { r.Exited? && r.code == 0 }

  /** The records after the answering poll, the first of them numbered next. */
  function TailRecords(w: World, t: Target, router: string, next: nat): seq<Record> {
    if t.gate then
      [Record(Logs(t), ExitOf(w.reply(next))), Record(["docker", "logs", router], ExitOf(w.reply(next + 1))),
       Record(Export(t), ExitOf(w.reply(next + 2))), Record(Stop(t), ExitOf(w.reply(next + 3)))]
    else
      [Record(Logs(t), ExitOf(w.reply(next))), Record(Export(t), ExitOf(w.reply(next + 1))),
       Record(Stop(t), ExitOf(w.reply(next + 2)))]
  }

  lemma LifeRecorded(w: World, t: Target, router: string, from: nat, n: nat)
    ensures Recorded(w, LifeArgvs(t, router, n), from) ==
            Recorded(w, RoundArgvs(t, n) + [Poll(t)], from) + TailRecords(w, t, router, from + 2 * n + 1)
  {
    hide Poll, Logs, Export, Stop;
    var polled := RoundArgvs(t, n) + [Poll(t)];
    var tail := [Logs(t)] + RouterArgvs(t, router) + [Export(t)] + [Stop(t)];
    assert LifeArgvs(t, router, n) == polled + tail;
    RecordedAppend(w, polled, tail, from);
  }

  /** The commands after the answering poll, the first of them numbered next, work as they must. */
  predicate TailOk(w: World, t: Target, next: nat) {
    var archive := if t.gate then next + 2 else next + 1;
    && w.reply(next).Exited? && (t.gate ==> w.reply(next + 1).Exited?)
    && CleanExit(w.reply(archive)) && w.exportValid && CleanExit(w.reply(archive + 1))
  }

  /** After n failed polls the status is zero and every later command of the life cycle works as it must. */
  predicate Completes(w: World, t: Target, from: nat, tick: nat, timeout: int, n: nat) {
    Answers(w, from, tick, timeout, n) && w.reply(from + 2 * n).number == Some(0) && TailOk(w, t, from + 2 * n + 1)
  }

  /** Whether the life cycle's own log capture succeeded. */
  predicate LogsCaptured(w: World, from: nat, n: nat) { CleanExit(w.reply(from + 2 * n + 1)) }

  /** No command of the given number is timed out. */
  predicate AllExit(w: World, from: nat, count: nat) {
    forall k: nat :: from <= k < from + count ==> w.reply(k).Exited?
  }

  predicate CampaignCompletes(w: World, t: Target, before: nat, after: nat, tick: nat, timeout: int, n: nat) {
    && AllExit(w, 0, before) && Completes(w, t, before, tick, timeout, n)
    && AllExit(w, before + 2 * n + (if t.gate then 5 else 4), after)
  }

  /** When round r neither answers nor goes on, no number of failed polls leads to an answer. */
  lemma StuckAt(w: World, from: nat, tick: nat, timeout: int, r: nat)
    requires RoundsOk(w, from, tick, w.clock(tick) + timeout, r)
    requires w.clock(tick + 1 + 3 * r) < w.clock(tick) + timeout ==>
               !Answered(w.reply(from + 2 * r))
               && !(Failed(w.reply(from + 2 * r)) && w.clock(tick + 2 + 3 * r) < w.clock(tick) + timeout
                    && Alive(w.reply(from + 2 * r + 1)))
    ensures forall n: nat :: !Answers(w, from, tick, timeout, n)
  {
    var deadline := w.clock(tick) + timeout;
    assert !RoundOk(w, from, tick, deadline, r) && !DoneAt(w, from, tick, deadline, r);
    forall n: nat
      ensures !Answers(w, from, tick, timeout, n)
    {
      if n < r {
        assert RoundOk(w, from, tick, deadline, n);
      }
    }
  }

  lemma AnswerAt(w: World, from: nat, tick: nat, timeout: int, r: nat)
    requires RoundsOk(w, from, tick, w.clock(tick) + timeout, r)
    requires w.clock(tick + 1 + 3 * r) < w.clock(tick) + timeout && Answered(w.reply(from + 2 * r))
    ensures Answers(w, from, tick, timeout, r)
    ensures forall n: nat :: Answers(w, from, tick, timeout, n) ==> n == r
  {
    AnswerIsUnique(w, from, tick, timeout, r);
  }

  lemma OneMoreRound(w: World, t: Target, from: nat, tick: nat, deadline: int, r: nat)
    requires RoundsOk(w, from, tick, deadline, r)
    requires w.clock(tick + 1 + 3 * r) < deadline && Failed(w.reply(from + 2 * r))
    requires w.clock(tick + 2 + 3 * r) < deadline && Alive(w.reply(from + 2 * r + 1))
    ensures RoundsOk(w, from, tick, deadline, r + 1)
    ensures Recorded(w, RoundArgvs(t, r + 1), from) ==
            Recorded(w, RoundArgvs(t, r), from) + [Record(Poll(t), ExitOf(w.reply(from + 2 * r)))]
            + [Record(Running(t), ExitOf(w.reply(from + 2 * r + 1)))]
  {
    hide Poll, Running, Recorded, Failed, Alive;
    assert RoundOk(w, from, tick, deadline, r);
    RecordedOne(w, RoundArgvs(t, r), Poll(t), from);
    RecordedOne(w, RoundArgvs(t, r) + [Poll(t)], Running(t), from);
  }

  lemma LastPoll(w: World, t: Target, from: nat, r: nat)
    requires Answered(w.reply(from + 2 * r))
    ensures Recorded(w, RoundArgvs(t, r) + [Poll(t)], from) == Recorded(w, RoundArgvs(t, r), from) + [Record(Poll(t), Some(0))]
  {
    hide Poll, Recorded;
    RecordedOne(w, RoundArgvs(t, r), Poll(t), from);
  }

  lemma AnswersOnce(w: World, from: nat, tick: nat, timeout: int, r: nat, n: nat)
    requires Answers(w, from, tick, timeout, r) && Answers(w, from, tick, timeout, n)
    ensures r == n
  {
    var deadline := w.clock(tick) + timeout;
    assert n < r ==> RoundOk(w, from, tick, deadline, n);
    assert r < n ==> RoundOk(w, from, tick, deadline, r);
  }

  class CommandRunner {
    var commands: seq<Record>
    var ticks: nat
    const world: World

    constructor (world: World)
      ensures commands == [] && ticks == 0 && this.world == world
    {
      commands, ticks, this.world := [], 0, world;
    }

    ghost function StateOf(t: Target): State
      reads this
    {
      Run(Letters(commands, t), t.gate)
    }

    /** `run`: the command is logged however it ends; a timeout or, when checked, a failure is raised. */
    method Execute(argv: Argv, check: bool, t: Target) returns (reply: Option<Reply>)
      modifies this`commands
      ensures commands == old(commands) + [Record(argv, ExitOf(world.reply(|old(commands)|)))]
      ensures reply == if world.reply(|old(commands)|).TimedOut? || (check && world.reply(|old(commands)|).code != 0) then None
                       else Some(world.reply(|old(commands)|))
      ensures StateOf(t) == Step(old(StateOf(t)), |old(commands)|, LetterOf(commands[|old(commands)|], t), t.gate)
      ensures OnlyReviewed(commands, t) <==> old(OnlyReviewed(commands, t)) && (Touches(argv, t) ==> Reviewed(argv, t))
    {
      hide Run, Letters, LetterOf, Step, OnlyReviewed, Touches, Reviewed;
      var r := world.reply(|commands|);
      OneMoreRecord(commands, Record(argv, ExitOf(r)), t);
      commands := commands + [Record(argv, ExitOf(r))];
      if r.TimedOut? || (check && r.code != 0) {
        return None;
      }
      return Some(r);
    }

    method Now() returns (now: int)
      modifies this`ticks
      ensures ticks == old(ticks) + 1 && now == world.clock(old(ticks))
    {
      now := world.clock(ticks);
      ticks := ticks + 1;
    }

    /** One turn of the polling loop, entered in time: an answer, a raised error, or another turn. */
    method PollOnce(t: Target, deadline: int) returns (turn: Turn)
      requires StateOf(t) == Polling && OnlyReviewed(commands, t)
      modifies this`commands, this`ticks
      ensures turn == Again <==> Failed(world.reply(|old(commands)|)) && world.clock(old(ticks)) < deadline
                                 && Alive(world.reply(|old(commands)| + 1))
      ensures turn.Status? <==> Answered(world.reply(|old(commands)|))
      ensures turn.Status? ==> world.reply(|old(commands)|).number == Some(turn.number)
                               && commands == old(commands) + [Record(Poll(t), Some(0))]
                               && StateOf(t) == if t.gate then Found(|old(commands)|) else Logged(|old(commands)|, |old(commands)|)
      ensures turn == Again ==> ticks == old(ticks) + 2 && StateOf(t) == Polling
                                && commands == old(commands) + [Record(Poll(t), ExitOf(world.reply(|old(commands)|)))]
                                               + [Record(Running(t), ExitOf(world.reply(|old(commands)| + 1)))]
      ensures OnlyReviewed(commands, t)
    {
      hide Touches, OnlyReviewed, Run, Letters, Poll, Running, Export, Logs, Stop, IsRun, Classify;
      CommandClasses(t);
      var marker := Execute(Poll(t), false, t);
      if marker == None {
        return Raised;
      }
      if marker.value.code == 0 {
        return if marker.value.number.Some? then Status(marker.value.number.value) else Raised;
      }
      var now := Now();
      if deadline <= now {
        return Raised;
      }
      var running := Execute(Running(t), false, t);
      if running == None {
        return Raised;
      }
      if running.value.code != 0 || !running.value.isTrue {
        var tail := Execute(Logs(t), false, t);
        return Raised;
      }
      var pause := Now();
      return Again;
    }

    /**
     * `wait_for_exit_marker`: it returns a status exactly when the marker appears after some number of failed
     * polls before the deadline, and then it issued just these polls and their running checks.
     */
    method WaitForExitMarker(t: Target, timeout: int, ghost late: nat) returns (status: Option<nat>)
      requires StateOf(t) == Polling && OnlyReviewed(commands, t)
      requires forall k :: k >= late ==> world.clock(k) >= world.clock(ticks) + timeout
      modifies this`commands, this`ticks
      ensures status.Some? <==> exists n: nat :: Answers(world, |old(commands)|, old(ticks), timeout, n)
      ensures forall n: nat :: Answers(world, |old(commands)|, old(ticks), timeout, n) ==>
                status == world.reply(|old(commands)| + 2 * n).number
                && commands == old(commands) + Recorded(world, RoundArgvs(t, n) + [Poll(t)], |old(commands)|)
      ensures status.Some? ==> |commands| > |old(commands)|
      ensures status.Some? ==> StateOf(t) == if t.gate then Found(|commands| - 1) else Logged(|commands| - 1, |commands| - 1)
      ensures OnlyReviewed(commands, t)
    {
      hide OnlyReviewed, Run, Letters, Poll, Running, Step;
      hide Recorded, Failed, Alive, Answered, RoundsOk, Answers, RoundArgvs, ExitOf;
      ghost var from, tick, r := |commands|, ticks, 0;
      ghost var issued: seq<Record> := [];
      var start := Now();
      var deadline := start + timeout;
      var now := Now();
      NoRounds(world, t, from, tick, deadline);
      while now < deadline
        invariant StateOf(t) == Polling && OnlyReviewed(commands, t)
        invariant ticks == tick + 2 + 3 * r && now == world.clock(ticks - 1)
        invariant commands == old(commands) + issued && issued == Recorded(world, RoundArgvs(t, r), from)
        invariant RoundsOk(world, from, tick, deadline, r)
        decreases late - ticks
      {
        var turn := PollOnce(t, deadline);
        if turn == Raised {
          StuckAt(world, from, tick, timeout, r);
          return None;
        }
        if turn.Status? {
          LastPoll(world, t, from, r);
          AnswerAt(world, from, tick, timeout, r);
          return Some(turn.number);
        }
        OneMoreRound(world, t, from, tick, deadline, r);
        issued := Recorded(world, RoundArgvs(t, r + 1), from);
        r := r + 1;
        now := Now();
      }
      StuckAt(world, from, tick, timeout, r);
      return None;
    }

    /** After the wait: logs, for the Gate also its router's, export and stop. */
    method CaptureAndStop(t: Target, router: string, status: nat) returns (ok: bool, logged: bool)
      requires |commands| > 0 && OnlyReviewed(commands, t)
      requires StateOf(t) == if t.gate then Found(|commands| - 1) else Logged(|commands| - 1, |commands| - 1)
      requires Neutral(["docker", "logs", router], t)
      modifies this`commands
      ensures ok <==> status == 0 && TailOk(world, t, |old(commands)|)
      ensures ok ==> logged == CleanExit(world.reply(|old(commands)|))
      ensures ok ==> commands == old(commands) + TailRecords(world, t, router, |old(commands)|)
      ensures ok ==> (StateOf(t).Stopped? <==> (t.gate ==> logged)) && StateOf(t) != MustRun
      ensures OnlyReviewed(commands, t)
    {
      hide Touches, OnlyReviewed, Reviewed, Run, Letters, LetterOf, Poll, Running, Export, Logs, Stop, Classify, Step;
      CommandClasses(t);
      var logs := Execute(Logs(t), false, t);
      if logs == None {
        return false, false;
      }
      logged := logs.value.code == 0;
      if t.gate {
        var routerLogs := Execute(["docker", "logs", router], false, t);
        if routerLogs == None {
          return false, false;
        }
      }
      if status != 0 {
        return false, false;
      }
      var archive := Execute(Export(t), true, t);
      if archive == None || !world.exportValid {
        return false, false;
      }
      var stopped := Execute(Stop(t), true, t);
      ok := stopped != None;
      if ok {
        TailRuns(old(commands), world, t, router);
      }
    }

    /**
     * From the wait to the stop; it succeeds exactly when the life cycle completes after some number of failed
     * polls. The logs are captured unchecked; the Gate's run also captures its router's.
     */
    method Lifecycle(t: Target, router: string, timeout: int, ghost late: nat) returns (ok: bool, logged: bool)
      requires StateOf(t) == Polling && OnlyReviewed(commands, t)
      requires Neutral(["docker", "logs", router], t)
      requires forall k :: k >= late ==> world.clock(k) >= world.clock(ticks) + timeout
      modifies this`commands, this`ticks
      ensures ok <==> exists n: nat :: Completes(world, t, |old(commands)|, old(ticks), timeout, n)
      ensures forall n: nat :: Completes(world, t, |old(commands)|, old(ticks), timeout, n) ==>
                logged == LogsCaptured(world, |old(commands)|, n)
                && commands == old(commands) + Recorded(world, LifeArgvs(t, router, n), |old(commands)|)
      ensures ok ==> (StateOf(t).Stopped? <==> (t.gate ==> logged)) && StateOf(t) != MustRun
      ensures OnlyReviewed(commands, t)
    {
      hide OnlyReviewed, Run, Letters, Poll, Neutral, Recorded, Answers, LifeArgvs, RoundArgvs, Completes, TailOk, TailRecords;
      ghost var from, tick := |commands|, ticks;
      var status := WaitForExitMarker(t, timeout, late);
      CompletesOnlyIfAnswered(world, t, from, tick, timeout);
      if status == None {
        return false, false;
      }
      ghost var n: nat :| Answers(world, from, tick, timeout, n);
      CompletesOnce(world, t, from, tick, timeout, n);
      LifeRecorded(world, t, router, from, n);
      assert |commands| == from + 2 * n + 1;
      ok, logged := CaptureAndStop(t, router, status.value);
    }

    /** Commands of other phases, all neutral, leave the life cycle where it is; only a timeout ends the phase. */
    method ExecuteAll(argvs: seq<Argv>, t: Target) returns (ok: bool)
      requires forall a <- argvs :: Neutral(a, t)
      requires StateOf(t) != MustRun
      requires OnlyReviewed(commands, t)
      modifies this`commands
      ensures StateOf(t) == old(StateOf(t)) && OnlyReviewed(commands, t) && old(commands) <= commands
      ensures ok <==> AllExit(world, |old(commands)|, |argvs|)
      ensures ok ==> commands == old(commands) + Recorded(world, argvs, |old(commands)|)
    {
      hide Run, Letters, OnlyReviewed, Touches, Reviewed, Classify, Recorded;
      ghost var from := |commands|;
      NoCommands(world, from);
      for n := 0 to |argvs|
        invariant StateOf(t) == old(StateOf(t)) && OnlyReviewed(commands, t) && old(commands) <= commands
        invariant commands == old(commands) + Recorded(world, argvs[..n], from)
        invariant AllExit(world, from, n)
      {
        assert Neutral(argvs[n], t);
        var reply := Execute(argvs[n], false, t);
        RecordedOne(world, argvs[..n], argvs[n], from);
        assert argvs[..n + 1] == argvs[..n] + [argvs[n]];
        if reply == None {
          assert !world.reply(from + n).Exited?;
          return false;
        }
      }
      assert argvs[..|argvs|] == argvs;
      return true;
    }

    /**
     * The part of `run_smoke` around one container: commands before, the life cycle, commands after. A
     * campaign gets through exactly when its commands do, for any number of failed polls; its log is then
     * determined, and accepted exactly when the Gate's logs, captured without checking, were captured.
     */
    method Campaign(t: Target, router: string, before: seq<Argv>, after: seq<Argv>, timeout: int, ghost late: nat)
      returns (ok: bool, logged: bool)
      requires commands == []
      requires Neutral(["docker", "logs", router], t)
      requires forall a <- before + after :: Neutral(a, t)
      requires forall k :: k >= late ==> world.clock(k) >= world.clock(ticks) + timeout
      modifies this`commands, this`ticks
      ensures ok <==> exists n: nat :: CampaignCompletes(world, t, |before|, |after|, old(ticks), timeout, n)
      ensures forall n: nat :: CampaignCompletes(world, t, |before|, |after|, old(ticks), timeout, n) ==>
                logged == LogsCaptured(world, |before|, n)
                && commands == Recorded(world, before + LifeArgvs(t, router, n) + after, 0)
      ensures ok ==> (Accepted(commands, t) <==> (t.gate ==> logged))
    {
      hide Run, Letters, OnlyReviewed, Touches, Reviewed, Classify, Neutral, Accepted, Recorded, LifeArgvs, Completes, AllExit;
      EmptyLog(t);
      ghost var tick := ticks;
      ok := ExecuteAll(before, t);
      if !ok {
        return false, false;
      }
      ghost var from, start := |commands|, ticks;
      assert from == |before| && start == tick;
      ok, logged := Lifecycle(t, router, timeout, late);
      assert ok <==> exists n: nat :: Completes(world, t, from, start, timeout, n);
      CampaignNeedsLife(world, t, |before|, |after|, tick, timeout);
      if !ok {
        return;
      }
      ghost var n: nat :| Completes(world, t, |before|, tick, timeout, n);
      LifeLength(t, router, n);
      CampaignOnce(world, t, |before|, |after|, tick, timeout, n);
      RecordedAppend(world, before, LifeArgvs(t, router, n), 0);
      RecordedAppend(world, before + LifeArgvs(t, router, n), after, 0);
      assert |commands| == |before| + 2 * n + if t.gate then 5 else 4;
      ok := ExecuteAll(after, t);
      assert ok <==> CampaignCompletes(world, t, |before|, |after|, tick, timeout, n);
      AcceptedIffShaped(commands, t);
    }
  }

  /** From the answering poll to the stop the automaton ends well exactly when the Gate's logs were captured. */
  lemma TailRuns(polled: seq<Record>, w: World, t: Target, router: string)
    requires polled != [] && Neutral(["docker", "logs", router], t) && TailOk(w, t, |polled|)
    requires Run(Letters(polled, t), t.gate) == if t.gate then Found(|polled| - 1) else Logged(|polled| - 1, |polled| - 1)
    ensures var s := Run(Letters(polled + TailRecords(w, t, router, |polled|), t), t.gate);
      s != MustRun && (s.Stopped? <==> (t.gate ==> CleanExit(w.reply(|polled|))))
  {
    hide Touches, OnlyReviewed, Reviewed, Run, Letters, Poll, Running, Export, Logs, Stop, Classify;
    CommandClasses(t);
    var n := |polled|;
    var logs := Record(Logs(t), ExitOf(w.reply(n)));
    var routerLogs := Record(["docker", "logs", router], ExitOf(w.reply(n + 1)));
    var captured := polled + [logs];
    OneMoreRecord(polled, logs, t);
    OneMoreRecord(captured, routerLogs, t);
    if t.gate {
      captured := captured + [routerLogs];
    }
    var archive := Record(Export(t), ExitOf(w.reply(|captured|)));
    OneMoreRecord(captured, archive, t);
    OneMoreRecord(captured + [archive], Record(Stop(t), ExitOf(w.reply(|captured| + 1))), t);
    assert polled + TailRecords(w, t, router, n) == captured + [archive] + [Record(Stop(t), ExitOf(w.reply(|captured| + 1)))];
  }

  datatype Turn = Status(number: nat) | Raised | Again

  lemma NoRounds(w: World, t: Target, from: nat, tick: nat, deadline: int)
    ensures RoundsOk(w, from, tick, deadline, 0)
    ensures RoundArgvs(t, 0) == [] && Recorded(w, [], from) == []
  {
  }

  lemma NoCommands(w: World, from: nat)
    ensures Recorded(w, [], from) == []
  {
  }

  lemma AnswerIsUnique(w: World, from: nat, tick: nat, timeout: int, r: nat)
    requires Answers(w, from, tick, timeout, r)
    ensures forall n: nat :: Answers(w, from, tick, timeout, n) ==> n == r
  {
    forall n: nat | Answers(w, from, tick, timeout, n)
      ensures n == r
    {
      AnswersOnce(w, from, tick, timeout, r, n);
    }
  }

  lemma CompletesOnce(w: World, t: Target, from: nat, tick: nat, timeout: int, r: nat)
    requires Answers(w, from, tick, timeout, r)
    ensures forall n: nat :: Completes(w, t, from, tick, timeout, n) ==> n == r
    ensures Completes(w, t, from, tick, timeout, r) <==>
            w.reply(from + 2 * r).number == Some(0) && TailOk(w, t, from + 2 * r + 1)
  {
    hide Answers, TailOk;
    AnswerIsUnique(w, from, tick, timeout, r);
  }

  lemma CompletesOnlyIfAnswered(w: World, t: Target, from: nat, tick: nat, timeout: int)
    ensures (forall n: nat :: !Answers(w, from, tick, timeout, n)) ==>
              forall n: nat :: !Completes(w, t, from, tick, timeout, n)
  {
  }

  lemma CampaignNeedsLife(w: World, t: Target, before: nat, after: nat, tick: nat, timeout: int)
    ensures (forall n: nat :: !Completes(w, t, before, tick, timeout, n)) ==>
              forall n: nat :: !CampaignCompletes(w, t, before, after, tick, timeout, n)
  {
  }

  lemma CampaignOnce(w: World, t: Target, before: nat, after: nat, tick: nat, timeout: int, r: nat)
    requires Completes(w, t, before, tick, timeout, r)
    ensures forall n: nat :: CampaignCompletes(w, t, before, after, tick, timeout, n) ==> n == r
  {
    assert Answers(w, before, tick, timeout, r);
    CompletesOnce(w, t, before, tick, timeout, r);
  }

  lemma LifeLength(t: Target, router: string, n: nat)
    ensures |LifeArgvs(t, router, n)| == 2 * n + if t.gate then 5 else 4
  {
  }

  lemma EmptyLog(t: Target)
    ensures Run(Letters([], t), t.gate) == Polling && OnlyReviewed([], t)
  {
  }

  /** The class of each command of the life cycle; all are reviewed. */
  lemma CommandClasses(t: Target)
    ensures Classify(Poll(t), t) == APoll && Classify(Running(t), t) == ARunning && Classify(Export(t), t) == AnExport
    ensures Classify(Stop(t), t) == AStop && Classify(Logs(t), t) == if t.gate then ALogs else Other
    ensures Reviewed(Poll(t), t) && Reviewed(Running(t), t) && Reviewed(Export(t), t) && Reviewed(Stop(t), t) && Reviewed(Logs(t), t)
  {
    ClassesDiffer(Poll(t), t);
    ClassesDiffer(Running(t), t);
    ClassesDiffer(Export(t), t);
    ClassesDiffer(Stop(t), t);
    ClassesDiffer(Logs(t), t);
    assert Logs(t)[1] == "logs" && |"logs"| == 4 && "logs"[0] == 'l' && Stop(t)[1] == "stop" && "stop"[0] == 's';
  }

  // ----- Any number of failed polls -----

  lemma {:induction false} RoundsKeepPolling(w: World, t: Target, tick: nat, deadline: int, n: nat)
    requires RoundsOk(w, 0, tick, deadline, n)
    ensures Run(Letters(Recorded(w, RoundArgvs(t, n), 0), t), t.gate) == Polling
    ensures OnlyReviewed(Recorded(w, RoundArgvs(t, n), 0), t)
  {
    hide Poll, Running, Export, Logs, Stop, Touches, Reviewed, Classify, OnlyReviewed, Run, Letters, Recorded;
    EmptyLog(t);
    NoRounds(w, t, 0, tick, deadline);
    if n > 0 {
      assert RoundOk(w, 0, tick, deadline, n - 1);
      RoundsKeepPolling(w, t, tick, deadline, n - 1);
      OneMoreRound(w, t, 0, tick, deadline, n - 1);
      CommandClasses(t);
      var before := Recorded(w, RoundArgvs(t, n - 1), 0);
      var poll := Record(Poll(t), ExitOf(w.reply(2 * (n - 1))));
      OneMoreRecord(before, poll, t);
      OneMoreRecord(before + [poll], Record(Running(t), ExitOf(w.reply(2 * (n - 1) + 1))), t);
    }
  }

  lemma TailIsReviewed(records: seq<Record>, w: World, t: Target, router: string, next: nat)
    requires OnlyReviewed(records, t) && Neutral(["docker", "logs", router], t)
    ensures OnlyReviewed(records + TailRecords(w, t, router, next), t)
  {
    hide Poll, Running, Export, Logs, Stop, Touches, Reviewed;
    CommandClasses(t);
  }

  /** A completed life cycle leaves an accepted log exactly when the Gate's logs were captured. */
  lemma CompletedLogAcceptedIff(w: World, t: Target, router: string, timeout: int, n: nat)
    requires Completes(w, t, 0, 0, timeout, n) && Neutral(["docker", "logs", router], t)
    ensures Accepted(Recorded(w, LifeArgvs(t, router, n), 0), t) <==> (t.gate ==> LogsCaptured(w, 0, n))
  {
    hide Poll, Running, Export, Logs, Stop, Touches, Reviewed, Classify, OnlyReviewed, Run, Letters, LetterOf, Recorded, LifeArgvs;
    hide Accepted, RoundsOk, TailOk, TailRecords, Neutral;
    RoundsKeepPolling(w, t, 0, w.clock(0) + timeout, n);
    LastPoll(w, t, 0, n);
    LifeRecorded(w, t, router, 0, n);
    var rounds := Recorded(w, RoundArgvs(t, n), 0);
    var polled := rounds + [Record(Poll(t), Some(0))];
    PollAnswers(rounds, t);
    TailIsReviewed(polled, w, t, router, 2 * n + 1);
    TailRuns(polled, w, t, router);
    AcceptedIffShaped(Recorded(w, LifeArgvs(t, router, n), 0), t);
  }

  lemma PollAnswers(rounds: seq<Record>, t: Target)
    requires Run(Letters(rounds, t), t.gate) == Polling && OnlyReviewed(rounds, t)
    ensures Run(Letters(rounds + [Record(Poll(t), Some(0))], t), t.gate) ==
            if t.gate then Found(|rounds|) else Logged(|rounds|, |rounds|)
    ensures OnlyReviewed(rounds + [Record(Poll(t), Some(0))], t)
  {
    hide Poll, Touches, Reviewed, Classify, OnlyReviewed, Run, Letters;
    CommandClasses(t);
    OneMoreRecord(rounds, Record(Poll(t), Some(0)), t);
  }

  /** A world whose marker appears after n failed polls and whose first command after that exits with this code. */
  function Obliging(from: nat, n: nat, timeout: int, logsCode: int): World {
    World((k: nat) =>
            if from <= k < from + 2 * n then (if (k - from) % 2 == 0 then Exited(1, None, false) else Exited(0, None, true))
            else if k == from + 2 * n + 1 then Exited(logsCode, None, false)
            else Exited(0, Some(0), false),
          (k: nat) => if k < 3 * n + 2 then 0 else timeout,
          true)
  }

  /** Such a campaign gets through, whatever surrounds it, and its clock runs out in the end as every clock does. */
  lemma ObligingCompletes(t: Target, before: nat, after: nat, n: nat, timeout: int, logsCode: int)
    requires timeout > 0
    ensures var w := Obliging(before, n, timeout, logsCode);
      && CampaignCompletes(w, t, before, after, 0, timeout, n)
      && (LogsCaptured(w, before, n) <==> logsCode == 0)
      && forall k :: k >= 3 * n + 2 ==> w.clock(k) >= w.clock(0) + timeout
  {
    var w := Obliging(before, n, timeout, logsCode);
    forall i: nat | i < n
      ensures RoundOk(w, before, 0, timeout, i)
    {
      assert (2 * i) % 2 == 0 && (2 * i + 1) % 2 == 1;
    }
  }

  /** For every number of failed polls some run completes after just that many, with an accepted log. */
  lemma PlainLogAccepted(t: Target, router: string, n: nat)
    requires Neutral(["docker", "logs", router], t)
    ensures var w := Obliging(0, n, 1, 0);
      Completes(w, t, 0, 0, 1, n) && Accepted(Recorded(w, LifeArgvs(t, router, n), 0), t)
  {
    hide Obliging, Completes, Accepted, Recorded, LifeArgvs, Neutral, LogsCaptured;
    ObligingCompletes(t, 0, 0, n, 1, 0);
    CompletedLogAcceptedIff(Obliging(0, n, 1, 0), t, router, 1, n);
  }

  /** And some Gate run completes although its log capture failed, with a log that is rejected. */
  lemma UncapturedLogRejected(t: Target, router: string, n: nat)
    requires t.gate && Neutral(["docker", "logs", router], t)
    ensures var w := Obliging(0, n, 1, 1);
      Completes(w, t, 0, 0, 1, n) && !Accepted(Recorded(w, LifeArgvs(t, router, n), 0), t)
  {
    hide Obliging, Completes, Accepted, Recorded, LifeArgvs, Neutral, LogsCaptured;
    ObligingCompletes(t, 0, 0, n, 1, 1);
    CompletedLogAcceptedIff(Obliging(0, n, 1, 1), t, router, 1, n);
  }

  /** The commands of a life cycle with one failed poll, written out. */
  lemma LifeWrittenOut(t: Target, router: string)
    ensures LifeArgvs(t, router, 1) ==
            [["docker", "exec", t.container, "cat", t.markerPath],
             ["docker", "inspect", "--format", "{{.State.Running}}", t.container],
             ["docker", "exec", t.container, "cat", t.markerPath],
             ["docker", "logs", t.container]]
            + (if t.gate then [["docker", "logs", router]] else [])
            + [["docker", "exec", t.container, "tar", "-C", t.source, "-cf", "-"] + t.exported,
               ["docker", "stop", "--time", "1", t.container]]
  {
    assert RoundArgvs(t, 1) == RoundArgvs(t, 0) + [Poll(t)] + [Running(t)] == [Poll(t), Running(t)];
    assert LifeArgvs(t, router, 1) == [Poll(t), Running(t), Poll(t), Logs(t)] + RouterArgvs(t, router) + [Export(t), Stop(t)];
  }
}
