/**
 * The commands a live smoke campaign issues around one container and the log checker that decides by index
 * arithmetic whether they have the reviewed shape (tools/live_gate_dev_smoke.py,
 * tools/verify-live-gate-dev-smoke.py).
 */
module PollTrace {
  import opened Bytes

  type Argv = seq<string>

  /** A logged command; a command that timed out has no exit code. */
  datatype Record = Record(argv: Argv, exit: Option<int>)

  /** The provisioner or the Gate: its container, its exit marker and what is exported from it. */
  datatype Target = Target(container: string, markerPath: string, source: string, exported: seq<string>, gate: bool)

  function Poll(t: Target): Argv { ["docker", "exec", t.container, "cat", t.markerPath] }

  function Running(t: Target): Argv { ["docker", "inspect", "--format", "{{.State.Running}}", t.container] }

  function Export(t: Target): Argv { ["docker", "exec", t.container, "tar", "-C", t.source, "-cf", "-"] + t.exported }

  function Logs(t: Target): Argv { ["docker", "logs", t.container] }

  function Stop(t: Target): Argv { ["docker", "stop", "--time", "1", t.container] }

  function Inspect(t: Target): Argv { ["docker", "container", "inspect", t.container] }

  function Remove(t: Target): Argv { ["docker", "rm", "--force", t.container] }

  predicate Succeeded(r: Record) { r.exit == Some(0) }

  // ----- The checker -----

  /** The indices of the records that satisfy p, in order: a comprehension over `enumerate(records)`. */
  function Where(records: seq<Record>, p: Record -> bool): (at: seq<nat>)
    ensures forall i :: i in at <==> 0 <= i < |records| && p(records[i])
    ensures Ascending(at)
  {
    if records == [] then [] else
      var last := |records| - 1;
      var before := Where(records[..last], p);
      assert forall i <- before :: i < last && p(records[i]);
      assert forall i :: 0 <= i < last && p(records[i]) ==> p(records[..last][i]) && i in before;
      assert forall a :: 0 <= a < |before| ==> before[a] in before;
      before + if p(records[last]) then [last] else []
  }

  predicate Ascending(at: seq<nat>) {
    forall a, b :: 0 <= a < b < |at| ==> at[a] < at[b]
  }

  function Indices(records: seq<Record>, argv: Argv): (at: seq<nat>)
    ensures forall i :: i in at <==> 0 <= i < |records| && records[i].argv == argv
    ensures Ascending(at)
  {
    Where(records, (r: Record) => r.argv == argv)
  }

  function Successful(records: seq<Record>, argv: Argv): (at: seq<nat>)
    ensures forall i :: i in at <==> 0 <= i < |records| && records[i].argv == argv && Succeeded(records[i])
    ensures Ascending(at)
  {
    Where(records, (r: Record) => r.argv == argv && Succeeded(r))
  }

  predicate OkAt(records: seq<Record>, i: nat) { i < |records| && Succeeded(records[i]) }

  /** `at[:-1]`. */
  function Front(at: seq<nat>): (front: seq<nat>)
    requires at != []
    ensures |front| == |at| - 1
  {
    at[..|at| - 1]
  }

  function NextOf(at: seq<nat>): (next: seq<nat>)
    ensures |next| == |at| && forall i :: 0 <= i < |at| ==> next[i] == at[i] + 1
  {
    seq(|at|, i requires 0 <= i < |at| => at[i] + 1)
  }

  predicate StartsWith(s: string, p: string) { |p| <= |s| && s[..|p|] == p }

  /** Some argument is the container or a path inside it. */
  predicate Touches(argv: Argv, t: Target) {
    exists i :: 0 <= i < |argv| && (argv[i] == t.container || StartsWith(argv[i], t.container + ":"))
  }

  /** `docker run` with exactly one `--name`, followed by the container. */
  predicate IsRun(argv: Argv, t: Target) {
    && |argv| >= 2 && argv[..2] == ["docker", "run"]
    && exists i :: 0 <= i < |argv| && OnlyNameAt(argv, i) && IsContainer(argv, i + 1, t)
  }

  predicate OnlyNameAt(argv: Argv, i: nat) {
    forall j :: 0 <= j < |argv| ==> (argv[j] == "--name" <==> j == i)
  }

  predicate IsContainer(argv: Argv, i: nat, t: Target) { i < |argv| && argv[i] == t.container }

  predicate Reviewed(argv: Argv, t: Target) {
    IsRun(argv, t) || argv in {Poll(t), Running(t), Export(t), Logs(t), Stop(t), Inspect(t), Remove(t)}
  }

  predicate OnlyReviewed(records: seq<Record>, t: Target) {
    forall i :: 0 <= i < |records| ==> Touches(records[i].argv, t) ==> Reviewed(records[i].argv, t)
  }

  /** The polling part of the check: one success, last; every failure paired with a running check right after. */
  predicate PollsOk(records: seq<Record>, t: Target) {
    var markers := Indices(records, Poll(t));
    var running := Indices(records, Running(t));
    && |Successful(records, Poll(t))| == 1
    && markers != []
    && markers[|markers| - 1] == Successful(records, Poll(t))[0]
    && running == NextOf(Front(markers))
    && forall i <- running :: OkAt(records, i)
  }

  predicate OrderOk(records: seq<Record>, t: Target)
    requires PollsOk(records, t)
  {
    var success := Successful(records, Poll(t))[0];
    var exports, stops, logs := Indices(records, Export(t)), Indices(records, Stop(t)), Indices(records, Logs(t));
    && |exports| == 1 && |stops| == 1
    && success < exports[0] < stops[0]
    && (t.gate ==> |logs| == 1 && OkAt(records, logs[0]) && success < logs[0] < exports[0])
  }

  /** `verify_provision_export_commands` and `verify_gate_export_commands`. */
  predicate Accepted(records: seq<Record>, t: Target) {
    PollsOk(records, t) && OrderOk(records, t) && OnlyReviewed(records, t)
  }

  // ----- The shape as an automaton that reads the log once -----

  datatype Class = APoll | ARunning | AnExport | ALogs | AStop | Other

  /** What a record is to the automaton: its class and whether it succeeded. */
  datatype Letter = Letter(cls: Class, ok: bool)

  /** Each state remembers where the milestones were; the provisioner has no log milestone. */
  datatype State =
    | Polling
    | MustRun
    | Found(success: nat)
    | Logged(success: nat, logs: nat)
    | Exported(success: nat, logs: nat, archive: nat)
    | Stopped(success: nat, logs: nat, archive: nat, stop: nat)
    | Bad

  /** Only the Gate's log capture is a milestone; the provisioner's may happen at any time. */
  function Classify(argv: Argv, t: Target): Class {
    if argv == Poll(t) then APoll
    else if argv == Running(t) then ARunning
    else if argv == Export(t) then AnExport
    else if argv == Logs(t) && t.gate then ALogs
    else if argv == Stop(t) then AStop
    else Other
  }

  function LetterOf(r: Record, t: Target): Letter { Letter(Classify(r.argv, t), Succeeded(r)) }

  function Letters(records: seq<Record>, t: Target): (ls: seq<Letter>)
    ensures |ls| == |records|
  {
    seq(|records|, i requires 0 <= i < |records| => LetterOf(records[i], t))
  }

  function Step(s: State, i: nat, l: Letter, gate: bool): State {
    match s
    case Polling =>
      if l.cls == Other then Polling
      else if l.cls != APoll then Bad
      else if !l.ok then MustRun
      else if gate then Found(i) else Logged(i, i)
    case MustRun => if l == Letter(ARunning, true) then Polling else Bad
    case Found(success) =>
      if l.cls == Other then s else if l == Letter(ALogs, true) then Logged(success, i) else Bad
    case Logged(success, logs) =>
      if l.cls == Other then s else if l.cls == AnExport then Exported(success, logs, i) else Bad
    case Exported(success, logs, archive) =>
      if l.cls == Other then s else if l.cls == AStop then Stopped(success, logs, archive, i) else Bad
    case Stopped(_, _, _, _) => if l.cls == Other then s else Bad
    case Bad => Bad
  }

  /** The state after the whole word. */
  function Run(ls: seq<Letter>, gate: bool): State {
    if ls == [] then Polling else Step(Run(ls[..|ls| - 1], gate), |ls| - 1, ls[|ls| - 1], gate)
  }

  /** The log has the reviewed life cycle and nothing else touches the container. */
  predicate Shaped(records: seq<Record>, t: Target) {
    Run(Letters(records, t), t.gate).Stopped? && OnlyReviewed(records, t)
  }

  // ----- Automaton and milestones -----

  /** What a finished word looks like position by position. */
  predicate Milestones(ls: seq<Letter>, gate: bool, success: nat, logs: nat, archive: nat, stop: nat) {
    && success < archive < stop < |ls|
    && (if gate then success < logs < archive && ls[logs].ok else logs == success)
    && ls[success].cls == APoll
    && (forall i :: 0 <= i < |ls| ==> PlaceOk(ls, i, gate, success, logs, archive, stop))
  }

  predicate PlaceOk(ls: seq<Letter>, i: nat, gate: bool, success: nat, logs: nat, archive: nat, stop: nat)
    requires i < |ls|
  {
    && (ls[i].cls == APoll ==> i <= success && (ls[i].ok <==> i == success))
    && (ls[i].cls == APoll && i < success ==> i + 1 < |ls| && ls[i + 1].cls == ARunning)
    && (ls[i].cls == ARunning ==> ls[i].ok && 0 < i <= success && ls[i - 1].cls == APoll)
    && (ls[i].cls == ALogs <==> gate && i == logs)
    && (ls[i].cls == AnExport <==> i == archive)
    && (ls[i].cls == AStop <==> i == stop)
  }

  /** The state a finished word must be in after n letters. */
  function Expected(ls: seq<Letter>, n: nat, gate: bool, success: nat, logs: nat, archive: nat, stop: nat): State
    requires n <= |ls|
  {
    if n <= success then (if n > 0 && ls[n - 1].cls == APoll then MustRun else Polling)
    else if gate && n <= logs then Found(success)
    else if n <= archive then Logged(success, logs)
    else if n <= stop then Exported(success, logs, archive)
    else Stopped(success, logs, archive, stop)
  }

  lemma {:induction false} MilestonesRun(ls: seq<Letter>, n: nat, gate: bool, success: nat, logs: nat, archive: nat, stop: nat)
    requires n <= |ls| && Milestones(ls, gate, success, logs, archive, stop)
    ensures Run(ls[..n], gate) == Expected(ls, n, gate, success, logs, archive, stop)
  {
    if n > 0 {
      MilestonesRun(ls, n - 1, gate, success, logs, archive, stop);
      assert ls[..n][..n - 1] == ls[..n - 1];
      assert PlaceOk(ls, n - 1, gate, success, logs, archive, stop);
      if n > 1 {
        assert PlaceOk(ls, n - 2, gate, success, logs, archive, stop);
      }
    }
  }

  function SuccessIn(s: State): int {
    if s.Found? || s.Logged? || s.Exported? || s.Stopped? then s.success else -1
  }

  function LogsIn(s: State): int {
    if s.Logged? || s.Exported? || s.Stopped? then s.logs else -1
  }

  function ArchiveIn(s: State): int {
    if s.Exported? || s.Stopped? then s.archive else -1
  }

  function StopIn(s: State): int {
    if s.Stopped? then s.stop else -1
  }

  /** What a live state says about position i of the word read so far. */
  predicate Remembers(ls: seq<Letter>, i: nat, gate: bool, s: State)
    requires i < |ls|
  {
    && (ls[i].cls == APoll ==> (ls[i].ok <==> i == SuccessIn(s)) && (SuccessIn(s) >= 0 ==> i <= SuccessIn(s)))
    && (ls[i] == Letter(APoll, false) ==> if i + 1 < |ls| then ls[i + 1].cls == ARunning else s == MustRun)
    && (ls[i].cls == ARunning ==> ls[i].ok && 0 < i && ls[i - 1] == Letter(APoll, false))
    && (ls[i].cls == ALogs <==> gate && i == LogsIn(s))
    && (ls[i].cls == AnExport <==> i == ArchiveIn(s))
    && (ls[i].cls == AStop <==> i == StopIn(s))
  }

  /** Its milestones are in the word and in order. */
  predicate InOrder(ls: seq<Letter>, gate: bool, s: State) {
    && SuccessIn(s) < |ls| && LogsIn(s) < |ls| && ArchiveIn(s) < |ls| && StopIn(s) < |ls|
    && (SuccessIn(s) >= 0 ==> ls[SuccessIn(s)] == Letter(APoll, true))
    && (s.Found? ==> gate)
    && (LogsIn(s) >= 0 ==> if gate then SuccessIn(s) < LogsIn(s) && ls[LogsIn(s)].ok else LogsIn(s) == SuccessIn(s))
    && (ArchiveIn(s) >= 0 ==> LogsIn(s) < ArchiveIn(s))
    && (StopIn(s) >= 0 ==> ArchiveIn(s) < StopIn(s))
    && (s == MustRun ==> ls != [] && ls[|ls| - 1] == Letter(APoll, false))
  }

  /** One more letter: what the state knew about the word before still holds, and it knows the new letter. */
  lemma RemembersOneMore(ls: seq<Letter>, n: nat, i: nat, gate: bool, s: State, s': State)
    requires i <= n < |ls| == n + 1
    requires s' == Step(s, n, ls[n], gate) && s' != Bad && (gate || ls[n].cls != ALogs)
    requires InOrder(ls[..n], gate, s)
    requires i < n ==> Remembers(ls[..n], i, gate, s)
    ensures Remembers(ls, i, gate, s')
  {
    assert i + 1 < n ==> ls[..n][i + 1] == ls[i + 1];
    assert n > 0 ==> ls[..n][n - 1] == ls[n - 1];
  }

  lemma InOrderOneMore(ls: seq<Letter>, n: nat, gate: bool, s: State, s': State)
    requires n < |ls| == n + 1
    requires s' == Step(s, n, ls[n], gate) && s' != Bad
    requires InOrder(ls[..n], gate, s)
    ensures InOrder(ls, gate, s')
  {
  }

  lemma {:induction false} RunRemembers(ls: seq<Letter>, gate: bool)
    requires Run(ls, gate) != Bad
    requires gate || forall i :: 0 <= i < |ls| ==> ls[i].cls != ALogs
    ensures InOrder(ls, gate, Run(ls, gate))
    ensures forall i :: 0 <= i < |ls| ==> Remembers(ls, i, gate, Run(ls, gate))
  {
    hide Remembers, InOrder, Step;
    NothingYet(gate);
    if ls != [] {
      var n := |ls| - 1;
      BadStays(ls, gate);
      RunRemembers(ls[..n], gate);
      InOrderOneMore(ls, n, gate, Run(ls[..n], gate), Run(ls, gate));
      forall i: nat | i < |ls|
        ensures Remembers(ls, i, gate, Run(ls, gate))
      {
        RemembersOneMore(ls, n, i, gate, Run(ls[..n], gate), Run(ls, gate));
      }
    }
  }

  lemma NothingYet(gate: bool)
    ensures InOrder([], gate, Polling)
  {
  }

  lemma BadStays(ls: seq<Letter>, gate: bool)
    requires ls != [] && Run(ls, gate) != Bad
    ensures Run(ls[..|ls| - 1], gate) != Bad
  {
  }

  /** The automaton stops exactly on the words with these milestones. */
  lemma StoppedIffMilestones(ls: seq<Letter>, gate: bool, success: nat, logs: nat, archive: nat, stop: nat)
    requires gate || forall i :: 0 <= i < |ls| ==> ls[i].cls != ALogs
    ensures Run(ls, gate) == Stopped(success, logs, archive, stop) <==> Milestones(ls, gate, success, logs, archive, stop)
  {
    assert ls[..|ls|] == ls;
    if Milestones(ls, gate, success, logs, archive, stop) {
      MilestonesRun(ls, |ls|, gate, success, logs, archive, stop);
    }
    var s := Run(ls, gate);
    if s == Stopped(success, logs, archive, stop) {
      RunRemembers(ls, gate);
      forall i: nat | i < |ls|
        ensures PlaceOk(ls, i, gate, success, logs, archive, stop)
      {
        assert Remembers(ls, i, gate, s);
        if i > 0 {
          assert Remembers(ls, i - 1, gate, s);
        }
      }
    }
  }

  // ----- Index lists and milestones -----

  lemma LastIsGreatest(at: seq<nat>)
    requires at != [] && Ascending(at)
    ensures at[|at| - 1] in at && Ascending(Front(at))
    ensures forall z :: z in at ==> z <= at[|at| - 1]
    ensures forall z :: z in Front(at) <==> z in at && z != at[|at| - 1]
  {
    assert at == Front(at) + [at[|at| - 1]];
  }

  lemma {:induction false} AscendingEqual(a: seq<nat>, b: seq<nat>)
    requires Ascending(a) && Ascending(b)
    requires forall x :: x in a <==> x in b
    ensures a == b
    decreases |a|
  {
    hide Ascending, Front;
    assert b != [] ==> b[0] in b;
    if a != [] {
      assert a[0] in b;
      LastIsGreatest(a);
      LastIsGreatest(b);
      assert a[|a| - 1] in b && b[|b| - 1] in a && a[|a| - 1] == b[|b| - 1];
      AscendingEqual(Front(a), Front(b));
      FrontAndLast(a);
      FrontAndLast(b);
    }
  }

  lemma FrontAndLast(at: seq<nat>)
    requires at != []
    ensures at == Front(at) + [at[|at| - 1]]
  {
  }

  /** The milestone commands are different commands. */
  lemma ClassesDiffer(argv: Argv, t: Target)
    ensures Classify(argv, t) == APoll <==> argv == Poll(t)
    ensures Classify(argv, t) == ARunning <==> argv == Running(t)
    ensures Classify(argv, t) == AnExport <==> argv == Export(t)
    ensures Classify(argv, t) == AStop <==> argv == Stop(t)
    ensures Classify(argv, t) == ALogs <==> t.gate && argv == Logs(t)
  {
    assert Poll(t)[1] == "exec" && Poll(t)[3] == "cat" && Running(t)[1] == "inspect" && Stop(t)[1] == "stop";
    assert Export(t)[1] == "exec" && Export(t)[3] == "tar" && Logs(t)[1] == "logs";
    assert |"exec"| == 4 && |"inspect"| == 7 && "cat"[0] == 'c' && "tar"[0] == 't' && "stop"[0] == 's' && "logs"[0] == 'l';
  }

  lemma LettersAre(records: seq<Record>, t: Target, i: nat)
    requires i < |records|
    ensures var l := Letters(records, t)[i];
      && l.ok == Succeeded(records[i])
      && (l.cls == APoll <==> i in Indices(records, Poll(t)))
      && (l.cls == ARunning <==> i in Indices(records, Running(t)))
      && (l.cls == AnExport <==> i in Indices(records, Export(t)))
      && (l.cls == AStop <==> i in Indices(records, Stop(t)))
      && (l.cls == ALogs <==> t.gate && i in Indices(records, Logs(t)))
  {
    hide Indices, Poll, Running, Export, Stop, Logs, Classify;
    ClassesDiffer(records[i].argv, t);
  }

  /** An ascending list whose only element is x holds it once. */
  lemma OnlyElement(at: seq<nat>, x: nat)
    requires Ascending(at) && forall i :: i in at <==> i == x
    ensures at == [x]
  {
    assert x in at && forall k :: 0 <= k < |at| ==> at[k] in at;
    FirstTwoDiffer(at);
  }

  lemma FirstTwoDiffer(at: seq<nat>)
    requires Ascending(at)
    ensures |at| > 1 ==> at[0] != at[1]
  {
  }

  /** The checker's index comparisons say the same as the milestones. */
  lemma ChecksAreMilestones(records: seq<Record>, t: Target, success: nat, logs: nat, archive: nat, stop: nat)
    requires PollsOk(records, t) && OrderOk(records, t)
    requires Successful(records, Poll(t)) == [success] && Indices(records, Export(t)) == [archive]
    requires Indices(records, Stop(t)) == [stop] && (if t.gate then Indices(records, Logs(t)) == [logs] else logs == success)
    ensures Milestones(Letters(records, t), t.gate, success, logs, archive, stop)
  {
    hide Indices, Successful, Poll, Running, Export, Stop, Logs, Letters, LetterOf;
    var ls, markers, running := Letters(records, t), Indices(records, Poll(t)), Indices(records, Running(t));
    assert success in Successful(records, Poll(t)) && archive in Indices(records, Export(t)) && stop in Indices(records, Stop(t));
    assert t.gate ==> logs in Indices(records, Logs(t));
    LastIsGreatest(markers);
    LettersAre(records, t, success);
    forall i: nat | i < |ls|
      ensures PlaceOk(ls, i, t.gate, success, logs, archive, stop)
    {
      LettersAre(records, t, i);
      PairedAfter(records, t, i);
      PairedBefore(records, t, i);
    }
    if t.gate {
      LettersAre(records, t, logs);
    }
  }

  lemma PairedAfter(records: seq<Record>, t: Target, i: nat)
    requires PollsOk(records, t) && i < |records|
    ensures i in Indices(records, Poll(t)) && i != Successful(records, Poll(t))[0] ==> i + 1 in Indices(records, Running(t))
    ensures i in Indices(records, Poll(t)) && i != Successful(records, Poll(t))[0] ==>
              i + 1 < |records| && Letters(records, t)[i + 1].cls == ARunning
  {
    hide Indices, Successful, Poll, Running, Letters;
    var markers, running := Indices(records, Poll(t)), Indices(records, Running(t));
    if i in markers && i != markers[|markers| - 1] {
      var a :| 0 <= a < |markers| && markers[a] == i;
      assert running[a] == i + 1;
      assert i + 1 in running;
      LettersAre(records, t, i + 1);
    }
  }

  lemma PairedBefore(records: seq<Record>, t: Target, i: nat)
    requires PollsOk(records, t) && i < |records|
    ensures i in Indices(records, Running(t)) ==>
              0 < i <= Successful(records, Poll(t))[0] && Letters(records, t)[i - 1].cls == APoll
  {
    hide Indices, Successful, Poll, Running, Letters;
    var markers, running := Indices(records, Poll(t)), Indices(records, Running(t));
    if i in running {
      var a :| 0 <= a < |running| && running[a] == i;
      assert markers[a] == i - 1 && markers[a] in markers && markers[a] < markers[|markers| - 1];
      LettersAre(records, t, i - 1);
    }
  }

  lemma PlacesInLists(records: seq<Record>, t: Target, i: nat, success: nat, logs: nat, archive: nat, stop: nat)
    requires Milestones(Letters(records, t), t.gate, success, logs, archive, stop) && i < |records|
    ensures i in Successful(records, Poll(t)) <==> i == success
    ensures i in Indices(records, Export(t)) <==> i == archive
    ensures i in Indices(records, Stop(t)) <==> i == stop
    ensures t.gate ==> (i in Indices(records, Logs(t)) <==> i == logs)
    ensures i in Indices(records, Poll(t)) ==> i <= success
    ensures i in Indices(records, Poll(t)) && i < success ==> i + 1 in Indices(records, Running(t))
    ensures i in Indices(records, Running(t)) ==>
              Succeeded(records[i]) && 0 < i <= success && i - 1 in Indices(records, Poll(t))
  {
    hide Indices, Successful, Poll, Running, Export, Stop, Logs, Letters, Classify, Succeeded;
    assert PlaceOk(Letters(records, t), i, t.gate, success, logs, archive, stop);
    LettersAre(records, t, i);
    LettersAre(records, t, success);
    assert i in Successful(records, Poll(t)) <==> i in Indices(records, Poll(t)) && Succeeded(records[i]);
    if i + 1 < |records| {
      LettersAre(records, t, i + 1);
    }
    if i > 0 {
      LettersAre(records, t, i - 1);
    }
  }

  lemma MilestonesAreLists(records: seq<Record>, t: Target, success: nat, logs: nat, archive: nat, stop: nat)
    requires Milestones(Letters(records, t), t.gate, success, logs, archive, stop)
    ensures Successful(records, Poll(t)) == [success] && Indices(records, Export(t)) == [archive]
    ensures Indices(records, Stop(t)) == [stop] && (t.gate ==> Indices(records, Logs(t)) == [logs])
  {
    hide Indices, Successful, Poll, Running, Export, Stop, Logs, Letters, Ascending;
    forall i: nat | i < |records|
      ensures i in Successful(records, Poll(t)) <==> i == success
      ensures i in Indices(records, Export(t)) <==> i == archive
      ensures i in Indices(records, Stop(t)) <==> i == stop
      ensures t.gate ==> (i in Indices(records, Logs(t)) <==> i == logs)
    {
      PlacesInLists(records, t, i, success, logs, archive, stop);
    }
    OnlyElement(Successful(records, Poll(t)), success);
    OnlyElement(Indices(records, Export(t)), archive);
    OnlyElement(Indices(records, Stop(t)), stop);
    if t.gate {
      OnlyElement(Indices(records, Logs(t)), logs);
    }
  }

  /** Failed polls moved on by one are the running checks. */
  lemma FailuresArePaired(records: seq<Record>, t: Target, success: nat, logs: nat, archive: nat, stop: nat)
    requires Milestones(Letters(records, t), t.gate, success, logs, archive, stop)
    ensures var markers := Indices(records, Poll(t));
      markers != [] && markers[|markers| - 1] == success
      && Indices(records, Running(t)) == NextOf(Front(markers))
  {
    hide Indices, Successful, Poll, Running, Export, Stop, Logs, Letters, Milestones, Ascending, NextOf;
    var markers, running := Indices(records, Poll(t)), Indices(records, Running(t));
    MilestonesAreLists(records, t, success, logs, archive, stop);
    assert success in Successful(records, Poll(t));
    forall i | i in markers
      ensures i <= success
    {
      PlacesInLists(records, t, i, success, logs, archive, stop);
    }
    LastIsGreatest(markers);
    var failed := Front(markers);
    forall x: nat
      ensures x in NextOf(failed) <==> x in running
    {
      NextHolds(failed, x);
      if x in running {
        PlacesInLists(records, t, x, success, logs, archive, stop);
      }
      if x > 0 && x - 1 in failed {
        PlacesInLists(records, t, x - 1, success, logs, archive, stop);
      }
    }
    NextAscends(failed);
    AscendingEqual(NextOf(failed), running);
  }

  lemma NextHolds(at: seq<nat>, x: nat)
    ensures x in NextOf(at) <==> x > 0 && x - 1 in at
  {
    if x > 0 && x - 1 in at {
      var a :| 0 <= a < |at| && at[a] == x - 1;
      assert NextOf(at)[a] == x;
    }
  }

  lemma NextAscends(at: seq<nat>)
    requires Ascending(at)
    ensures Ascending(NextOf(at))
  {
  }

  lemma MilestonesAreChecks(records: seq<Record>, t: Target, success: nat, logs: nat, archive: nat, stop: nat)
    requires Milestones(Letters(records, t), t.gate, success, logs, archive, stop)
    ensures PollsOk(records, t) && OrderOk(records, t)
  {
    hide Indices, Successful, Poll, Running, Export, Stop, Logs, Letters, NextOf;
    MilestonesAreLists(records, t, success, logs, archive, stop);
    FailuresArePaired(records, t, success, logs, archive, stop);
    forall i | i in Indices(records, Running(t))
      ensures OkAt(records, i)
    {
      PlacesInLists(records, t, i, success, logs, archive, stop);
    }
    if t.gate {
      LettersAre(records, t, logs);
    }
  }

  /** The checker accepts exactly the logs that run the automaton to its end and touch the container in no other way. */
  lemma AcceptedIffShaped(records: seq<Record>, t: Target)
    ensures Accepted(records, t) <==> Shaped(records, t)
  {
    hide Run, Milestones, OnlyReviewed;
    var ls := Letters(records, t);
    assert t.gate || forall i :: 0 <= i < |ls| ==> ls[i].cls != ALogs;
    if Accepted(records, t) {
      var success, archive := Successful(records, Poll(t))[0], Indices(records, Export(t))[0];
      var logs := if t.gate then Indices(records, Logs(t))[0] else success;
      var stop := Indices(records, Stop(t))[0];
      ChecksAreMilestones(records, t, success, logs, archive, stop);
      StoppedIffMilestones(ls, t.gate, success, logs, archive, stop);
    }
    if Shaped(records, t) {
      var s := Run(ls, t.gate);
      StoppedIffMilestones(ls, t.gate, s.success, s.logs, s.archive, s.stop);
      MilestonesAreChecks(records, t, s.success, s.logs, s.archive, s.stop);
    }
  }

  // ----- The reviewed commands, written out -----

  /** The argument is the container's name or a path in it. */
  ghost predicate Names(arg: string, t: Target) {
    arg == t.container || exists rest: string :: arg == t.container + ":" + rest
  }

  /** A `docker run` that names the container, by its only `--name`. */
  ghost predicate StartsContainer(argv: Argv, t: Target) {
    && |argv| >= 2 && argv[0] == "docker" && argv[1] == "run"
    && exists before: Argv, after: Argv ::
         argv == before + ["--name", t.container] + after && "--name" !in before && "--name" !in [t.container] + after
  }

  /**
   * The log touches the container in no other way than the reviewed one: whatever command has the container or
   * a path in it among its arguments starts it, or is one of seven commands.
   */
  lemma OnlyReviewedIff(records: seq<Record>, t: Target)
    ensures OnlyReviewed(records, t) <==> forall r <- records :: (exists arg <- r.argv :: Names(arg, t)) ==>
              || StartsContainer(r.argv, t)
              || r.argv == ["docker", "exec", t.container, "cat", t.markerPath]
              || r.argv == ["docker", "inspect", "--format", "{{.State.Running}}", t.container]
              || r.argv == ["docker", "exec", t.container, "tar", "-C", t.source, "-cf", "-"] + t.exported
              || r.argv == ["docker", "logs", t.container]
              || r.argv == ["docker", "stop", "--time", "1", t.container]
              || r.argv == ["docker", "container", "inspect", t.container]
              || r.argv == ["docker", "rm", "--force", t.container]
  {
    hide Touches, IsRun, Names, StartsContainer;
    forall r: Record
      ensures Touches(r.argv, t) <==> exists arg <- r.argv :: Names(arg, t)
      ensures IsRun(r.argv, t) <==> StartsContainer(r.argv, t)
    {
      TouchesIff(r.argv, t);
      IsRunIff(r.argv, t);
    }
    assert OnlyReviewed(records, t) <==> forall r <- records :: Touches(r.argv, t) ==> Reviewed(r.argv, t);
  }

  lemma TouchesIff(argv: Argv, t: Target)
    ensures Touches(argv, t) <==> exists arg <- argv :: Names(arg, t)
  {
    forall arg ensures Names(arg, t) <==> arg == t.container || StartsWith(arg, t.container + ":") {
      PrefixIff(arg, t.container + ":");
    }
    if Touches(argv, t) {
      var i :| 0 <= i < |argv| && (argv[i] == t.container || StartsWith(argv[i], t.container + ":"));
      assert argv[i] in argv && Names(argv[i], t);
    }
    if arg :| arg in argv && Names(arg, t) {
      var i :| 0 <= i < |argv| && argv[i] == arg;
    }
  }

  lemma PrefixIff(s: string, p: string)
    ensures StartsWith(s, p) <==> exists rest: string :: s == p + rest
  {
    if StartsWith(s, p) {
      assert s == p + s[|p|..];
    }
  }

  lemma IsRunIff(argv: Argv, t: Target)
    ensures IsRun(argv, t) <==> StartsContainer(argv, t)
  {
    hide IsRun, StartsContainer;
    if IsRun(argv, t) {
      RunStarts(argv, t);
    }
    if StartsContainer(argv, t) {
      StartIsRun(argv, t);
    }
  }

  lemma RunStarts(argv: Argv, t: Target)
    requires IsRun(argv, t)
    ensures StartsContainer(argv, t)
  {
    var i :| 0 <= i < |argv| && OnlyNameAt(argv, i) && IsContainer(argv, i + 1, t);
    assert argv[..2][0] == "docker" && argv[..2][1] == "run";
    var before, after := argv[..i], argv[i + 2..];
    assert argv == before + ["--name", t.container] + after;
    assert [t.container] + after == argv[i + 1..];
    assert "--name" !in before && "--name" !in [t.container] + after;
  }

  lemma StartIsRun(argv: Argv, t: Target)
    requires StartsContainer(argv, t)
    ensures IsRun(argv, t)
  {
    var before: Argv, after: Argv :|
      argv == before + ["--name", t.container] + after && "--name" !in before && "--name" !in [t.container] + after;
    var i := |before|;
    assert argv[..2] == ["docker", "run"];
    assert argv[i] == "--name" && argv[i + 1] == t.container;
    forall j | 0 <= j < |argv| ensures argv[j] == "--name" <==> j == i {
      assert j < i ==> argv[j] == before[j];
      assert j > i ==> argv[j] == ([t.container] + after)[j - i - 1];
    }
    assert OnlyNameAt(argv, i) && IsContainer(argv, i + 1, t);
  }
}
