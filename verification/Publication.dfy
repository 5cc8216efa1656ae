/**
 * Crash-consistent publication of a TLC log and the runtime record that vouches for it
 * (tools/run_formal.py), over any number of runs contending for the run lock.
 */
module Publication {
  import opened Bytes

  type Name = nat
  type RunId = nat
  type Hash = seq<Byte> -> nat

  /** The `tlc` part of formal-runtime.json: which log, how long, which digest. */
  datatype Record = Record(log: Name, size: nat, digest: nat)

  datatype Store = Store(logs: map<Name, seq<Byte>>, record: Option<Record>)

  /** What a run does to the published names; each is one unlink or one rename. */
  datatype Effect =
    | Invalidate
    | ReplaceLog(log: Name, payload: seq<Byte>)
    | PublishRecord(record: Record)

  function ApplyEffect(s: Store, e: Effect): Store {
    match e
    case Invalidate => s.(record := None)
    case ReplaceLog(log, payload) => s.(logs := s.logs[log := payload])
    case PublishRecord(r) => s.(record := Some(r))
  }

  function ApplyAll(s: Store, es: seq<Effect>): Store {
    if es == [] then s else ApplyEffect(ApplyAll(s, es[..|es| - 1]), es[|es| - 1])
  }

  function RecordOf(hash: Hash, log: Name, payload: seq<Byte>): Record {
    Record(log, |payload|, hash(payload))
  }

  /** Whenever a record exists, the log it names exists with exactly that size and digest. */
  predicate Consistent(hash: Hash, s: Store) {
    s.record.Some? ==>
      var r := s.record.value;
      r.log in s.logs && r == RecordOf(hash, r.log, s.logs[r.log])
  }

  /** In full: no record, or the log it names is there, as long as it says and with the digest it says. */
  lemma ConsistentMeans(hash: Hash, s: Store)
    ensures Consistent(hash, s) <==> s.record == None || exists log <- s.logs ::
              s.record == Some(Record(log, |s.logs[log]|, hash(s.logs[log])))
  {
    if Consistent(hash, s) && s.record.Some? {
      var log := s.record.value.log;
      assert s.record == Some(Record(log, |s.logs[log]|, hash(s.logs[log])));
    }
  }

  /** An effect touches one published name and leaves the others. */
  lemma EffectsTouchOneName(s: Store, log: Name, payload: seq<Byte>, r: Record)
    ensures ApplyEffect(s, Invalidate) == Store(s.logs, None)
    ensures ApplyEffect(s, PublishRecord(r)) == Store(s.logs, Some(r))
    ensures var t := ApplyEffect(s, ReplaceLog(log, payload));
      && t.record == s.record && log in t.logs && t.logs[log] == payload
      && forall other :: other != log ==> (other in t.logs <==> other in s.logs)
                                          && (other in s.logs ==> t.logs[other] == s.logs[other])
  {
  }

  // ----- Any number of runs, a crash after any step -----

  /** How far the run holding the lock has come. */
  datatype Phase =
    | Locked(log: Name)
    | TempWritten(log: Name, output: seq<Byte>)
    | Invalidated(log: Name, output: seq<Byte>)
    | LogPublished(log: Name)
    | Hashed(record: Record)
    | RecordPublished

  datatype System = System(store: Store, holder: Option<RunId>, runs: map<RunId, Phase>)

  datatype Step =
    | Acquire(r: RunId, log: Name)            // flock, non-blocking
    | WriteTemp(r: RunId, output: seq<Byte>)  // private temporary log, fsynced and closed
    | DropRecord(r: RunId)                    // _invalidate_runtime_record
    | PublishLog(r: RunId)                    // os.replace of the log
    | HashLog(r: RunId)                       // _hash_log reads the published log back
    | WriteRecord(r: RunId)                   // _atomic_json
    | Stop(r: RunId)                          // success, failure or crash: the lock goes with the process

  predicate Enabled(s: System, step: Step) {
    match step
    case Acquire(r, _) => s.holder.None? && r !in s.runs
    case WriteTemp(r, _) => r in s.runs && s.runs[r].Locked?
    case DropRecord(r) => r in s.runs && s.runs[r].TempWritten?
    case PublishLog(r) => r in s.runs && s.runs[r].Invalidated?
    case HashLog(r) => r in s.runs && s.runs[r].LogPublished? && s.runs[r].log in s.store.logs
    case WriteRecord(r) => r in s.runs && s.runs[r].Hashed?
    case Stop(r) => r in s.runs
  }

  function Apply(hash: Hash, s: System, step: Step): System
    requires Enabled(s, step)
  {
    match step
    case Acquire(r, log) => s.(holder := Some(r), runs := s.runs[r := Locked(log)])
    case WriteTemp(r, output) => s.(runs := s.runs[r := TempWritten(s.runs[r].log, output)])
    case DropRecord(r) =>
      s.(store := ApplyEffect(s.store, Invalidate),
         runs := s.runs[r := Invalidated(s.runs[r].log, s.runs[r].output)])
    case PublishLog(r) =>
      s.(store := ApplyEffect(s.store, ReplaceLog(s.runs[r].log, s.runs[r].output)),
         runs := s.runs[r := LogPublished(s.runs[r].log)])
    case HashLog(r) =>
      s.(runs := s.runs[r := Hashed(RecordOf(hash, s.runs[r].log, s.store.logs[s.runs[r].log]))])
    case WriteRecord(r) =>
      s.(store := ApplyEffect(s.store, PublishRecord(s.runs[r].record)), runs := s.runs[r := RecordPublished])
    case Stop(r) => s.(holder := None, runs := s.runs - {r})
  }

  function Run(hash: Hash, s: System, steps: seq<Step>): Option<System>
    decreases |steps|
  {
    if steps == [] then Some(s)
    else if Enabled(s, steps[0]) then Run(hash, Apply(hash, s, steps[0]), steps[1..])
    else None
  }

  predicate PhaseInv(hash: Hash, s: Store, p: Phase) {
    match p
    case Invalidated(_, _) => s.record.None?
    case LogPublished(log) => s.record.None? && log in s.logs
    case Hashed(r) => s.record.None? && r.log in s.logs && r == RecordOf(hash, r.log, s.logs[r.log])
    case _ => true
  }

  predicate Inv(hash: Hash, s: System) {
    && Consistent(hash, s.store)
    && (forall r :: r in s.runs ==> s.holder == Some(r))
    && (forall r :: r in s.runs ==> PhaseInv(hash, s.store, s.runs[r]))
  }

  lemma InvStep(hash: Hash, s: System, step: Step)
    requires Inv(hash, s) && Enabled(s, step)
    ensures Inv(hash, Apply(hash, s, step))
  {}

  /** Over any sequence of runs with a crash after any step, the record never vouches for another log. */
  lemma {:induction false} AlwaysConsistent(hash: Hash, s: System, steps: seq<Step>)
    requires Consistent(hash, s.store) && s.runs == map[] && Run(hash, s, steps).Some?
    ensures Consistent(hash, Run(hash, s, steps).value.store)
  {
    InvRun(hash, s, steps);
  }

  lemma {:induction false} InvRun(hash: Hash, s: System, steps: seq<Step>)
    requires Inv(hash, s) && Run(hash, s, steps).Some?
    ensures Inv(hash, Run(hash, s, steps).value)
    decreases |steps|
  {
    if steps != [] {
      InvStep(hash, s, steps[0]);
      InvRun(hash, Apply(hash, s, steps[0]), steps[1..]);
    }
  }

  /** Only the lock holder ever changes the published names. */
  lemma OnlyHolderPublishes(hash: Hash, s: System, step: Step)
    requires Inv(hash, s) && Enabled(s, step) && Apply(hash, s, step).store != s.store
    ensures s.holder == Some(step.r) && step.r in s.runs
  {}

  /**
   * Why the old record goes first: replacing a log under a standing record keeps the pair consistent
   * exactly when the record names another log or the new log happens to fit it.
   */
  lemma ReplaceUnderRecord(hash: Hash, s: Store, log: Name, payload: seq<Byte>)
    requires Consistent(hash, s)
    ensures Consistent(hash, ApplyEffect(s, ReplaceLog(log, payload))) <==>
            s.record.None? || s.record.value.log != log || s.record.value == RecordOf(hash, log, payload)
  {}

  // ----- One run, as code -----

  /** The three changes of the published names, in the order `run_tlc` makes them. */
  function Effects(hash: Hash, log: Name, output: seq<Byte>): seq<Effect> {
    [Invalidate, ReplaceLog(log, output), PublishRecord(RecordOf(hash, log, output))]
  }

  lemma PrefixStates(hash: Hash, s: Store, log: Name, output: seq<Byte>, n: nat)
    requires Consistent(hash, s) && n <= 3
    ensures var es := Effects(hash, log, output)[..n];
      && Consistent(hash, ApplyAll(s, es))
      && ApplyAll(s, es) == (if n == 0 then s
                             else Store(if n == 1 then s.logs else s.logs[log := output],
                                        if n < 3 then None else Some(RecordOf(hash, log, output))))
  {
    var es := Effects(hash, log, output);
    assert ApplyAll(s, []) == s;
    assert es[..0] == [];
    assert es[..1][..0] == [];
    assert ApplyAll(s, es[..1]) == ApplyEffect(s, Invalidate);
    assert es[..2][..1] == es[..1];
    assert ApplyAll(s, es[..2]) == ApplyEffect(ApplyAll(s, es[..1]), es[1]);
    assert es[..3][..2] == es[..2];
    assert ApplyAll(s, es[..3]) == ApplyEffect(ApplyAll(s, es[..2]), es[2]);
  }

  /** The steps of a run up to its n-th change. */
  function StepsTo(r: RunId, log: Name, output: seq<Byte>, n: nat): seq<Step>
    requires n <= 3
  {
    if n == 0 then [Acquire(r, log)] + [WriteTemp(r, output)]
    else if n == 1 then StepsTo(r, log, output, 0) + [DropRecord(r)]
    else if n == 2 then StepsTo(r, log, output, 1) + [PublishLog(r)]
    else StepsTo(r, log, output, 2) + [HashLog(r)] + [WriteRecord(r)]
  }

  /** All steps of a run that made n of its changes before it ended. */
  function StepsOf(r: RunId, log: Name, output: seq<Byte>, n: nat): seq<Step>
    requires n <= 3
  {
    StepsTo(r, log, output, n) + [Stop(r)]
  }

  lemma {:induction false} RunOneMore(hash: Hash, s: System, steps: seq<Step>, step: Step)
    requires Run(hash, s, steps).Some? && Enabled(Run(hash, s, steps).value, step)
    ensures Run(hash, s, steps + [step]) == Some(Apply(hash, Run(hash, s, steps).value, step))
    decreases |steps|
  {
    if steps == [] {
      assert [] + [step] == [step] && [step][1..] == [];
    } else {
      assert (steps + [step])[1..] == steps[1..] + [step];
      RunOneMore(hash, Apply(hash, s, steps[0]), steps[1..], step);
    }
  }

  /** The run r holds the lock and has come to this phase. */
  function Held(s: Store, r: RunId, p: Phase): System { System(s, Some(r), map[r := p]) }

  function PhaseAfter(log: Name, output: seq<Byte>, n: nat): Phase {
    if n == 0 then TempWritten(log, output) else if n == 1 then Invalidated(log, output)
    else if n == 2 then LogPublished(log) else RecordPublished
  }

  lemma {:induction false} ReachesChange(hash: Hash, s: Store, r: RunId, log: Name, output: seq<Byte>, n: nat)
    requires n <= 3
    ensures Run(hash, System(s, None, map[]), StepsTo(r, log, output, n)) ==
            Some(Held(ApplyAll(s, Effects(hash, log, output)[..n]), r, PhaseAfter(log, output, n)))
  {
    hide ApplyAll, Run, RecordOf;
    EffectStores(hash, s, log, output);
    var start := System(s, None, map[]);
    if n == 0 {
      RunNothing(hash, start);
      RunOneMore(hash, start, [], Acquire(r, log));
      assert [] + [Acquire(r, log)] == [Acquire(r, log)];
      RunOneMore(hash, start, [Acquire(r, log)], WriteTemp(r, output));
      assert map[][r := Locked(log)][r := TempWritten(log, output)] == map[r := TempWritten(log, output)];
    } else {
      ReachesChange(hash, s, r, log, output, n - 1);
      var steps := StepsTo(r, log, output, n - 1);
      if n == 1 {
        RunOneMore(hash, start, steps, DropRecord(r));
        assert map[r := TempWritten(log, output)][r := Invalidated(log, output)] == map[r := Invalidated(log, output)];
      } else if n == 2 {
        RunOneMore(hash, start, steps, PublishLog(r));
        assert map[r := Invalidated(log, output)][r := LogPublished(log)] == map[r := LogPublished(log)];
      } else {
        RunOneMore(hash, start, steps, HashLog(r));
        RunOneMore(hash, start, steps + [HashLog(r)], WriteRecord(r));
        var hashed := Hashed(RecordOf(hash, log, output));
        assert map[r := LogPublished(log)][r := hashed][r := RecordPublished] == map[r := RecordPublished];
      }
    }
  }

  /** A run that made n changes is a run of the step machine: it takes the lock, gets that far and ends. */
  lemma RunIsSteps(hash: Hash, s: Store, r: RunId, log: Name, output: seq<Byte>, n: nat)
    requires n <= 3
    ensures Run(hash, System(s, None, map[]), StepsOf(r, log, output, n)) ==
            Some(System(ApplyAll(s, Effects(hash, log, output)[..n]), None, map[]))
  {
    hide ApplyAll, Run, StepsTo;
    ReachesChange(hash, s, r, log, output, n);
    RunOneMore(hash, System(s, None, map[]), StepsTo(r, log, output, n), Stop(r));
  }

  lemma RunNothing(hash: Hash, s: System)
    ensures Run(hash, s, []) == Some(s)
  {
  }

  lemma EffectStores(hash: Hash, s: Store, log: Name, output: seq<Byte>)
    ensures var es := Effects(hash, log, output);
      && ApplyAll(s, es[..0]) == s
      && ApplyAll(s, es[..1]) == Store(s.logs, None)
      && ApplyAll(s, es[..2]) == Store(s.logs[log := output], None)
      && ApplyAll(s, es[..3]) == Store(s.logs[log := output], Some(RecordOf(hash, log, output)))
  {
    var es := Effects(hash, log, output);
    assert es[..1][..0] == es[..0] == [];
    assert es[..2][..1] == es[..1];
    assert es[..3][..2] == es[..2];
  }

  // ----- One run, with the failures of its file operations -----

  /** Whether an unlink or rename fails, or is done and then the directory cannot be synced. */
  datatype Fault = Never | Before | After

  /** What goes wrong in one run; `unlinks` says that temporaries can be removed. */
  datatype Faults = Faults(logSynced: bool, invalidate: Fault, publish: Fault, jsonWritten: bool, json: Fault, unlinks: bool)

  /** target/formal as one run sees it under the lock, with its private temporary log. */
  class FormalRoot {
    var logs: map<Name, seq<Byte>>
    var record: Option<Record>
    var temporary: Option<seq<Byte>>

    function Abs(): Store
      reads this
    {
      Store(logs, record)
    }

    constructor ()
      ensures Abs() == Store(map[], None) && temporary == None
    {
      logs, record, temporary := map[], None, None;
    }

    /** `_invalidate_runtime_record`: it never reports success over a record that is still there. */
    method InvalidateRuntimeRecord(fault: Fault) returns (ok: bool)
      modifies this`record
      ensures Abs() == old(Abs()) || Abs() == ApplyEffect(old(Abs()), Invalidate)
      ensures ok ==> record == None
      ensures !ok ==> fault == Before || (fault == After && old(record).Some? && record == None)
      ensures fault == Never ==> ok
      ensures fault == Before ==> !ok && record == old(record)
    {
      if fault == Before {
        return false;
      }
      if record.None? {
        return true;
      }
      record := None;
      return fault == Never;
    }

    /**
     * `_publish_temp` of the finished temporary log: the log is replaced as a whole or not at all, success
     * means it was, and the temporary is left behind only when it could neither be renamed nor removed.
     */
    method PublishTempLog(log: Name, fault: Fault, unlinks: bool) returns (ok: bool)
      requires temporary.Some?
      modifies this`logs, this`temporary
      ensures Abs() == old(Abs()) || Abs() == ApplyEffect(old(Abs()), ReplaceLog(log, old(temporary).value))
      ensures fault != Before ==> Abs() == ApplyEffect(old(Abs()), ReplaceLog(log, old(temporary).value))
      ensures fault == Before ==> Abs() == old(Abs())
      ensures ok <==> fault == Never
      ensures temporary.Some? <==> fault == Before && !unlinks
    {
      if fault == Before {
        temporary := if unlinks then None else temporary;
        return false;
      }
      logs, temporary := logs[log := temporary.value], None;
      return fault == Never;
    }

    /**
     * `_hash_log`: for a log within the cap, the one size and digest with which a record of this log would
     * be consistent.
     */
    method HashPublishedLog(hash: Hash, log: Name, cap: nat) returns (r: Option<(nat, nat)>)
      requires log in logs
      ensures r.Some? <==> |logs[log]| <= cap
      ensures r.Some? ==> forall size: nat, digest: nat :: Consistent(hash, Store(logs, Some(Record(log, size, digest))))
                                                 <==> r == Some((size, digest))
    {
      if |logs[log]| > cap {
        return None;
      }
      r := Some((|logs[log]|, hash(logs[log])));
    }

    /**
     * `_atomic_json` of the runtime document: a temporary is written and renamed, so the record is the old
     * one or the whole new one, and it is the new one whenever success is reported.
     */
    method AtomicJson(r: Record, written: bool, fault: Fault) returns (ok: bool)
      modifies this`record
      ensures Abs() == old(Abs()) || Abs() == ApplyEffect(old(Abs()), PublishRecord(r))
      ensures written && fault != Before ==> Abs() == ApplyEffect(old(Abs()), PublishRecord(r))
      ensures !written || fault == Before ==> Abs() == old(Abs())
      ensures ok <==> written && fault == Never
    {
      if !written || fault == Before {
        return false;
      }
      record := Some(r);
      return fault == Never;
    }

    /**
     * The publication part of `run_tlc`, with any of its file operations failing and the process ending by
     * itself or by a crash after `survives` changes. However it ends it has made a prefix of its three changes,
     * as some run of the step machine does, so the store stays consistent; it reports success only over all
     * three; and unless it crashed no temporary log is left that could be removed.
     */
    method RunTlc(hash: Hash, log: Name, output: seq<Byte>, cap: nat, faults: Faults, survives: nat)
      returns (ok: bool, ghost n: nat)
      requires Consistent(hash, Abs())
      modifies this
      ensures n <= 3 && Abs() == ApplyAll(old(Abs()), Effects(hash, log, output)[..n])
      ensures forall r :: Run(hash, System(old(Abs()), None, map[]), StepsOf(r, log, output, n)) == Some(System(Abs(), None, map[]))
      ensures Consistent(hash, Abs())
      ensures ok ==> n == 3 && record == Some(RecordOf(hash, log, output)) && log in logs && logs[log] == output
      ensures faults == Faults(true, Never, Never, true, Never, true) && |output| <= cap && survives >= 3 ==> ok
      ensures survives < 3 ==> n <= survives && !ok
      ensures survives >= 3 && faults.unlinks ==> temporary == None
    {
      hide ApplyAll, Run, Consistent, StepsOf, RecordOf;
      ghost var s := Abs();
      EffectStores(hash, s, log, output);
      forall r, k: nat | k <= 3
        ensures Run(hash, System(s, None, map[]), StepsOf(r, log, output, k)) ==
                Some(System(ApplyAll(s, Effects(hash, log, output)[..k]), None, map[]))
      {
        RunIsSteps(hash, s, r, log, output, k);
      }
      forall k: nat | k <= 3
        ensures Consistent(hash, ApplyAll(s, Effects(hash, log, output)[..k]))
      {
        PrefixStates(hash, s, log, output, k);
      }
      ok, n := false, 0;
      temporary := Some(output);
      if survives == 0 {
        return;
      }
      if !faults.logSynced {
        DiscardTemporary(faults.unlinks);
        return;
      }
      var invalidated := InvalidateRuntimeRecord(faults.invalidate);
      n := if record == None then 1 else 0;
      if survives == 1 {
        return;
      }
      if !invalidated {
        DiscardTemporary(faults.unlinks);
        return;
      }
      var published := PublishTempLog(log, faults.publish, faults.unlinks);
      n := if faults.publish == Before then 1 else 2;
      if survives == 2 || !published {
        return;
      }
      var hashed := HashPublishedLog(hash, log, cap);
      if hashed.None? {
        return;
      }
      var r := Record(log, hashed.value.0, hashed.value.1);
      assert r == RecordOf(hash, log, output) by { OneRecordFits(hash, logs, log, r.size, r.digest); }
      ok := AtomicJson(r, faults.jsonWritten, faults.json);
      n := if faults.jsonWritten && faults.json != Before then 3 else 2;
    }

    method DiscardTemporary(unlinks: bool)
      modifies this`temporary
      ensures temporary == if unlinks then None else old(temporary)
    {
      if unlinks {
        temporary := None;
      }
    }
  }

  /** A published log fits one record only. */
  lemma OneRecordFits(hash: Hash, logs: map<Name, seq<Byte>>, log: Name, size: nat, digest: nat)
    requires log in logs && Consistent(hash, Store(logs, Some(Record(log, size, digest))))
    ensures Record(log, size, digest) == RecordOf(hash, log, logs[log])
  {
  }
}
