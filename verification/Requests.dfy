/** The IncidentApply resource, and what one reconcile of it decides. */
module Requests {
  import opened Options
  import opened Clock
  import opened Incidents
  import opened CheckPods
  import opened Output

  /** NoPhase: the controller has not acted. */
  datatype ApplyPhase = NoPhase | PodRunning | RunSucceeded | RunFailed | Refused

  predicate Terminal(p: ApplyPhase) {
    p == RunSucceeded || p == RunFailed || p == Refused
  }

  datatype ApplyStatus = ApplyStatus(
    phase: ApplyPhase, script: string, exitCode: Option<int>, output: seq<byte>,
    startedAt: Option<Time>, finishedAt: Option<Time>)

  const NEW_REQUEST := ApplyStatus(NoPhase, "", None, [], None, None)

  datatype ApplyConfig = ApplyConfig(timeout: Duration, ttl: Duration)

  // ----- admission -----

  /** A read of something that may be missing. */
  datatype Read<+T> = Missing | ReadFailed | Found(value: T)

  /** What admission reads, in order; the last three are other systems' answers. */
  datatype Facts = Facts(
    hasUser: bool, created: Time, policy: Read<Time>, binding: Read<Time>, incident: Read<Status>,
    busy: Read<string>, mayPatch: Read<()>, login: Read<()>)

  datatype Decision = Admit(script: string) | Refuse(why: string) | Retry

  /** The policy object vouches for the request when it is older. */
  function Vouched(o: Read<Time>, created: Time): Decision {
    match o
    case Missing => Refuse("not installed")
    case ReadFailed => Retry
    case Found(t) => if t < created then Admit("") else Refuse("created after the request")
  }

  /** Whether a new request runs: the first check that does not pass decides. */
  function Admission(f: Facts): Decision {
    if !f.hasUser then Refuse("no requester")
    else if !Vouched(f.policy, f.created).Admit? then Vouched(f.policy, f.created)
    else if !Vouched(f.binding, f.created).Admit? then Vouched(f.binding, f.created)
    else
      match f.incident
      case Missing => Refuse("no incident")
      case ReadFailed => Retry
      case Found(st) =>
        if st.state != Open then Refuse("the incident is not Open")
        else if st.howToFix.None? || st.howToFix.value.apply == "" then Refuse("no apply script")
        else if f.busy.ReadFailed? then Retry
        else if f.busy.Found? then Refuse("another request goes first")
        else if f.mayPatch.ReadFailed? then Retry
        else if f.mayPatch.Missing? then Refuse("may not patch the incident")
        else if f.login.ReadFailed? then Retry
        else if f.login.Missing? then Refuse("no usable login")
        else Admit(st.howToFix.value.apply)
  }

  predicate OlderThan(o: Read<Time>, created: Time) {
    o.Found? && o.value < created
  }

  /** A request is admitted exactly when a vouched user may patch an Open incident with an apply script, no request goes first, and the login lasts. */
  lemma AdmittedExactly(f: Facts)
    ensures Admission(f).Admit? <==>
              && f.hasUser && OlderThan(f.policy, f.created) && OlderThan(f.binding, f.created)
              && f.incident.Found? && f.incident.value.state == Open
              && f.incident.value.howToFix.Some? && f.incident.value.howToFix.value.apply != ""
              && f.busy.Missing? && f.mayPatch.Found? && f.login.Found?
    ensures Admission(f).Admit? ==> Admission(f).script == f.incident.value.howToFix.value.apply
    ensures Admission(f).Retry? ==>
              f.policy.ReadFailed? || f.binding.ReadFailed? || f.incident.ReadFailed?
              || f.busy.ReadFailed? || f.mayPatch.ReadFailed? || f.login.ReadFailed?
  {
  }

  /** How one check of admission comes out, whatever the others do. */
  datatype Outcome = Passes | Stops | Fails

  function Vouching(o: Read<Time>, created: Time): Outcome {
    if o.ReadFailed? then Fails else if o.Found? && o.value < created then Passes else Stops
  }

  function Passing(ok: bool): Outcome {
    if ok then Passes else Stops
  }

  function Granting(o: Read<()>): Outcome {
    if o.ReadFailed? then Fails else Passing(o.Found?)
  }

  /** The checks in order; what they read of the incident counts only when it was found. */
  function Checks(f: Facts): seq<Outcome> {
    [ Passing(f.hasUser), Vouching(f.policy, f.created), Vouching(f.binding, f.created),
      if f.incident.ReadFailed? then Fails else Passing(f.incident.Found?),
      Passing(f.incident.Found? && f.incident.value.state == Open),
      Passing(f.incident.Found? && f.incident.value.howToFix.Some? && f.incident.value.howToFix.value.apply != ""),
      if f.busy.ReadFailed? then Fails else Passing(f.busy.Missing?),
      Granting(f.mayPatch), Granting(f.login) ]
  }

  /** Check i is the first that does not pass. */
  predicate Decides(f: Facts, i: nat) {
    i < 9 && Checks(f)[i] != Passes && forall j :: 0 <= j < i ==> Checks(f)[j] == Passes
  }

  lemma FirstThatDecides(f: Facts, k: nat)
    requires k <= 9 && forall j :: 0 <= j < k ==> Checks(f)[j] == Passes
    ensures (forall i :: 0 <= i < 9 ==> Checks(f)[i] == Passes) || exists i :: 0 <= i < 9 && Decides(f, i)
    decreases 9 - k
  {
    if k < 9 {
      if Checks(f)[k] == Passes {
        FirstThatDecides(f, k + 1);
      } else {
        assert Decides(f, k);
      }
    }
  }

  /** What admission answers when check i decides. */
  lemma DecidedBy(f: Facts, i: nat)
    requires Decides(f, i)
    ensures if Checks(f)[i] == Fails then Admission(f).Retry? else Admission(f).Refuse?
  {
    var c := Checks(f);
    assert i > 0 ==> c[0] == Passes;
    assert i > 1 ==> c[1] == Passes;
    assert i > 2 ==> c[2] == Passes;
    assert i > 3 ==> c[3] == Passes;
    assert i > 4 ==> c[4] == Passes;
    assert i > 5 ==> c[5] == Passes;
    assert i > 6 ==> c[6] == Passes;
    assert i > 7 ==> c[7] == Passes;
  }

  lemma AllPass(f: Facts)
    requires forall i :: 0 <= i < 9 ==> Checks(f)[i] == Passes
    ensures Admission(f).Admit?
  {
    var c := Checks(f);
    assert c[0] == c[1] == c[2] == c[3] == c[4] == c[5] == c[6] == c[7] == c[8] == Passes;
  }

  /** The first check that does not pass decides: a failed read retries, anything else refuses; without one the request is admitted. */
  lemma DecidedByTheFirst(f: Facts)
    ensures Admission(f).Admit? <==> forall i :: 0 <= i < 9 ==> Checks(f)[i] == Passes
    ensures Admission(f).Retry? <==> exists i :: 0 <= i < 9 && Decides(f, i) && Checks(f)[i] == Fails
    ensures Admission(f).Refuse? <==> exists i :: 0 <= i < 9 && Decides(f, i) && Checks(f)[i] == Stops
  {
    FirstThatDecides(f, 0);
    if forall i :: 0 <= i < 9 ==> Checks(f)[i] == Passes {
      AllPass(f);
    }
    forall i | 0 <= i < 9 && Decides(f, i)
      ensures if Checks(f)[i] == Fails then Admission(f).Retry? else Admission(f).Refuse?
    {
      DecidedBy(f, i);
    }
  }

  // ----- one reconcile -----

  /** What Observe found for Create and Update to act on. pod is the apply pod to delete. */
  datatype ApplyPlan = ApplyPlan(
    start: Option<string>, dirty: bool, finished: bool, run: Option<RunResult>, pod: Option<PodName>, expired: bool)

  const EMPTY_APPLY_PLAN := ApplyPlan(None, false, false, None, None, false)

  /** Observe's answer: an error, no external resource, or one that is up to date or not. */
  datatype Answer = Failure | Absent | Present(upToDate: bool)

  datatype ApplyObserved = ApplyObserved(status: ApplyStatus, plan: ApplyPlan, answer: Answer)

  /** What a reconcile reads besides the request: its pod past the cache, the script ConfigMap, the log, admission. */
  datatype Reads = Reads(
    pod: Option<Pod>, deleted: bool, createIncomplete: bool, script: Read<string>, log: seq<byte>, facts: Facts)

  function End(o: ApplyObserved, phase: ApplyPhase, exit: Option<int>, output: seq<byte>, at: Time): ApplyObserved {
    o.(status := o.status.(phase := phase, exitCode := exit, output := output, finishedAt := Some(Rfc3339Copy(at))),
       plan := o.plan.(dirty := true, finished := true))
  }

  function Started(o: ApplyObserved, pod: Pod, script: Read<string>): ApplyObserved {
    var st := o.status.(phase := PodRunning, startedAt := Some(pod.created));
    if script.ReadFailed? then o.(status := st, answer := Failure)
    else o.(status := if script.Found? then st.(script := script.value) else st, plan := o.plan.(dirty := true))
  }

  function FinishRun(o: ApplyObserved, r: RunResult, log: seq<byte>): ApplyObserved {
    var ended := End(o, if r.exit == Some(0) then RunSucceeded else RunFailed, r.exit, log, r.at);
    ended.(plan := ended.plan.(run := Some(r)))
  }

  /** A request the controller has not acted on: its pod exists, its creation was cut short, or it is admitted or not. */
  function ObserveNew(o: ApplyObserved, rd: Reads, now: Time): ApplyObserved {
    if rd.pod.Some? then Started(o, rd.pod.value, rd.script)
    else if rd.createIncomplete then End(o, Refused, None, [], now)
    else
      match Admission(rd.facts)
      case Retry => o.(answer := Failure)
      case Admit(script) => o.(plan := o.plan.(start := Some(script)), answer := Absent)
      case Refuse(_) => End(o, Refused, None, [], now)
  }

  function ObserveRunning(o: ApplyObserved, rd: Reads, cfg: ApplyConfig, now: Time): ApplyObserved {
    if rd.pod.None? then End(o, RunFailed, None, [], now)
    else
      var out := ResultOf(rd.pod.value, cfg.timeout, now);
      if out.done then FinishRun(o, out.result, rd.log) else o
  }

  function ObserveTerminal(o: ApplyObserved, rd: Reads, cfg: ApplyConfig, now: Time): ApplyObserved {
    o.(plan := o.plan.(
         pod := if rd.pod.Some? && !rd.pod.value.deleting then Some(rd.pod.value.name) else None,
         expired := o.status.finishedAt.Some? && now >= o.status.finishedAt.value + cfg.ttl))
  }

  function ObserveRequest(st: ApplyStatus, rd: Reads, cfg: ApplyConfig, now: Time): ApplyObserved {
    if rd.deleted then ApplyObserved(st, EMPTY_APPLY_PLAN, if rd.pod.Some? then Present(false) else Absent)
    else
      var read := ApplyObserved(st, EMPTY_APPLY_PLAN, Present(false));
      var o1 := if st.phase == NoPhase then ObserveNew(read, rd, now) else read;
      if !o1.answer.Present? then o1
      else
        var o2 := if o1.status.phase == PodRunning then ObserveRunning(o1, rd, cfg, now) else o1;
        var o3 := if Terminal(o2.status.phase) then ObserveTerminal(o2, rd, cfg, now) else o2;
        o3.(answer := Present(!(o3.plan.dirty || o3.plan.pod.Some? || o3.plan.expired)))
  }

  // ----- in place -----

  class IncidentApply {
    var phase: ApplyPhase
    var script: string
    var exitCode: Option<int>
    var output: seq<byte>
    var startedAt: Option<Time>
    var finishedAt: Option<Time>

    constructor (st: ApplyStatus)
      ensures GetStatus() == st
    {
      phase, script, exitCode, output, startedAt, finishedAt :=
        st.phase, st.script, st.exitCode, st.output, st.startedAt, st.finishedAt;
    }

    function GetStatus(): ApplyStatus
      reads this
    {
      ApplyStatus(phase, script, exitCode, output, startedAt, finishedAt)
    }
  }

  class ApplyExternal {
    const cfg: ApplyConfig
    var plan: ApplyPlan

    constructor (cfg: ApplyConfig)
      ensures this.cfg == cfg && plan == EMPTY_APPLY_PLAN
    {
      this.cfg, plan := cfg, EMPTY_APPLY_PLAN;
    }

    method EndRun(ia: IncidentApply, phase: ApplyPhase, exit: Option<int>, output: seq<byte>, at: Time)
      modifies this, ia
      ensures ApplyObserved(ia.GetStatus(), plan, Present(false)) ==
              End(ApplyObserved(old(ia.GetStatus()), old(plan), Present(false)), phase, exit, output, at)
    {
      ia.phase, ia.exitCode, ia.output, ia.finishedAt := phase, exit, output, Some(Rfc3339Copy(at));
      plan := plan.(dirty := true, finished := true);
    }

    /** A request the controller has not acted on. */
    method ObserveUnseen(ia: IncidentApply, rd: Reads, now: Time) returns (answer: Answer)
      modifies this, ia
      ensures ApplyObserved(ia.GetStatus(), plan, answer) ==
              ObserveNew(ApplyObserved(old(ia.GetStatus()), old(plan), Present(false)), rd, now)
    {
      if rd.pod.Some? {
        ia.phase, ia.startedAt := PodRunning, Some(rd.pod.value.created);
        if rd.script.ReadFailed? {
          return Failure;
        }
        if rd.script.Found? {
          ia.script := rd.script.value;
        }
        plan := plan.(dirty := true);
      } else if rd.createIncomplete {
        EndRun(ia, Refused, None, [], now);
      } else {
        match Admission(rd.facts) {
          case Retry =>
            return Failure;
          case Admit(script) =>
            plan := plan.(start := Some(script));
            return Absent;
          case Refuse(_) =>
            EndRun(ia, Refused, None, [], now);
        }
      }
      answer := Present(false);
    }

    /** A request whose pod runs, or is gone. */
    method ObserveRun(ia: IncidentApply, rd: Reads, now: Time)
      modifies this, ia
      ensures ApplyObserved(ia.GetStatus(), plan, Present(false)) ==
              ObserveRunning(ApplyObserved(old(ia.GetStatus()), old(plan), Present(false)), rd, cfg, now)
    {
      if rd.pod.None? {
        EndRun(ia, RunFailed, None, [], now);
      } else {
        var r, done := ReadResult(rd.pod.value, cfg.timeout, now);
        if done {
          EndRun(ia, if r.exit == Some(0) then RunSucceeded else RunFailed, r.exit, rd.log, r.at);
          plan := plan.(run := Some(r));
        }
      }
    }

    method Observe(ia: IncidentApply, rd: Reads, now: Time) returns (answer: Answer)
      modifies this, ia
      ensures rd.deleted ==> plan == old(plan)
      ensures ApplyObserved(ia.GetStatus(), if rd.deleted then EMPTY_APPLY_PLAN else plan, answer) ==
              ObserveRequest(old(ia.GetStatus()), rd, cfg, now)
    {
      if rd.deleted {
        return if rd.pod.Some? then Present(false) else Absent;
      }
      plan := EMPTY_APPLY_PLAN;
      if ia.phase == NoPhase {
        answer := ObserveUnseen(ia, rd, now);
        if !answer.Present? {
          return;
        }
      }
      if ia.phase == PodRunning {
        ObserveRun(ia, rd, now);
      }
      if Terminal(ia.phase) {
        if rd.pod.Some? && !rd.pod.value.deleting {
          plan := plan.(pod := Some(rd.pod.value.name));
        }
        plan := plan.(expired := ia.finishedAt.Some? && now >= ia.finishedAt.value + cfg.ttl);
      }
      answer := Present(!(plan.dirty || plan.pod.Some? || plan.expired));
    }
  }

  // ----- what one reconcile does to the phase -----

  /** Absent, then running, then terminal. */
  function Rank(p: ApplyPhase): nat {
    if p == NoPhase then 0 else if p == PodRunning then 1 else 2
  }

  predicate Forward(st: ApplyStatus, st': ApplyStatus) {
    && Rank(st.phase) <= Rank(st'.phase)
    && (Terminal(st.phase) ==> st' == st)
  }

  /** A status has an exit only once terminal, and success is exit 0. */
  predicate ExitWithEnd(st: ApplyStatus) {
    && (st.exitCode.Some? ==> Terminal(st.phase))
    && (st.phase == RunSucceeded ==> st.exitCode == Some(0))
  }

  /** An exit a reconcile finds comes with the run to record. */
  lemma ExitComesWithRun(st: ApplyStatus, rd: Reads, cfg: ApplyConfig, now: Time)
    requires ExitWithEnd(st)
    ensures var o := ObserveRequest(st, rd, cfg, now);
            && ExitWithEnd(o.status)
            && (o.status.exitCode.Some? && st.exitCode.None? ==>
                  o.plan.run.Some? && o.plan.run.value.exit == o.status.exitCode)
  {
  }

  /** A finished request is deleted once its TTL has passed since finishedAt, and not before; its pod goes at once. */
  lemma ExpiredExactly(st: ApplyStatus, rd: Reads, cfg: ApplyConfig, now: Time)
    requires Terminal(st.phase) && !rd.deleted
    ensures var o := ObserveRequest(st, rd, cfg, now);
            && o.status == st && o.answer.Present?
            && (o.plan.expired <==> st.finishedAt.Some? && now >= st.finishedAt.value + cfg.ttl)
            && (o.plan.pod.Some? <==> rd.pod.Some? && !rd.pod.value.deleting)
            && (o.answer.upToDate <==> !o.plan.expired && o.plan.pod.None?)
  {
  }

  /** A reconcile moves a request forward or leaves it; it refuses only without a pod, and deletes the pod only of a terminal request. */
  lemma ObserveMovesForward(st: ApplyStatus, rd: Reads, cfg: ApplyConfig, now: Time)
    ensures var o := ObserveRequest(st, rd, cfg, now);
            && (o.answer != Failure ==> Forward(st, o.status))
            && (!o.plan.dirty && o.answer.Present? ==> o.status == st)
            && (o.status.phase == Refused && st.phase != Refused ==> rd.pod.None? && st.phase == NoPhase && !rd.deleted)
            && (o.plan.pod.Some? || o.plan.expired ==> Terminal(o.status.phase))
            && (o.plan.start.Some? <==>
                  st.phase == NoPhase && rd.pod.None? && !rd.createIncomplete && !rd.deleted && Admission(rd.facts).Admit?)
            && (o.plan.start.Some? ==> o.answer == Absent && o.status == st)
  {
  }

  /** The phase a reconcile stores for a request it read without one or running, from the pod it found. */
  function PhaseFrom(read: ApplyPhase, pod: Option<Pod>, timeout: Duration, now: Time): ApplyPhase {
    if pod.None? then (if read == PodRunning then RunFailed else Refused)
    else
      var out := ResultOf(pod.value, timeout, now);
      if !out.done then PodRunning else if out.result.exit == Some(0) then RunSucceeded else RunFailed
  }

  /** Only a request read unfinished is written to, and always with another phase; an exit or a success comes with its run. */
  lemma DirtyExactly(st: ApplyStatus, rd: Reads, cfg: ApplyConfig, now: Time)
    ensures var o := ObserveRequest(st, rd, cfg, now);
            && (o.plan.dirty && o.answer.Present? ==>
                  && !Terminal(st.phase) && o.status.phase != st.phase
                  && o.status.phase == PhaseFrom(st.phase, rd.pod, cfg.timeout, now))
            && (o.answer.Present? && !o.plan.dirty ==> o.status == st)
            && (o.plan.run.None? ==>
                  && (o.status.exitCode.Some? ==> o.status.exitCode == st.exitCode)
                  && (o.status.phase == RunSucceeded ==> st.phase == RunSucceeded))
  {
  }

  /**
    The whole status a reconcile stores. Without a pod the end is now and there is no exit; with the pod's
    result, its exit and its end, and the log that was read; a request that starts takes the script and
    the time from its pod.
   */
  lemma DirtyStatus(st: ApplyStatus, rd: Reads, cfg: ApplyConfig, now: Time)
    ensures var o := ObserveRequest(st, rd, cfg, now);
            o.plan.dirty && o.answer.Present? ==>
              var starts := st.phase == NoPhase && rd.pod.Some?;
              && o.status.script == (if starts && rd.script.Found? then rd.script.value else st.script)
              && o.status.startedAt == (if starts then Some(rd.pod.value.created) else st.startedAt)
              && (o.plan.finished <==> Terminal(o.status.phase))
              && if rd.pod.None? then
                   o.plan.run == None
                   && o.status == st.(phase := o.status.phase, exitCode := None, output := [], finishedAt := Some(Rfc3339Copy(now)))
                 else
                   var out := ResultOf(rd.pod.value, cfg.timeout, now);
                   if out.done then
                     o.plan.run == Some(out.result) && o.status.exitCode == out.result.exit && o.status.output == rd.log
                     && o.status.finishedAt == Some(Rfc3339Copy(out.result.at))
                   else
                     o.plan.run == None && o.status.exitCode == st.exitCode && o.status.output == st.output
                     && o.status.finishedAt == st.finishedAt
  {
  }

  /** When a reconcile stores a status, when it asks for a creation, and when it fails. */
  lemma AnswersExactly(st: ApplyStatus, rd: Reads, cfg: ApplyConfig, now: Time)
    requires !rd.deleted
    ensures var o := ObserveRequest(st, rd, cfg, now);
            && (o.answer == Failure <==>
                  st.phase == NoPhase
                  && if rd.pod.Some? then rd.script.ReadFailed? else !rd.createIncomplete && Admission(rd.facts).Retry?)
            && (o.answer == Absent <==>
                  st.phase == NoPhase && rd.pod.None? && !rd.createIncomplete && Admission(rd.facts).Admit?)
            && (o.answer.Present? ==>
                  (o.plan.dirty <==>
                     || st.phase == NoPhase
                     || (st.phase == PodRunning && (rd.pod.None? || ResultOf(rd.pod.value, cfg.timeout, now).done))))
  {
  }

  /** A request being deleted is left as it is; it exists outside as long as its pod is there. */
  lemma DeletedExactly(st: ApplyStatus, rd: Reads, cfg: ApplyConfig, now: Time)
    requires rd.deleted
    ensures var o := ObserveRequest(st, rd, cfg, now);
            && o.status == st && o.plan == EMPTY_APPLY_PLAN
            && (o.answer == Absent <==> rd.pod.None?) && (o.answer == Present(false) <==> rd.pod.Some?)
  {
  }
}
