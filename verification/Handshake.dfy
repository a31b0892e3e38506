/**
  One IncidentApply as a concurrent system: the create handshake and the updates of its reconciler,
  one write at a time; its user; the kubelet; restarts. A reconcile may read any version of the request
  ever stored; its pod is read past the cache, and not deleted by others before Running is persisted.
 */
module Handshake {
  import opened Options
  import opened Clock
  import opened Incidents
  import opened CheckPods
  import opened Requests
  import Output

  /** A version of the request; incomplete: a create was marked pending and not since marked done. */
  datatype Request = Request(status: ApplyStatus, incomplete: bool, deleted: bool)

  /** The stages of Create, and of the runtime's handshake around it. */
  datatype Stage = MarkPending | CreatePod | CreateRest | MarkDone

  /** The writes of Update, in order. */
  datatype Write = RecordRun | PatchStatus | DeletePod | DeleteRequest

  /** An update remembers the status and the log it read, and the pod it found when. */
  datatype Controller =
    | Idle
    | Creating(stage: Stage, held: nat)
    | Updating(
        read: ApplyStatus, found: Option<Pod>, log: seq<Output.byte>, at: Time, status: ApplyStatus, plan: ApplyPlan, next: nat)
    | Deleting

  datatype Env = Env(cfg: ApplyConfig, uid: string)

  /**
    log holds the versions of the request, oldest first, and present whether it is still there. History:
    creations counts the apply pods ever created for it; recorded, that its run reached the incident.
   */
  datatype Sys = Sys(
    log: seq<Request>, present: bool, pod: Option<Pod>, ctl: Controller, now: Time, creations: nat, recorded: bool)

  datatype Label =
    | Look(version: nat, seen: Reads)  // Observe
    | Proceed                          // the next write succeeds
    | Lost                             // the next write succeeds, its reply is lost
    | Fail                             // the next write fails
    | Restart
    | UserDeletes
    | Kubelet(progressed: Pod)
    | PodGone
    | OthersDeletePod
    | Tick(to: Time)

  function Writes(plan: ApplyPlan): seq<Write> {
    (if plan.run.Some? then [RecordRun] else [])
    + ((if plan.dirty then [PatchStatus] else [])
       + ((if plan.pod.Some? then [DeletePod] else [])
          + (if plan.expired then [DeleteRequest] else [])))
  }

  function Newest(s: Sys): Request
    requires s.log != []
  {
    s.log[|s.log| - 1]
  }

  function Append(s: Sys, req: Request): Sys {
    if s.present then s.(log := s.log + [req]) else s
  }

  function Terminated(pod: Option<Pod>): Option<Pod> {
    if pod.Some? then Some(pod.value.(deleting := true)) else None
  }

  // ----- the merge patch -----

  function Merged<T(==)>(stored: T, read: T, next: T): T {
    if next == read then stored else next
  }

  /** A merge patch from read to next, on whatever is stored: it carries the fields that differ, and no version. */
  function Patched(stored: ApplyStatus, read: ApplyStatus, next: ApplyStatus): ApplyStatus {
    ApplyStatus(
      Merged(stored.phase, read.phase, next.phase), Merged(stored.script, read.script, next.script),
      Merged(stored.exitCode, read.exitCode, next.exitCode), Merged(stored.output, read.output, next.output),
      Merged(stored.startedAt, read.startedAt, next.startedAt), Merged(stored.finishedAt, read.finishedAt, next.finishedAt))
  }

  // ----- steps -----

  predicate Init(s: Sys) {
    && s.log == [Request(NEW_REQUEST, false, false)] && s.present
    && s.pod.None? && s.ctl == Idle && s.creations == 0 && !s.recorded
  }

  predicate LookStep(env: Env, s: Sys, version: nat, rd: Reads, s': Sys) {
    && s.ctl.Idle? && version < |s.log|
    && var req := s.log[version];
       && rd.pod == s.pod && rd.deleted == req.deleted && rd.createIncomplete == req.incomplete
       && var o := ObserveRequest(req.status, rd, env.cfg, s.now);
          if req.deleted then
            // Without a pod the runtime removes the finalizer of the version it read, and the request goes.
            if o.answer.Present? then s' == s.(ctl := Deleting)
            else s' == s.(present := s.present && version + 1 < |s.log|)
          else
            match o.answer
            case Failure => s' == s
            case Absent => s' == s.(ctl := Creating(MarkPending, version))
            case Present(upToDate) =>
              if upToDate then s' == s else s' == s.(ctl := Updating(req.status, s.pod, rd.log, s.now, o.status, o.plan, 0))
  }

  /** A stage of Create reaches the API server; a version that moved on stops the first one. */
  predicate CreateStep(env: Env, s: Sys, s': Sys)
    requires s.ctl.Creating? && s.log != []
  {
    match s.ctl.stage
    case MarkPending =>
      && s.present && s.ctl.held + 1 == |s.log|
      && s' == Append(s, Newest(s).(incomplete := true)).(ctl := s.ctl.(stage := CreatePod))
    case CreatePod =>
      if s.pod.Some? then s' == s.(ctl := s.ctl.(stage := CreateRest))
      else
        s' == s.(pod := Some(NewPod(ApplyName(env.uid), Apply, s.now)), creations := s.creations + 1,
                 ctl := s.ctl.(stage := CreateRest))
    case CreateRest => s' == s.(ctl := s.ctl.(stage := MarkDone))
    case MarkDone => s' == Append(s, Newest(s).(incomplete := false)).(ctl := Idle)
  }

  predicate UpdateStep(s: Sys, s': Sys)
    requires s.ctl.Updating? && s.ctl.next < |Writes(s.ctl.plan)| && s.log != []
  {
    var next := s.ctl.(next := s.ctl.next + 1);
    match Writes(s.ctl.plan)[s.ctl.next]
    case RecordRun => s' == s.(recorded := true, ctl := next)
    case PatchStatus =>
      s' == Append(s, Newest(s).(status := Patched(Newest(s).status, s.ctl.read, s.ctl.status))).(ctl := next)
    case DeletePod => s' == s.(pod := Terminated(s.pod), ctl := next)
    case DeleteRequest => s' == Append(s, Newest(s).(deleted := true)).(ctl := next)
  }

  /** The controller's next write, and where it stands after. */
  predicate ProceedStep(env: Env, s: Sys, s': Sys)
    requires s.log != []
  {
    match s.ctl
    case Idle => false
    case Creating(_, _) => CreateStep(env, s, s')
    case Updating(_, _, _, _, _, plan, next) => if next < |Writes(plan)| then UpdateStep(s, s') else s' == s.(ctl := Idle)
    case Deleting => s' == s.(pod := Terminated(s.pod), ctl := Idle)
  }

  /** A failed stage of Create is marked done by the runtime; any other failure ends the reconcile. */
  function AfterFailure(ctl: Controller): Controller {
    if ctl.Creating? && (ctl.stage == CreatePod || ctl.stage == CreateRest) then ctl.(stage := MarkDone) else Idle
  }

  /** The kubelet changes only a pod's status, and not once it is final. */
  predicate Progress(was: Pod, pod: Pod) {
    && pod.name == was.name && pod.script == was.script && pod.created == was.created && pod.deleting == was.deleting
    && (Finished(was.phase) ==> pod == was)
  }

  ghost predicate Next(env: Env, s: Sys, l: Label, s': Sys)
    requires s.log != []
  {
    match l
    case Look(version, seen) => LookStep(env, s, version, seen, s')
    case Proceed => ProceedStep(env, s, s')
    case Lost => s'.ctl == AfterFailure(s.ctl) && exists ctl :: ProceedStep(env, s, s'.(ctl := ctl))
    case Fail => !s.ctl.Idle? && s' == s.(ctl := AfterFailure(s.ctl))
    case Restart => s' == s.(ctl := Idle)
    case UserDeletes => s.present && s' == Append(s, Newest(s).(deleted := true))
    case Kubelet(p) => s.pod.Some? && Progress(s.pod.value, p) && s' == s.(pod := Some(p))
    case PodGone => s.pod.Some? && s.pod.value.deleting && s' == s.(pod := None)
    case OthersDeletePod =>
      && (s.present && !Newest(s).deleted ==> Newest(s).status.phase != NoPhase)
      && s' == s.(pod := Terminated(s.pod))
    case Tick(to) => to >= s.now && s' == s.(now := to)
  }

  ghost predicate Behavior(env: Env, ss: seq<Sys>, ls: seq<Label>) {
    && |ss| == |ls| + 1 && Init(ss[0])
    && forall i :: 0 <= i < |ls| ==> ss[i].log != [] && Next(env, ss[i], ls[i], ss[i + 1])
  }

  // ----- invariants -----

  /** A phase, once stored, is never cleared, nor is a deletion. */
  predicate LogInv(s: Sys) {
    && s.log != []
    && forall v :: 0 <= v < |s.log| ==>
         && (s.log[v].status.phase != NoPhase ==> Newest(s).status.phase != NoPhase)
         && (s.log[v].deleted ==> Newest(s).deleted)
  }

  /** While a live request has no phase, a pod once created is still there. */
  predicate CreationInv(s: Sys)
    requires s.log != []
  {
    var req := Newest(s);
    && s.creations <= 1
    && (s.pod.Some? ==> s.creations == 1)
    && (s.present && !req.deleted && req.status.phase == NoPhase && s.creations == 1 ==>
          s.pod.Some? && !s.pod.value.deleting)
    && (s.ctl.Creating? ==>
          if s.ctl.stage == MarkPending
          then s.ctl.held < |s.log| && (s.present && s.ctl.held + 1 == |s.log| ==> s.creations == 0 && req.status.phase == NoPhase)
          else req.status.phase == NoPhase)
    && (s.ctl.Creating? && s.ctl.stage == CreatePod ==> s.creations == 0)
    && (s.ctl.Deleting? ==> req.deleted)
  }

  predicate PatchToCome(s: Sys) {
    s.ctl.Updating? && s.ctl.next <= |Writes(s.ctl.plan)| && PatchStatus in Writes(s.ctl.plan)[s.ctl.next..]
  }

  predicate Done(env: Env, pod: Pod, now: Time) {
    ResultOf(pod, env.cfg.timeout, now).done
  }

  predicate ExitedZero(env: Env, pod: Pod, now: Time) {
    Done(env, pod, now) && ResultOf(pod, env.cfg.timeout, now).result.exit == Some(0)
  }

  /** A pod that is there allows the phase a request was given: a terminal one needs its result. */
  predicate Allows(env: Env, pod: Option<Pod>, now: Time, phase: ApplyPhase) {
    Terminal(phase) && pod.Some? ==>
      phase != Refused && Done(env, pod.value, now) && (phase == RunSucceeded ==> ExitedZero(env, pod.value, now))
  }

  /** What an update in progress read, found and computes. */
  predicate UpdateInv(env: Env, s: Sys)
    requires s.log != []
  {
    && Allows(env, s.pod, s.now, Newest(s).status.phase)
    && (s.ctl.Updating? ==>
          var c := s.ctl;
          && c.next <= |Writes(c.plan)| && c.at <= s.now
          && (c.plan.pod.Some? || c.plan.expired ==> Terminal(c.status.phase))
          && (!PatchToCome(s) && s.present ==> Newest(s).status.phase != NoPhase)
          && (PatchToCome(s) ==>
                && !Terminal(c.read.phase) && c.status.phase != c.read.phase
                && c.status.phase == PhaseFrom(c.read.phase, c.found, env.cfg.timeout, c.at)
                && Allows(env, c.found, c.at, Newest(s).status.phase)
                && Allows(env, s.pod, s.now, c.status.phase)))
  }

  /** An exit or a success in a stored status was recorded on the incident; one about to be stored is recorded first. */
  predicate RecordInv(s: Sys) {
    && (forall v :: 0 <= v < |s.log| ==> Reported(s.log[v].status, s.recorded))
    && (s.ctl.Updating? ==> Reported(s.ctl.status, s.recorded || (s.ctl.next == 0 && s.ctl.plan.run.Some?)))
  }

  predicate Reported(st: ApplyStatus, recorded: bool) {
    st.exitCode.Some? || st.phase == RunSucceeded ==> recorded
  }

  /** A request whose pod was never created is without a phase or refused. */
  predicate NeverRan(s: Sys) {
    && (forall v :: 0 <= v < |s.log| ==> s.log[v].status.phase == NoPhase || s.log[v].status.phase == Refused)
    && (PatchToCome(s) ==> s.ctl.read.phase == NoPhase && s.ctl.found == None)
  }

  predicate RefusalInv(s: Sys) {
    s.creations == 0 ==> NeverRan(s)
  }

  predicate Inv(env: Env, s: Sys) {
    LogInv(s) && CreationInv(s) && UpdateInv(env, s) && RecordInv(s) && RefusalInv(s)
  }

  lemma LookFindsUpdate(env: Env, s: Sys, version: nat, rd: Reads, s': Sys)
    requires Inv(env, s) && LookStep(env, s, version, rd, s') && s'.ctl.Updating?
    ensures UpdateInv(env, s')
  {
    var st := s.log[version].status;
    DirtyExactly(st, rd, env.cfg, s.now);
    ObserveMovesForward(st, rd, env.cfg, s.now);
    assert Writes(s'.ctl.plan)[0..] == Writes(s'.ctl.plan);
    assert PatchStatus in Writes(s'.ctl.plan) <==> s'.ctl.plan.dirty;
  }

  lemma LookRefuses(env: Env, s: Sys, version: nat, rd: Reads, s': Sys)
    requires Inv(env, s) && LookStep(env, s, version, rd, s') && s'.ctl.Updating?
    ensures RefusalInv(s')
  {
    DirtyExactly(s.log[version].status, rd, env.cfg, s.now);
    assert Writes(s'.ctl.plan)[0..] == Writes(s'.ctl.plan);
  }

  lemma LookRecords(env: Env, s: Sys, version: nat, rd: Reads, s': Sys)
    requires RecordInv(s) && LookStep(env, s, version, rd, s')
    ensures RecordInv(s')
  {
    DirtyExactly(s.log[version].status, rd, env.cfg, s.now);
  }

  /** A create is begun only for the newest version when that has no phase, and no pod. */
  lemma LookCreates(env: Env, s: Sys, version: nat, rd: Reads, s': Sys)
    requires LogInv(s) && CreationInv(s) && LookStep(env, s, version, rd, s')
    ensures LogInv(s') && CreationInv(s')
  {
    ObserveMovesForward(s.log[version].status, rd, env.cfg, s.now);
  }

  lemma LookKeeps(env: Env, s: Sys, version: nat, rd: Reads, s': Sys)
    requires Inv(env, s) && LookStep(env, s, version, rd, s')
    ensures Inv(env, s')
  {
    LookRecords(env, s, version, rd, s');
    LookCreates(env, s, version, rd, s');
    if s'.ctl.Updating? {
      LookFindsUpdate(env, s, version, rd, s');
      LookRefuses(env, s, version, rd, s');
    }
  }

  /** Write k of an update, and whether the patch is still to come. */
  lemma WriteAt(plan: ApplyPlan, k: nat)
    requires k < |Writes(plan)|
    ensures plan.run.Some? && k == 0 ==> Writes(plan)[k] == RecordRun
    ensures Writes(plan)[k] == PatchStatus ==> plan.dirty && PatchStatus !in Writes(plan)[k + 1..]
    ensures Writes(plan)[k] == RecordRun ==> (PatchStatus in Writes(plan)[k..] <==> PatchStatus in Writes(plan)[k + 1..])
    ensures Writes(plan)[k] == DeletePod ==> plan.pod.Some? && PatchStatus !in Writes(plan)[k..]
    ensures Writes(plan)[k] == DeleteRequest ==> PatchStatus !in Writes(plan)[k..]
    ensures Writes(plan)[k] == PatchStatus ==> PatchStatus in Writes(plan)[k..]
    ensures PatchStatus !in Writes(plan)[k..] ==> PatchStatus !in Writes(plan)[k + 1..]
  {
    assert Writes(plan)[k..] == [Writes(plan)[k]] + Writes(plan)[k + 1..];
  }

  /** The next write is the status patch, and the request is there to take it. */
  predicate Patches(s: Sys) {
    && s.ctl.Updating? && s.ctl.next < |Writes(s.ctl.plan)| && Writes(s.ctl.plan)[s.ctl.next] == PatchStatus
    && s.present
  }

  lemma PatchKeeps(env: Env, s: Sys, s': Sys)
    requires Inv(env, s) && Patches(s) && UpdateStep(s, s')
    ensures Inv(env, s') && s'.creations == s.creations
    ensures Newest(s').status.phase == s.ctl.status.phase
    ensures Newest(s').status == Patched(Newest(s).status, s.ctl.read, s.ctl.status)
  {
    WriteAt(s.ctl.plan, s.ctl.next);
    var next := Patched(Newest(s).status, s.ctl.read, s.ctl.status);
    assert s'.log == s.log + [Newest(s).(status := next)];
    assert next.phase == s.ctl.status.phase;
  }

  /** What the controller's next write does to the stored status. */
  predicate Stored(s: Sys, s': Sys)
    requires s.log != []
  {
    && s'.log != []
    && if Patches(s)
       then Newest(s').status == Patched(Newest(s).status, s.ctl.read, s.ctl.status)
            && Newest(s').status.phase == s.ctl.status.phase
       else Newest(s').status == Newest(s).status
  }

  lemma DeletePodKeeps(env: Env, s: Sys, s': Sys)
    requires Inv(env, s) && s.ctl.Updating? && s.ctl.next < |Writes(s.ctl.plan)| && UpdateStep(s, s')
    requires Writes(s.ctl.plan)[s.ctl.next] == DeletePod
    ensures Inv(env, s') && s'.log == s.log && s'.creations == s.creations
  {
    WriteAt(s.ctl.plan, s.ctl.next);
    assert !PatchToCome(s) && !PatchToCome(s');
  }

  /** A write that leaves the log and the pod alone: recording the run, a patch that finds no request. */
  lemma SideWriteKeeps(env: Env, s: Sys, s': Sys)
    requires Inv(env, s) && s.ctl.Updating? && s.ctl.next < |Writes(s.ctl.plan)| && UpdateStep(s, s') && !Patches(s)
    requires Writes(s.ctl.plan)[s.ctl.next] == RecordRun || Writes(s.ctl.plan)[s.ctl.next] == PatchStatus
    ensures Inv(env, s') && s'.log == s.log && s'.creations == s.creations
  {
    WriteAt(s.ctl.plan, s.ctl.next);
    assert PatchToCome(s') ==> PatchToCome(s);
    assert PatchToCome(s) && s.present ==> PatchToCome(s');
  }

  lemma DeleteRequestKeeps(env: Env, s: Sys, s': Sys)
    requires Inv(env, s) && s.ctl.Updating? && s.ctl.next < |Writes(s.ctl.plan)| && UpdateStep(s, s')
    requires Writes(s.ctl.plan)[s.ctl.next] == DeleteRequest
    ensures Inv(env, s') && Newest(s').status == Newest(s).status
  {
    WriteAt(s.ctl.plan, s.ctl.next);
    assert !PatchToCome(s) && !PatchToCome(s');
  }

  lemma UpdateKeeps(env: Env, s: Sys, s': Sys)
    requires Inv(env, s) && s.ctl.Updating? && s.ctl.next < |Writes(s.ctl.plan)| && UpdateStep(s, s')
    ensures Inv(env, s') && s'.creations == s.creations && Stored(s, s')
  {
    if Patches(s) {
      PatchKeeps(env, s, s');
    } else if Writes(s.ctl.plan)[s.ctl.next] == DeleteRequest {
      DeleteRequestKeeps(env, s, s');
    } else if Writes(s.ctl.plan)[s.ctl.next] == DeletePod {
      DeletePodKeeps(env, s, s');
    } else {
      SideWriteKeeps(env, s, s');
    }
  }

  lemma CreateKeeps(env: Env, s: Sys, s': Sys)
    requires Inv(env, s) && s.ctl.Creating? && CreateStep(env, s, s')
    ensures Inv(env, s') && s.creations <= s'.creations && Newest(s').status == Newest(s).status
  {
    if s.ctl.stage == CreatePod && s.pod.None? {
      assert s'.log == s.log && !Terminal(Newest(s).status.phase);
    }
  }

  lemma ProceedKeeps(env: Env, s: Sys, s': Sys)
    requires Inv(env, s) && ProceedStep(env, s, s')
    ensures Inv(env, s') && s.creations <= s'.creations && Stored(s, s')
  {
    if s.ctl.Updating? {
      if s.ctl.next < |Writes(s.ctl.plan)| {
        UpdateKeeps(env, s, s');
      } else {
        StopKeeps(env, s, Idle);
      }
    } else if s.ctl.Creating? {
      CreateKeeps(env, s, s');
    } else {
      DeletingKeeps(env, s, s');
    }
  }

  lemma DeletingKeeps(env: Env, s: Sys, s': Sys)
    requires Inv(env, s) && s.ctl.Deleting? && ProceedStep(env, s, s')
    ensures Inv(env, s') && s'.log == s.log && s'.creations == s.creations
  {
    PodMovesKeep(env, s, Terminated(s.pod), s.now);
    StopKeeps(env, s.(pod := Terminated(s.pod)), Idle);
  }

  /** A pod's result, once there, stays through the kubelet's progress and time. */
  lemma ResultStays(env: Env, was: Pod, pod: Pod, now: Time, later: Time)
    requires Progress(was, pod) && now <= later
    ensures Done(env, was, now) ==> Done(env, pod, later)
    ensures ExitedZero(env, was, now) ==> ExitedZero(env, pod, later)
  {
    ExitExactly(was, env.cfg.timeout, now);
  }

  /** A reconcile that ends, or a create cut short once its mark is set, keeps the rest. */
  lemma StopKeeps(env: Env, s: Sys, ctl: Controller)
    requires Inv(env, s)
    requires ctl == Idle || (s.ctl.Creating? && s.ctl.stage != MarkPending && ctl == s.ctl.(stage := MarkDone))
    ensures Inv(env, s.(ctl := ctl))
  {
  }

  lemma LostKeeps(env: Env, s: Sys, ctl: Controller, s': Sys)
    requires Inv(env, s) && ProceedStep(env, s, s'.(ctl := ctl)) && s'.ctl == AfterFailure(s.ctl)
    ensures Inv(env, s') && s.creations <= s'.creations && Stored(s, s')
  {
    var done := s'.(ctl := ctl);
    ProceedKeeps(env, s, done);
    assert s' == done.(ctl := AfterFailure(s.ctl));
    StopKeeps(env, done, AfterFailure(s.ctl));
  }

  lemma FailKeeps(env: Env, s: Sys, s': Sys)
    requires Inv(env, s) && Next(env, s, Fail, s')
    ensures Inv(env, s')
  {
    StopKeeps(env, s, AfterFailure(s.ctl));
  }

  lemma UserDeletesKeeps(env: Env, s: Sys, s': Sys)
    requires Inv(env, s) && Next(env, s, UserDeletes, s')
    ensures Inv(env, s')
  {
    assert PatchToCome(s') <==> PatchToCome(s);
  }

  /** The pod or the clock moves on, and keeps what it gave. */
  lemma PodMovesKeep(env: Env, s: Sys, pod: Option<Pod>, now: Time)
    requires Inv(env, s) && s.now <= now
    requires pod.Some? ==> s.pod.Some? && Progress(s.pod.value, pod.value.(deleting := s.pod.value.deleting))
    requires s.present && !Newest(s).deleted && Newest(s).status.phase == NoPhase && s.pod.Some? && !s.pod.value.deleting
             ==> pod.Some? && !pod.value.deleting
    ensures Inv(env, s.(pod := pod, now := now))
  {
    var s' := s.(pod := pod, now := now);
    assert PatchToCome(s') <==> PatchToCome(s);
    AllowsStays(env, s.pod, pod, s.now, now, Newest(s).status.phase);
    if PatchToCome(s) {
      AllowsStays(env, s.pod, pod, s.now, now, s.ctl.status.phase);
    }
  }

  lemma AllowsStays(env: Env, was: Option<Pod>, pod: Option<Pod>, now: Time, later: Time, phase: ApplyPhase)
    requires now <= later && Allows(env, was, now, phase)
    requires pod.Some? ==> was.Some? && Progress(was.value, pod.value.(deleting := was.value.deleting))
    ensures Allows(env, pod, later, phase)
  {
    if pod.Some? {
      ResultStays(env, was.value, pod.value.(deleting := was.value.deleting), now, later);
    }
  }

  lemma NextKeeps(env: Env, s: Sys, l: Label, s': Sys)
    requires Inv(env, s) && Next(env, s, l, s')
    ensures Inv(env, s')
  {
    match l
    case Look(version, seen) => LookKeeps(env, s, version, seen, s');
    case Proceed => ProceedKeeps(env, s, s');
    case Lost =>
      var ctl :| ProceedStep(env, s, s'.(ctl := ctl));
      LostKeeps(env, s, ctl, s');
    case Fail => FailKeeps(env, s, s');
    case Restart => StopKeeps(env, s, Idle);
    case UserDeletes => UserDeletesKeeps(env, s, s');
    case Kubelet(p) => PodMovesKeep(env, s, Some(p), s.now);
    case PodGone => PodMovesKeep(env, s, None, s.now);
    case OthersDeletePod => PodMovesKeep(env, s, Terminated(s.pod), s.now);
    case Tick(to) => PodMovesKeep(env, s, s.pod, to);
  }

  lemma InitInv(env: Env, s: Sys)
    requires Init(s)
    ensures Inv(env, s)
  {
  }

  lemma {:induction false} AlwaysInv(env: Env, ss: seq<Sys>, ls: seq<Label>, i: nat)
    requires Behavior(env, ss, ls) && i < |ss|
    ensures Inv(env, ss[i])
  {
    if i == 0 {
      InitInv(env, ss[0]);
    } else {
      AlwaysInv(env, ss, ls, i - 1);
      NextKeeps(env, ss[i - 1], ls[i - 1], ss[i]);
    }
  }

  // ----- what a step stores -----

  predicate Writing(l: Label) {
    l.Proceed? || l.Lost?
  }

  /** Nothing but a patch changes the stored status. */
  lemma StatusStep(env: Env, s: Sys, l: Label, s': Sys)
    requires Inv(env, s) && Next(env, s, l, s')
    ensures s'.log != [] && s.creations <= s'.creations
    ensures if Writing(l) then Stored(s, s') else Newest(s').status == Newest(s).status
  {
    match l
    case Proceed => ProceedKeeps(env, s, s');
    case Lost =>
      var ctl :| ProceedStep(env, s, s'.(ctl := ctl));
      LostKeeps(env, s, ctl, s');
    case _ =>
  }

  /** A write that is no patch leaves the patch, and the log, to a later one. */
  lemma SideWrite(env: Env, s: Sys, s': Sys)
    requires s.log != [] && !Patches(s) && ProceedStep(env, s, s')
    ensures PatchToCome(s') ==> PatchToCome(s) && s'.ctl == s.ctl.(next := s'.ctl.next)
    ensures s'.present == s.present
    ensures s'.log == s.log || (|s'.log| == |s.log| + 1 && s'.log[..|s.log|] == s.log)
  {
    if s.ctl.Updating? && s.ctl.next < |Writes(s.ctl.plan)| {
      WriteAt(s.ctl.plan, s.ctl.next);
    }
  }

  /** A step that neither reads nor writes. */
  lemma ElseStep(env: Env, s: Sys, l: Label, s': Sys)
    requires s.log != [] && Next(env, s, l, s') && !l.Look? && !Writing(l)
    ensures s'.log != [] && Newest(s').status == Newest(s).status && s'.creations == s.creations
    ensures (s'.ctl == s.ctl && s'.present == s.present) || !s'.ctl.Updating?
  {
  }
}
