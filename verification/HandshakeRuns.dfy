/** Runs of the create handshake in which a reconcile reads an older version of the request than the newest. */
module HandshakeRuns {
  import opened Options
  import opened Clock
  import opened Incidents
  import opened CheckPods
  import opened Requests
  import opened Handshake

  ghost predicate Reaches(env: Env, s: Sys) {
    exists ss, ls :: Behavior(env, ss, ls) && ss[|ss| - 1] == s
  }

  lemma ReachNext(env: Env, s: Sys, l: Label, s': Sys)
    requires Reaches(env, s) && s.log != [] && Next(env, s, l, s')
    ensures Reaches(env, s')
  {
    var ss, ls :| Behavior(env, ss, ls) && ss[|ss| - 1] == s;
    var ss', ls' := ss + [s'], ls + [l];
    assert Behavior(env, ss', ls') && ss'[|ss'| - 1] == s';
  }

  const ENV := Env(ApplyConfig(MINUTE, HOUR), "u")

  /** What admission reads: it passes while the incident is Open. */
  function FactsAt(state: State): Facts {
    Facts(true, SECOND, Found(0), Found(0), Found(BLANK.(state := state, howToFix := Some(HowToFix("p", "a", "v")))),
          Missing, Found(()), Found(()))
  }

  function ReadsOf(pod: Option<Pod>, state: State): Reads {
    Reads(pod, false, false, Missing, [], FactsAt(state))
  }

  const FIRST := Request(NEW_REQUEST, false, false)
  const MARKED := FIRST.(incomplete := true)
  const STARTED := FIRST.(status := NEW_REQUEST.(phase := PodRunning, startedAt := Some(ZERO)))
  const ENDED := STARTED.(status := STARTED.status.(phase := RunSucceeded, exitCode := Some(0), finishedAt := Some(SECOND)))

  const NEW_POD := NewPod(ApplyName("u"), Apply, ZERO)
  const DONE_POD := NEW_POD.(phase := Succeeded, containers := [Container(CONTAINER_NAME, Some(CheckPods.Terminated(0, SECOND, [])))])

  function Updates(read: ApplyStatus, found: Option<Pod>, next: ApplyStatus, plan: ApplyPlan): Controller {
    Updating(read, found, [], ZERO, next, plan, 0)
  }

  /** A reconcile that reads version v and finds an update to do. */
  lemma ReachUpdate(s: Sys, v: nat, rd: Reads, o: ApplyObserved)
    requires Reaches(ENV, s) && s.ctl.Idle? && s.now == ZERO && v < |s.log| && !s.log[v].deleted
    requires rd.pod == s.pod && !rd.deleted && rd.createIncomplete == s.log[v].incomplete && rd.log == []
    requires ObserveRequest(s.log[v].status, rd, ENV.cfg, ZERO) == o && o.answer == Present(false)
    ensures Reaches(ENV, s.(ctl := Updates(s.log[v].status, s.pod, o.status, o.plan)))
  {
    ReachNext(ENV, s, Look(v, rd), s.(ctl := Updates(s.log[v].status, s.pod, o.status, o.plan)));
  }

  /** The status patch of an update. */
  lemma ReachPatch(s: Sys, req: Request)
    requires Reaches(ENV, s) && s.log != [] && s.present && s.ctl.Updating? && s.ctl.next < |Writes(s.ctl.plan)|
    requires Writes(s.ctl.plan)[s.ctl.next] == PatchStatus
    requires req == Newest(s).(status := Patched(Newest(s).status, s.ctl.read, s.ctl.status))
    ensures Reaches(ENV, s.(log := s.log + [req], ctl := s.ctl.(next := s.ctl.next + 1)))
    ensures Reaches(ENV, s.(log := s.log + [req], ctl := Idle))
  {
    var s' := s.(log := s.log + [req], ctl := s.ctl.(next := s.ctl.next + 1));
    ReachNext(ENV, s, Proceed, s');
    ReachIdle(s');
  }

  /** The reconcile is over, or its process is. */
  lemma ReachIdle(s: Sys)
    requires Reaches(ENV, s) && s.log != []
    ensures Reaches(ENV, s.(ctl := Idle))
  {
    ReachNext(ENV, s, Restart, s.(ctl := Idle));
  }

  const BEFORE := Sys([FIRST], true, None, Idle, ZERO, 0, false)
  const CREATED := Sys([FIRST, MARKED, FIRST], true, Some(NEW_POD), Idle, ZERO, 1, false)
  const RUNNING := Sys([FIRST, MARKED, FIRST, STARTED], true, Some(NEW_POD), Idle, ZERO, 1, false)
  const SUCCEEDED := Sys([FIRST, MARKED, FIRST, STARTED, ENDED], true, None, Idle, ZERO, 1, true)

  lemma Admits()
    ensures ObserveRequest(NEW_REQUEST, ReadsOf(None, Open), ENV.cfg, ZERO).answer == Absent
  {
    AdmittedExactly(FactsAt(Open));
    ObserveMovesForward(NEW_REQUEST, ReadsOf(None, Open), ENV.cfg, ZERO);
  }

  lemma ReachCreated()
    ensures Reaches(ENV, CREATED)
  {
    assert Behavior(ENV, [BEFORE], []) && [BEFORE][|[BEFORE]| - 1] == BEFORE;
    Admits();
    var s1 := BEFORE.(ctl := Creating(MarkPending, 0));
    ReachNext(ENV, BEFORE, Look(0, ReadsOf(None, Open)), s1);
    var s2 := s1.(log := [FIRST, MARKED], ctl := Creating(CreatePod, 0));
    ReachNext(ENV, s1, Proceed, s2);
    CreatesPod(s2);
  }

  lemma CreatesPod(s: Sys)
    requires Reaches(ENV, s) && s == Sys([FIRST, MARKED], true, None, Creating(CreatePod, 0), ZERO, 0, false)
    ensures Reaches(ENV, CREATED)
  {
    var s1 := s.(pod := Some(NEW_POD), creations := 1, ctl := Creating(CreateRest, 0));
    ReachNext(ENV, s, Proceed, s1);
    var s2 := s1.(ctl := Creating(MarkDone, 0));
    ReachNext(ENV, s1, Proceed, s2);
    assert [FIRST, MARKED] + [FIRST] == [FIRST, MARKED, FIRST];
    ReachNext(ENV, s2, Proceed, CREATED);
  }

  /** A request read without a phase whose pod is not done starts. */
  lemma FindsPod(st: ApplyStatus, rd: Reads, cfg: ApplyConfig, now: Time)
    requires st.phase == NoPhase && rd.pod.Some? && !rd.deleted && rd.script.Missing?
    requires !Finished(rd.pod.value.phase) && now < Overdue(rd.pod.value, cfg.timeout)
    ensures ObserveRequest(st, rd, cfg, now)
            == ApplyObserved(st.(phase := PodRunning, startedAt := Some(rd.pod.value.created)),
                             EMPTY_APPLY_PLAN.(dirty := true), Present(false))
  {
  }

  lemma StartedPatch()
    ensures Patched(NEW_REQUEST, NEW_REQUEST, STARTED.status) == STARTED.status
    ensures Writes(EMPTY_APPLY_PLAN.(dirty := true)) == [PatchStatus]
  {
  }

  lemma ReachRunning()
    ensures Reaches(ENV, RUNNING)
  {
    ReachCreated();
    FindsPod(NEW_REQUEST, ReadsOf(CREATED.pod, Open), ENV.cfg, ZERO);
    StartedPatch();
    StartsRunning(ApplyObserved(STARTED.status, EMPTY_APPLY_PLAN.(dirty := true), Present(false)));
  }

  lemma StartsRunning(o: ApplyObserved)
    requires Reaches(ENV, CREATED) && ObserveRequest(NEW_REQUEST, ReadsOf(CREATED.pod, Open), ENV.cfg, ZERO) == o
    requires o.status == STARTED.status && o.answer == Present(false) && Writes(o.plan) == [PatchStatus]
    ensures Reaches(ENV, RUNNING)
  {
    ReachUpdate(CREATED, 2, ReadsOf(CREATED.pod, Open), o);
    StoresRunning(CREATED.(ctl := Updates(NEW_REQUEST, CREATED.pod, o.status, o.plan)), o.plan);
  }

  lemma StoresRunning(s: Sys, plan: ApplyPlan)
    requires Reaches(ENV, s) && Writes(plan) == [PatchStatus]
    requires s == CREATED.(ctl := Updates(NEW_REQUEST, CREATED.pod, STARTED.status, plan))
    ensures Reaches(ENV, RUNNING)
  {
    StartedPatch();
    assert Newest(s) == FIRST;
    ReachPatch(s, STARTED);
    assert s.(log := s.log + [STARTED], ctl := Idle) == RUNNING;
  }

  lemma DonePodResult()
    ensures ResultOf(DONE_POD, MINUTE, ZERO) == Outcome(RunResult(Apply, Some(0), SECOND, []), true)
  {
    assert |DEADLINE_EXCEEDED| > |DONE_POD.reason|;
    var c := DONE_POD.containers[0];
    assert GivesExit(c) && GivesTime(c);
    EndOfRun(DONE_POD, MINUTE, ZERO, 0);
    ExitExactly(DONE_POD, MINUTE, ZERO);
  }

  lemma FindsSuccess(plan: ApplyPlan)
    requires plan == ApplyPlan(None, true, true, Some(RunResult(Apply, Some(0), SECOND, [])), Some(DONE_POD.name), false)
    ensures ObserveRequest(STARTED.status, ReadsOf(Some(DONE_POD), Open), ENV.cfg, ZERO)
            == ApplyObserved(ENDED.status, plan, Present(false))
  {
    DonePodResult();
  }

  /** Then it exits 0, Succeeded is stored, and the pod goes. */
  lemma ReachSucceeded()
    ensures Reaches(ENV, SUCCEEDED)
  {
    ReachRunning();
    var s1 := RUNNING.(pod := Some(DONE_POD));
    ReachNext(ENV, RUNNING, Kubelet(DONE_POD), s1);
    var plan := ApplyPlan(None, true, true, Some(RunResult(Apply, Some(0), SECOND, [])), Some(DONE_POD.name), false);
    FindsSuccess(plan);
    ReachUpdate(s1, 3, ReadsOf(s1.pod, Open), ApplyObserved(ENDED.status, plan, Present(false)));
    StoresSuccess(s1.(ctl := Updates(STARTED.status, s1.pod, ENDED.status, plan)), plan);
  }

  lemma ReachRecorded(s: Sys)
    requires Reaches(ENV, s) && s.log != [] && s.ctl.Updating? && s.ctl.next < |Writes(s.ctl.plan)|
    requires Writes(s.ctl.plan)[s.ctl.next] == RecordRun
    ensures Reaches(ENV, s.(recorded := true, ctl := s.ctl.(next := s.ctl.next + 1)))
  {
    ReachNext(ENV, s, Proceed, s.(recorded := true, ctl := s.ctl.(next := s.ctl.next + 1)));
  }

  lemma SuccessPatch()
    ensures Patched(STARTED.status, STARTED.status, ENDED.status) == ENDED.status
  {
  }

  lemma StoresSuccess(s: Sys, plan: ApplyPlan)
    requires plan.run.Some? && plan.dirty && plan.pod.Some? && !plan.expired && Reaches(ENV, s)
    requires s == RUNNING.(pod := Some(DONE_POD), ctl := Updates(STARTED.status, Some(DONE_POD), ENDED.status, plan))
    ensures Reaches(ENV, SUCCEEDED)
  {
    assert Writes(plan) == [RecordRun, PatchStatus, DeletePod];
    ReachRecorded(s);
    var s1 := s.(recorded := true, ctl := s.ctl.(next := 1));
    SuccessPatch();
    assert Newest(s1) == STARTED;
    ReachPatch(s1, ENDED);
    var s2 := s1.(log := s.log + [ENDED], ctl := s1.ctl.(next := 2));
    PodGoes(s2);
    assert s2.(pod := None, ctl := Idle) == SUCCEEDED;
  }

  lemma PodGoes(s: Sys)
    requires Reaches(ENV, s) && s.log != [] && s.ctl.Updating? && s.pod.Some?
    requires s.ctl.next < |Writes(s.ctl.plan)| && Writes(s.ctl.plan)[s.ctl.next] == DeletePod
    ensures Reaches(ENV, s.(pod := None, ctl := Idle))
  {
    var s1 := s.(pod := Handshake.Terminated(s.pod), ctl := s.ctl.(next := s.ctl.next + 1));
    ReachNext(ENV, s, Proceed, s1);
    ReachIdle(s1);
    ReachNext(ENV, s1.(ctl := Idle), PodGone, s.(pod := None, ctl := Idle));
  }

  /** A version of the request says it succeeded, and the newest another phase. */
  predicate Overwritten(s: Sys, phase: ApplyPhase) {
    && s.log != [] && Newest(s).status.phase == phase && s.creations == 1
    && exists v :: 0 <= v < |s.log| && s.log[v].status.phase == RunSucceeded
  }

  /** A reconcile without a pod ends a request read running, and refuses one read without a phase and not admitted. */
  lemma FindsNoPod(st: ApplyStatus, rd: Reads, cfg: ApplyConfig, now: Time, phase: ApplyPhase)
    requires !Terminal(st.phase) && st.exitCode == None && st.output == [] && rd.pod.None? && !rd.deleted && !rd.createIncomplete
    requires Admission(rd.facts).Refuse? && phase == PhaseFrom(st.phase, None, cfg.timeout, now)
    requires now < Rfc3339Copy(now) + cfg.ttl
    ensures ObserveRequest(st, rd, cfg, now)
            == ApplyObserved(st.(phase := phase, finishedAt := Some(Rfc3339Copy(now))),
                             EMPTY_APPLY_PLAN.(dirty := true, finished := true), Present(false))
  {
  }

  lemma NotAdmitted()
    ensures Admission(FactsAt(Verifying)).Refuse?
  {
    AdmittedExactly(FactsAt(Verifying));
  }

  /** A reconcile that reads version v without a pod overwrites the success. */
  lemma ReachOverwritten(v: nat, read: ApplyStatus, rd: Reads, phase: ApplyPhase) returns (s: Sys)
    requires v < 4 && SUCCEEDED.log[v] == FIRST.(status := read) && !Terminal(read.phase)
    requires read.exitCode == None && read.output == [] && rd == ReadsOf(None, Verifying)
    requires phase == PhaseFrom(read.phase, None, ENV.cfg.timeout, ZERO) && phase != read.phase
    ensures Reaches(ENV, s) && Overwritten(s, phase) && Newest(s).status.exitCode == Some(0)
  {
    ReachSucceeded();
    NotAdmitted();
    FindsNoPod(read, rd, ENV.cfg, ZERO, phase);
    var o := ApplyObserved(read.(phase := phase, finishedAt := Some(ZERO)),
                           EMPTY_APPLY_PLAN.(dirty := true, finished := true), Present(false));
    ReachUpdate(SUCCEEDED, v, rd, o);
    s := StoresOverSuccess(SUCCEEDED.(ctl := Updates(read, None, o.status, o.plan)), phase);
  }

  lemma StoresOverSuccess(s0: Sys, phase: ApplyPhase) returns (s: Sys)
    requires Reaches(ENV, s0) && s0.ctl.Updating? && s0 == SUCCEEDED.(ctl := s0.ctl) && s0.ctl.next == 0
    requires s0.ctl.plan == EMPTY_APPLY_PLAN.(dirty := true, finished := true)
    requires s0.ctl.read.exitCode == None && s0.ctl.read.phase != phase
    requires s0.ctl.status == s0.ctl.read.(phase := phase, finishedAt := Some(ZERO))
    ensures Reaches(ENV, s) && Overwritten(s, phase) && Newest(s).status.exitCode == Some(0)
  {
    assert Writes(s0.ctl.plan) == [PatchStatus];
    var stored := ENDED.(status := Patched(ENDED.status, s0.ctl.read, s0.ctl.status));
    assert Newest(s0) == ENDED;
    ReachPatch(s0, stored);
    s := s0.(log := s0.log + [stored], ctl := Idle);
    assert s.log[4] == ENDED;
  }

  /** A run in which a reconcile that reads the request as it was while running stores Failed over its success, exit 0 and all. */
  lemma SuccessCanTurnFailed()
    ensures exists s :: Reaches(ENV, s) && Overwritten(s, RunFailed) && Newest(s).status.exitCode == Some(0)
  {
    var s := ReachOverwritten(3, STARTED.status, ReadsOf(None, Verifying), RunFailed);
  }

  /** And one in which a reconcile that reads it as it was created refuses it, its run having moved the incident on. */
  lemma SuccessCanTurnRefused()
    ensures exists s :: Reaches(ENV, s) && Overwritten(s, Refused) && Newest(s).status.exitCode == Some(0)
  {
    var s := ReachOverwritten(0, NEW_REQUEST, ReadsOf(None, Verifying), Refused);
  }
}
