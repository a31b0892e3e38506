/** Runs of the system, step by step: what the theorems leave possible does happen. */
module SystemRuns {
  import opened Options
  import opened Clock
  import opened Incidents
  import opened CheckPods
  import opened Storage
  import opened Reconcile
  import opened Lifecycle
  import opened System
  import opened SystemInvariants
  import opened SystemTheorems
  import opened Stay
  import opened OldRuns
  import Output
  import Machine

  ghost predicate Reaches(env: Env, s: Sys) {
    exists ss, ls :: Behavior(env, ss, ls) && ss[|ss| - 1] == s
  }

  lemma ReachNext(env: Env, s: Sys, l: Label, s': Sys)
    requires Reaches(env, s) && s.store.log != [] && Next(env, s, l, s')
    ensures Reaches(env, s')
  {
    var ss, ls :| Behavior(env, ss, ls) && ss[|ss| - 1] == s;
    var ss', ls' := ss + [s'], ls + [l];
    assert Behavior(env, ss', ls') && ss'[|ss'| - 1] == s';
  }

  // ----- the steps of a round -----

  predicate Ran(s: Sys) {
    s.store.log != []
  }

  predicate Ready(env: Env, s: Sys) {
    s.store.log != [] && s.ctl.Idle?
  }

  lemma Begins(env: Env, s: Sys, version: nat, listed: seq<Pod>) returns (s': Sys)
    requires Reaches(env, s) && Ready(env, s) && version < |s.store.log|
    requires Lists(listed, s.store.pods) && SortedByCreation(listed)
    ensures Reaches(env, s') && s'.store == s.store && s'.now == s.now
    ensures var read := s.store.log[version];
            var found := Observe(env.cfg, read.status, read.spec, s.lastRun, listed, s.now);
            s'.ctl == Busy(version, s.lastRun, listed, s.now, found, version, 0) && s'.lastRun == found.lastRun
  {
    var read := s.store.log[version];
    var found := Observe(env.cfg, read.status, read.spec, s.lastRun, listed, s.now);
    s' := s.(ctl := Busy(version, s.lastRun, listed, s.now, found, version, 0), lastRun := found.lastRun,
             reported := s.reported + FoldReports(env.cfg, Begin(read.status, read.spec, s.lastRun, s.now), listed, s.now));
    ReachNext(env, s, BeginRound(version, listed), s');
  }

  lemma Persisted(env: Env, s: Sys) returns (s': Sys)
    requires Reaches(env, s) && s.ctl.Busy? && s.ctl.found.plan.dirty && s.ctl.next == 0
    requires s.ctl.base + 1 == |s.store.log| && s.ctl.held == s.ctl.base
    ensures Reaches(env, s') && s'.now == s.now && s'.lastRun == s.lastRun
    ensures s'.store == s.store.(log := s.store.log + [Entry(Newest(s.store).spec, s.ctl.found.status, CheckStatus)])
    ensures s'.ctl == s.ctl.(held := s.ctl.held + 1, next := 1)
  {
    var c, read := s.ctl, s.store.log[s.ctl.base];
    s' := s.(store := s.store.(log := s.store.log + [Entry(Newest(s.store).spec, c.found.status, CheckStatus)]),
             ctl := c.(held := c.held + 1, next := 1),
             trace := s.trace + RoundEvents(env.cfg, read.status, read.spec, c.lastRun, c.order, c.at));
    assert RoundWrites(env, c)[0] == PersistStatus;
    ReachNext(env, s, WriteDone, s');
  }

  lemma ResetDone(env: Env, s: Sys) returns (s': Sys)
    requires Reaches(env, s) && s.ctl.Busy? && s.ctl.found.plan.dirty && s.ctl.found.plan.consumeApplied && s.ctl.next == 1
    requires s.ctl.held + 1 == |s.store.log| && s.ctl.base < |s.store.log|
    ensures Reaches(env, s') && s'.now == s.now && s'.lastRun == s.lastRun && s'.ctl.Idle?
    ensures s'.store == s.store.(log := s.store.log
                                   + [Entry(Newest(s.store).spec.(applied := false), Newest(s.store).status, CheckReset)])
  {
    var c := s.ctl;
    var done := Perform(s.store, c.held, c.found.status, ResetApplied, s.now).value;
    s' := s.(store := done.store, ctl := Idle);
    assert RoundWrites(env, c)[1] == ResetApplied;
    ReachNext(env, s, WriteLost, s');
  }

  lemma Ticks(env: Env, s: Sys, now: Time) returns (s': Sys)
    requires Reaches(env, s) && s.store.log != [] && s.now <= now
    ensures Reaches(env, s') && s' == s.(now := now)
  {
    s' := s.(now := now);
    ReachNext(env, s, Tick(now), s');
  }

  /** A person applies. */
  lemma Applies(env: Env, s: Sys) returns (s': Sys)
    requires Reaches(env, s) && s.store.log != [] && !Newest(s.store).spec.closed
    ensures Reaches(env, s')
    ensures s' == s.(store := s.store.(log := s.store.log + [Entry(Spec(true, false), Newest(s.store).status, Human)]))
  {
    s' := s.(store := s.store.(log := s.store.log + [Entry(Spec(true, false), Newest(s.store).status, Human)]));
    ReachNext(env, s, HumanEdit(Spec(true, false)), s');
  }

  // ----- a run up to the first apply -----

  const ENV := Env(Config(MINUTE, MINUTE, MINUTE), "u")

  /** The first second of 1970, and a minute more, and so on. */
  const START: Time := (EPOCH_SECONDS + 1) * SECOND

  const OPENED := BLANK.(state := Open, howToFix := Some(HowToFix("", "a", "v")))

  /** Applied by a person at w, and not checked since. */
  function AppliedAt(w: Time): Status {
    OPENED.(state := Verifying, verifyingSince := Some(w),
            lastChecks := Some(LastChecks(None, Some(LastCheck(None, w, [])), None)))
  }

  /** Open and not checked yet, or Verifying since some time with nothing but an apply recorded. */
  ghost predicate Appliable(st: Status) {
    st == OPENED || exists v, c :: st == VerifyingWith(v, c)
  }

  function VerifyingWith(v: Time, c: LastCheck): Status {
    OPENED.(state := Verifying, verifyingSince := Some(v), lastChecks := Some(LastChecks(None, Some(c), None)))
  }

  lemma AppliedIsAppliable(w: Time)
    ensures Appliable(AppliedAt(w))
  {
    assert AppliedAt(w) == VerifyingWith(w, LastCheck(None, w, []));
  }

  lemma AppliedIs(st: Status, w: Time)
    requires WholeSecond(w) && Appliable(st)
    ensures Machine.ApplySpec(st, Spec(true, false), w)
            == Machine.Applied(AppliedAt(w), Machine.ApplySpec(st, Spec(true, false), w).changes, true)
  {
  }

  lemma ReachOpen() returns (s: Sys)
    ensures Reaches(ENV, s) && Ready(ENV, s) && s.store.pods == map[] && s.now == START && s.lastRun == ZERO
    ensures Newest(s.store) == Entry(Spec(false, false), OPENED, Writer.Analyst)
  {
    var none := Spec(false, false);
    var s0 := Sys(Store([Entry(none, BLANK, Creator)], map[]), START, ZERO, Idle, [], []);
    assert Behavior(ENV, [s0], []) && [s0][|[s0]| - 1] == s0;
    var s1 := s0.(store := Append(s0, none, BLANK.(state := Analyzing), Writer.Analyst), trace := [Analyze]);
    ReachNext(ENV, s0, Label.Analyst(Analyze), s1);
    var e := Analyzed(Some(HowToFix("", "a", "v")));
    s := s1.(store := Append(s1, none, OPENED, Writer.Analyst), trace := [Analyze, e]);
    ReachNext(ENV, s1, Label.Analyst(e), s);
  }

  /** The pods a round may keep: none, or one that still runs. */
  predicate NothingDone(listed: seq<Pod>, now: Time) {
    && |listed| <= 1
    && forall p :: p in listed ==>
         !p.deleting && p.script == Verify && !Finished(p.phase) && now < Overdue(p, ENV.cfg.checkTimeout)
  }

  /** What a round of a status to apply makes of it, when no pod is done. */
  lemma AppliesFound(st: Status, lastRun: Time, listed: seq<Pod>, now: Time)
    requires WholeSecond(now) && NothingDone(listed, now) && Appliable(st)
    ensures var found := Observe(ENV.cfg, st, Spec(true, false), lastRun, listed, now);
            found.status == AppliedAt(now) && found.lastRun == lastRun && found.plan.dirty && found.plan.consumeApplied
  {
    AppliedIs(st, now);
    var a := Begin(st, Spec(true, false), lastRun, now);
    if listed != [] {
      assert listed[0] in listed && listed[1..] == [];
      assert Machine.CurrentScript(a.status) == Verify;
      assert Visit(ENV.cfg, a, listed[0], now) == a.(live := Some(listed[0]));
      assert Fold(ENV.cfg, a, listed, now) == Fold(ENV.cfg, a.(live := Some(listed[0])), [], now);
    }
  }

  /** A person applies, and a reconcile acts on it: three versions on, the window starts now. */
  lemma AppliedRound(s: Sys, listed: seq<Pod>) returns (s': Sys)
    requires Reaches(ENV, s) && Ready(ENV, s) && !Newest(s.store).spec.closed && WholeSecond(s.now)
    requires Lists(listed, s.store.pods) && NothingDone(listed, s.now)
    requires Appliable(Newest(s.store).status)
    ensures Reaches(ENV, s') && Ready(ENV, s') && s'.now == s.now && s'.lastRun == s.lastRun && s'.store.pods == s.store.pods
    ensures |s'.store.log| == |s.store.log| + 3 && forall v :: 0 <= v < |s.store.log| ==> s'.store.log[v] == s.store.log[v]
    ensures s'.store.log[|s.store.log|] == Entry(Spec(true, false), Newest(s.store).status, Human)
    ensures s'.store.log[|s.store.log| + 1] == Entry(Spec(true, false), AppliedAt(s.now), CheckStatus)
    ensures Newest(s'.store) == Entry(Spec(false, false), AppliedAt(s.now), CheckReset)
  {
    var s1 := Applies(ENV, s);
    AppliesFound(Newest(s.store).status, s.lastRun, listed, s.now);
    var s2 := Begins(ENV, s1, |s.store.log|, listed);
    var s3 := Persisted(ENV, s2);
    s' := ResetDone(ENV, s3);
  }

  /** Verifying since the first second, and a minute on: the first check is due. */
  lemma ReachVerifying() returns (s: Sys)
    ensures Reaches(ENV, s) && Ready(ENV, s) && s.store.pods == map[] && s.now == START + MINUTE && s.lastRun == ZERO
    ensures Newest(s.store) == Entry(Spec(false, false), AppliedAt(START), CheckReset)
  {
    var s0 := ReachOpen();
    var s1 := AppliedRound(s0, []);
    s := Ticks(ENV, s1, START + MINUTE);
  }

  /** A round of a version that has nothing to apply, and whose check is due. */
  lemma DueFound(w: Time, now: Time)
    requires w > ZERO && now >= w + MINUTE
    ensures var found := Observe(ENV.cfg, AppliedAt(w), Spec(false, false), ZERO, [], now);
            && found.status == AppliedAt(w) && found.lastRun == ZERO
            && found.plan == EMPTY_PLAN.(due := true, from := w)
  {
  }

  lemma BeginsDue(s: Sys, version: nat, w: Time) returns (s': Sys)
    requires Reaches(ENV, s) && Ready(ENV, s) && s.store.pods == map[] && s.lastRun == ZERO && version < |s.store.log|
    requires s.store.log[version].status == AppliedAt(w) && s.store.log[version].spec == Spec(false, false)
    requires w > ZERO && s.now >= w + MINUTE
    ensures Reaches(ENV, s') && s'.store == s.store && s'.now == s.now && s'.lastRun == ZERO && s'.ctl.Busy?
    ensures s'.ctl.base == version && s'.ctl.next == 0 && s'.ctl.found.status == AppliedAt(w)
    ensures s'.ctl.found.plan == EMPTY_PLAN.(due := true, from := w)
    ensures RoundWrites(ENV, s'.ctl) == [StartCheck(CheckName("u", Verify, w), Verify)]
  {
    DueFound(w, s.now);
    s' := Begins(ENV, s, version, []);
  }

  /** The round starts its check. */
  lemma StartsDue(s: Sys, w: Time) returns (s': Sys)
    requires Reaches(ENV, s) && Ran(s) && s.store.pods == map[] && s.ctl.Busy? && s.ctl.base < |s.store.log| && s.ctl.next == 0
    requires s.ctl.found.plan == EMPTY_PLAN.(due := true, from := w) && Machine.CurrentScript(s.ctl.found.status) == Verify
    requires RoundWrites(ENV, s.ctl) == [StartCheck(CheckName("u", Verify, w), Verify)]
    ensures Reaches(ENV, s') && Next(ENV, s, WriteDone, s') && Starts(ENV, s, s')
    ensures var name := CheckName("u", Verify, w);
            s' == s.(store := s.store.(pods := map[name := NewPod(name, Verify, s.now)]), ctl := s.ctl.(next := 1))
  {
    var name := CheckName("u", Verify, w);
    s' := s.(store := s.store.(pods := map[name := NewPod(name, Verify, s.now)]), ctl := s.ctl.(next := 1));
    assert Perform(s.store, s.ctl.held, s.ctl.found.status, StartCheck(name, Verify), s.now) == Some(Written(s'.store, s.ctl.held));
    ReachNext(ENV, s, WriteDone, s');
  }

  /** A round starts the check of window w, and is over. */
  lemma ReachStarted(s: Sys, version: nat, w: Time) returns (s': Sys)
    requires Reaches(ENV, s) && Ready(ENV, s) && s.store.pods == map[] && s.lastRun == ZERO && version < |s.store.log|
    requires s.store.log[version].status == AppliedAt(w) && s.store.log[version].spec == Spec(false, false)
    requires w > ZERO && s.now >= w + MINUTE
    ensures Reaches(ENV, s') && Ready(ENV, s') && s'.now == s.now && s'.lastRun == ZERO && s'.store.log == s.store.log
    ensures var name := CheckName("u", Verify, w); s'.store.pods == map[name := NewPod(name, Verify, s.now)]
  {
    var s1 := BeginsDue(s, version, w);
    var s2 := StartsDue(s1, w);
    s' := Fails(ENV, s2);
  }

  /** The kubelet moves the one pod on. */
  lemma PodMoves(env: Env, s: Sys, p: Pod, p': Pod) returns (s': Sys)
    requires Reaches(env, s) && Ran(s) && s.store.pods == map[p.name := p] && p'.name == p.name && Progress(p, p')
    ensures Reaches(env, s') && s' == s.(store := s.store.(pods := map[p'.name := p']))
  {
    s' := s.(store := s.store.(pods := map[p'.name := p']));
    ReachNext(env, s, Kubelet(p'), s');
  }

  /** The reconcile fails. */
  lemma Fails(env: Env, s: Sys) returns (s': Sys)
    requires Reaches(env, s) && Ran(s) && s.ctl.Busy?
    ensures Reaches(env, s') && s' == s.(ctl := Idle)
  {
    s' := s.(ctl := Idle);
    ReachNext(env, s, WriteFailed, s');
  }

  lemma ReachesInv(env: Env, s: Sys)
    requires Reaches(env, s)
    ensures Inv(env, s)
  {
    var ss, ls :| Behavior(env, ss, ls) && ss[|ss| - 1] == s;
    AlwaysInv(env, ss, ls, |ss| - 1);
  }

  /** A round that lists an old pod done reports it, and its exit 0 resolves. */
  lemma OldRunReached(env: Env, s: Sys, w: Time, p: Pod)
    requires Reaches(env, s) && InWindow(env, s, w) && OldPod(env, s, w, p)
    ensures ReportsOldRun(env, s, w)
    ensures s.ctl.found.status.state == Resolved <==> ResultOf(p, env.cfg.checkTimeout, s.ctl.at).result.exit == Some(0)
  {
    ReachesInv(env, s);
    OldRunCounts(env, s, w, p);
  }

  // ----- a check started early -----

  /**
    A run in which a round reads a version of the window before: it starts a check less than a poll interval
    into the newest window.
   */
  lemma StaleVersionStartsEarly()
    ensures exists s, s', w ::
              && Reaches(ENV, s) && Ran(s) && Next(ENV, s, WriteDone, s') && s.ctl.Busy? && Starts(ENV, s, s')
              && Machine.CurrentScript(s.ctl.found.status) == Verify
              && Newest(s.store).status.verifyingSince == Some(w) && s.now < w + ENV.cfg.pollInterval
  {
    var s0 := ReachVerifying();
    var w := START + MINUTE;
    AppliedIsAppliable(START);
    var s1 := AppliedRound(s0, []);
    var s := BeginsDue(s1, |s0.store.log| - 1, START);
    var s' := StartsDue(s, START);
    assert Newest(s.store).status.verifyingSince == Some(w);
  }

  // ----- a run of an older window -----

  /** The check of the window that starts at START, created a minute on. */
  function FirstPod(): Pod {
    NewPod(CheckName("u", Verify, START), Verify, START + MINUTE)
  }

  /** It exits 0 at second two minutes. */
  function DonePod(): Pod {
    FirstPod().(phase := Succeeded, containers := [Container(CONTAINER_NAME, Some(Terminated(0, START + 2 * MINUTE, [])))])
  }

  lemma Lone(p: Pod)
    ensures Lists([p], map[p.name := p]) && SortedByCreation([p])
  {
  }

  /** A result of one container with an exit. */
  lemma ResultOfOne(pod: Pod, t: CheckPods.Terminated, timeout: Duration, now: Time)
    requires Finished(pod.phase) && pod.reason == "" && pod.containers == [Container(CONTAINER_NAME, Some(t))]
    requires t.finishedAt != ZERO && 0 <= t.exitCode <= 255
    ensures ResultOf(pod, timeout, now) == Outcome(RunResult(pod.script, Some(t.exitCode), t.finishedAt, t.message), true)
  {
    assert |DEADLINE_EXCEEDED| > |pod.reason|;
    var c := pod.containers[0];
    assert GivesExit(c) && GivesTime(c);
    EndOfRun(pod, timeout, now, 0);
    ExitExactly(pod, timeout, now);
  }

  /** The first check runs when the person applies again at two minutes. */
  lemma ReachInFlight() returns (s: Sys)
    ensures Reaches(ENV, s) && Ready(ENV, s) && s.store.pods == map[FirstPod().name := FirstPod()]
    ensures s.now == START + 2 * MINUTE && s.lastRun == ZERO
    ensures Newest(s.store).spec == Spec(false, false) && Newest(s.store).status == AppliedAt(START)
  {
    var s0 := ReachVerifying();
    var s1 := ReachStarted(s0, |s0.store.log| - 1, START);
    s := Ticks(ENV, s1, START + 2 * MINUTE);
  }

  lemma FirstPodRuns()
    ensures NothingDone([FirstPod()], START + 2 * MINUTE) && WholeSecond(START + 2 * MINUTE)
    ensures Progress(FirstPod(), DonePod()) && Progress(FirstPod(), FailedPod())
    ensures DonePod().name == FirstPod().name == FailedPod().name
  {
  }

  lemma ReachOverlap() returns (s: Sys)
    ensures Reaches(ENV, s) && Ready(ENV, s) && s.store.pods == map[DonePod().name := DonePod()]
    ensures s.now == START + 2 * MINUTE
    ensures Newest(s.store) == Entry(Spec(false, false), AppliedAt(START + 2 * MINUTE), CheckReset)
  {
    var s0 := ReachInFlight();
    FirstPodRuns();
    Lone(FirstPod());
    AppliedIsAppliable(START);
    var s1 := AppliedRound(s0, [FirstPod()]);
    s := PodMoves(ENV, s1, FirstPod(), DonePod());
  }

  /** A round of the newest version begins. */
  lemma BeginsNewest(env: Env, s: Sys, listed: seq<Pod>) returns (l: Label, s': Sys)
    requires Reaches(env, s) && Ready(env, s) && Lists(listed, s.store.pods) && SortedByCreation(listed)
    ensures l == BeginRound(|s.store.log| - 1, listed) && Next(env, s, l, s') && Reaches(env, s')
    ensures s'.ctl.Busy? && s'.ctl.base == |s.store.log| - 1 && s'.ctl.order == listed && s'.ctl.at == s.now && s'.store == s.store
    ensures s'.now == s.now
  {
    l := BeginRound(|s.store.log| - 1, listed);
    var read := Newest(s.store);
    var found := Observe(env.cfg, read.status, read.spec, s.lastRun, listed, s.now);
    s' := s.(ctl := Busy(|s.store.log| - 1, s.lastRun, listed, s.now, found, |s.store.log| - 1, 0), lastRun := found.lastRun,
             reported := s.reported + FoldReports(env.cfg, Begin(read.status, read.spec, s.lastRun, s.now), listed, s.now));
    ReachNext(env, s, l, s');
  }

  /** A round in the window of the newest version lists the one pod. */
  lemma BeginsInWindow(s: Sys, w: Time, p: Pod) returns (s': Sys)
    requires Reaches(ENV, s) && Ready(ENV, s) && s.store.pods == map[p.name := p]
    requires Newest(s.store).status == AppliedAt(w) && Newest(s.store).spec == Spec(false, false)
    ensures Reaches(ENV, s') && Ran(s') && s'.now == s.now
    ensures InWindow(ENV, s', w) && s'.ctl.order == [p] && s'.ctl.at == s.now
  {
    Lone(p);
    var l;
    l, s' := BeginsNewest(ENV, s, [p]);
    assert Decided(s') == AppliedAt(w);
  }

  /** The round that finds the check done, in the window of the second apply. */
  lemma ReachOldRun() returns (s: Sys)
    ensures Reaches(ENV, s) && Ran(s) && s.now == START + 2 * MINUTE
    ensures InWindow(ENV, s, START + 2 * MINUTE) && s.ctl.order == [DonePod()] && s.ctl.at == s.now
  {
    var s0 := ReachOverlap();
    s := BeginsInWindow(s0, START + 2 * MINUTE, DonePod());
  }

  /**
    A run in which a check started before a person applies again, and ended no sooner, resolves the incident:
    its exit 0 is recorded in the window of the second apply.
   */
  lemma InFlightRunInNewWindow()
    ensures exists s, w, p ::
              && Reaches(ENV, s) && Ran(s) && InWindow(ENV, s, w) && OldPod(ENV, s, w, p) && Sane(p)
              && p.created < w <= ResultOf(p, ENV.cfg.checkTimeout, s.ctl.at).result.at
              && ReportsOldRun(ENV, s, w) && s.ctl.found.status.state == Resolved
  {
    var s := ReachOldRun();
    var w := START + 2 * MINUTE;
    DoneIsOld(s.ctl.at);
    assert s.ctl.order[0] == DonePod();
    OldRunReached(ENV, s, w, DonePod());
  }

  lemma DoneIsOld(now: Time)
    ensures Sane(DonePod()) && DonePod().created < START + 2 * MINUTE && DonePod().script == Verify && !DonePod().deleting
    ensures ResultOf(DonePod(), ENV.cfg.checkTimeout, now) == Outcome(RunResult(Verify, Some(0), START + 2 * MINUTE, []), true)
  {
    ResultOfOne(DonePod(), CheckPods.Terminated(0, START + 2 * MINUTE, []), ENV.cfg.checkTimeout, now);
  }

  // ----- an apply acted on twice -----

  /** The status is stored, and the process replaced before the reset. */
  lemma ReachUnreset() returns (s: Sys, j: nat)
    ensures Reaches(ENV, s) && Ready(ENV, s) && s.store.pods == map[] && s.now == START + MINUTE && s.lastRun == ZERO
    ensures 0 < j == |s.store.log| - 1 && s.store.log[j] == Entry(Spec(true, false), AppliedAt(START), CheckStatus)
    ensures s.store.log[j - 1].spec == Spec(true, false) && s.store.log[j - 1].status == OPENED
  {
    var s0 := ReachOpen();
    var s1 := Applies(ENV, s0);
    j := |s1.store.log|;
    AppliesFound(OPENED, ZERO, [], START);
    var s2 := Begins(ENV, s1, j - 1, []);
    var s3 := Persisted(ENV, s2);
    var s4 := s3.(ctl := Idle, reported := []);
    ReachNext(ENV, s3, Restart, s4);
    s := Ticks(ENV, s4, START + MINUTE);
  }

  /** A run in which the reset is lost with its process, and the next reconcile acts on the same spec.applied and restarts the window. */
  lemma AppliedTwice()
    ensures exists s, j ::
              && Reaches(ENV, s) && 0 < j < |s.store.log| - 1 && Undisturbed(s.store.log, j, |s.store.log| - 1)
              && ActedOn(ENV.cfg, s.store.log, j) && ActedOn(ENV.cfg, s.store.log, |s.store.log| - 1)
              && s.store.log[j].status.verifyingSince == Some(START)
              && Newest(s.store).status.verifyingSince == Some(START + MINUTE)
  {
    var s0, j := ReachUnreset();
    AppliesFound(OPENED, ZERO, [], START);
    AppliedIsAppliable(START);
    AppliesFound(AppliedAt(START), ZERO, [], START + MINUTE);
    AppliedIs(OPENED, START);
    AppliedIs(AppliedAt(START), START + MINUTE);
    var s1 := Begins(ENV, s0, j, []);
    var s := Persisted(ENV, s1);
    assert RoundOf(ENV.cfg, s.store.log[j - 1], s.store.log[j], ZERO, [], START);
    assert RoundOf(ENV.cfg, s.store.log[j], s.store.log[j + 1], ZERO, [], START + MINUTE);
    assert Undisturbed(s.store.log, j, |s.store.log| - 1);
  }

  // ----- a run dated ahead of the clock -----

  /** An IncidentApply's pod that has exited 0 in its first ten minutes, the kubelet not saying when. */
  const UNDATED := Pod(
    ApplyName("r"), Apply, START, false, Succeeded, "", Some(START), [Container(CONTAINER_NAME, Some(CheckPods.Terminated(0, ZERO, [])))])

  const AHEAD := RunResult(Apply, Some(0), START + 10 * MINUTE, [])

  lemma UndatedIsAhead()
    ensures Sane(UNDATED) && ResultOf(UNDATED, 10 * MINUTE, START) == Outcome(AHEAD, true)
  {
    assert |DEADLINE_EXCEEDED| > |UNDATED.reason|;
    assert GivesExit(UNDATED.containers[0]);
    EndOfRun(UNDATED, 10 * MINUTE, START, 0);
    ExitExactly(UNDATED, 10 * MINUTE, START);
  }

  /** An apply run is recorded on the newest version. */
  lemma Records(env: Env, s: Sys, run: RunResult) returns (s': Sys)
    requires Reaches(env, s) && Ran(s) && run.script == Apply && ValidExit(run.exit)
    requires Machine.RecordApply(Newest(s.store).status, run).status != Newest(s.store).status
    ensures Reaches(env, s') && s'.now == s.now && s'.lastRun == s.lastRun && s'.ctl == s.ctl
    ensures s'.store == s.store.(log := s.store.log + [Entry(Newest(s.store).spec,
                                   Machine.RecordApply(Newest(s.store).status, run).status, ApplyRecorder)])
  {
    var st := Machine.RecordApply(Newest(s.store).status, run).status;
    s' := s.(store := Append(s, Newest(s.store).spec, st, ApplyRecorder), trace := s.trace + [ApplyRun(run)]);
    ReachNext(env, s, Label.RecordRun(|s.store.log| - 1, run), s');
  }

  /** Version k - 2 is the recording of this run, a person applies in version k - 1, and version k acts on it. */
  predicate RewoundAt(log: seq<Entry>, k: nat, run: RunResult) {
    && 2 < k < |log|
    && log[k - 2] == Entry(log[k - 3].spec, Machine.RecordApply(log[k - 3].status, run).status, ApplyRecorder)
    && log[k - 1].author == Human && log[k - 1].status == log[k - 2].status && log[k].author == CheckStatus
    && log[k - 1].status.state == Verifying == log[k].status.state
    && log[k - 1].status.verifyingSince.Some? && log[k].status.verifyingSince.Some?
    && log[k].status.verifyingSince.value < log[k - 1].status.verifyingSince.value
  }

  /** A run dated ahead breaks the order of windows: a person applies after it was recorded, and the window moves back. */
  lemma RunDatedAheadRewindsTheWindow()
    ensures exists s, k, pod, timeout, run ::
              && Reaches(ENV, s) && RewoundAt(s.store.log, k, run) && run.at > s.now
              && Sane(pod) && ResultOf(pod, timeout, s.now) == Outcome(run, true)
  {
    var s0 := ReachOpen();
    UndatedIsAhead();
    var c := LastCheck(Some(0), AHEAD.at, []);
    assert Machine.RecordApply(OPENED, AHEAD).status == VerifyingWith(AHEAD.at, c);
    var s1 := Records(ENV, s0, AHEAD);
    assert Appliable(Newest(s1.store).status);
    var s := AppliedRound(s1, []);
    var k := |s1.store.log| + 1;
    assert s.store.log[k - 2] == s1.store.log[k - 2] && s.store.log[k - 3] == s1.store.log[k - 3];
    assert RewoundAt(s.store.log, k, AHEAD);
  }

  // ----- a verify pod left of an earlier stay -----

  /** The first check exits 1 at second two minutes: past the settle window. */
  function FailedPod(): Pod {
    FirstPod().(phase := Failed, containers := [Container(CONTAINER_NAME, Some(CheckPods.Terminated(1, START + 2 * MINUTE, [])))])
  }

  const FAILED := RunResult(Verify, Some(1), START + 2 * MINUTE, [])

  /** Open again, the failed check recorded. */
  const REOPENED := OPENED.(lastChecks := Some(LastChecks(None, Some(LastCheck(None, START, [])),
                                                         Some(LastCheck(Some(1), START + 2 * MINUTE, [])))))

  lemma FailedFound(now: Time)
    requires now == START + 2 * MINUTE
    ensures ResultOf(FailedPod(), ENV.cfg.checkTimeout, now) == Outcome(FAILED, true)
    ensures var found := Observe(ENV.cfg, AppliedAt(START), Spec(false, false), ZERO, [FailedPod()], now);
            found.status == REOPENED && found.plan.dirty && found.lastRun == FAILED.at
  {
    ResultOfOne(FailedPod(), CheckPods.Terminated(1, START + 2 * MINUTE, []), ENV.cfg.checkTimeout, now);
    var a := Begin(AppliedAt(START), Spec(false, false), ZERO, now);
    assert [FailedPod()][1..] == [];
    FailedRecord(now);
    assert Fold(ENV.cfg, a, [FailedPod()], now) == Visit(ENV.cfg, a, FailedPod(), now);
  }

  lemma FailedRecord(now: Time)
    ensures Machine.Record(AppliedAt(START), ENV.cfg, FAILED, now).status == REOPENED
  {
    assert Output.Kept(Some(1), []) == [];
  }

  lemma ReachFailed() returns (s: Sys)
    ensures Reaches(ENV, s) && Ready(ENV, s) && s.store.pods == map[FailedPod().name := FailedPod()]
    ensures s.now == START + 2 * MINUTE && s.lastRun == ZERO
    ensures Newest(s.store).status == AppliedAt(START) && Newest(s.store).spec == Spec(false, false)
  {
    var s0 := ReachInFlight();
    FirstPodRuns();
    s := PodMoves(ENV, s0, FirstPod(), FailedPod());
  }

  /** The status is stored; the delete that follows fails. */
  lemma ReachReopened() returns (s: Sys)
    ensures Reaches(ENV, s) && Ready(ENV, s) && s.store.pods == map[FailedPod().name := FailedPod()]
    ensures s.now == START + 3 * MINUTE && s.lastRun == FAILED.at
    ensures Newest(s.store) == Entry(Spec(false, false), REOPENED, CheckStatus)
  {
    var s0 := ReachFailed();
    Lone(FailedPod());
    FailedFound(s0.now);
    var s1 := Begins(ENV, s0, |s0.store.log| - 1, [FailedPod()]);
    var s2 := Persisted(ENV, s1);
    var s3 := Fails(ENV, s2);
    s := Ticks(ENV, s3, START + 3 * MINUTE);
  }

  const REENTERED := OPENED.(state := Verifying, verifyingSince := Some(START + 3 * MINUTE),
                             lastChecks := Some(LastChecks(None, Some(LastCheck(Some(0), START + 3 * MINUTE, [])), None)))

  const APPLIED := RunResult(Apply, Some(0), START + 3 * MINUTE, [])

  lemma ReenteredIs()
    ensures Machine.RecordApply(REOPENED, APPLIED).status == REENTERED && WholeSecond(START + 3 * MINUTE)
    ensures InStay(REENTERED, START + 3 * MINUTE) && REOPENED.state == Open
    ensures Machine.CurrentScript(REENTERED) == Verify
  {
  }

  /** An IncidentApply exits 0: a stay entered from Open, with the pod of the last one left. */
  lemma ReachReentered() returns (s: Sys, w: Window)
    ensures Reaches(ENV, s) && Ready(ENV, s) && s.store.pods == map[FailedPod().name := FailedPod()]
    ensures w == Window(|s.store.log| - 1, START + 3 * MINUTE, true) && Entered(s, w) && s.now == w.since
    ensures Newest(s.store) == Entry(Spec(false, false), REENTERED, ApplyRecorder)
  {
    var s0 := ReachReopened();
    ReenteredIs();
    s := Records(ENV, s0, APPLIED);
    w := Window(|s.store.log| - 1, START + 3 * MINUTE, true);
    assert s.store.log[w.first - 1] == Newest(s0.store);
  }

  /** A step of a stay with a verify pod left over reports its run, which exited 1 before the window began. */
  predicate LeftoverRun(s: Sys, l: Label, s': Sys, w: Window, p: Pod) {
    && Entered(s, w) && w.leftover && StayStep(s, l, w)
    && InWindow(ENV, s', w.since) && OldPod(ENV, s', w.since, p) && ReportsOldRun(ENV, s', w.since)
    && ResultOf(p, ENV.cfg.checkTimeout, s'.ctl.at).result.exit == Some(1)
    && ResultOf(p, ENV.cfg.checkTimeout, s'.ctl.at).result.at < w.since
  }

  lemma FailedIsOld(now: Time)
    ensures Sane(FailedPod()) && FailedPod().created < START + 3 * MINUTE && FailedPod().script == Verify && !FailedPod().deleting
    ensures ResultOf(FailedPod(), ENV.cfg.checkTimeout, now) == Outcome(FAILED, true)
  {
    ResultOfOne(FailedPod(), CheckPods.Terminated(1, START + 2 * MINUTE, []), ENV.cfg.checkTimeout, now);
  }

  /** The first round of a stay whose leftover pod is done. */
  lemma LeftoverReported(s: Sys, w: Window, p: Pod) returns (l: Label, s': Sys)
    requires Reaches(ENV, s) && Ready(ENV, s) && Entered(s, w) && w.leftover
    requires Newest(s.store).spec == Spec(false, false) && Machine.CurrentScript(Newest(s.store).status) == Verify
    requires s.store.pods == map[p.name := p] && p.script == Verify && !p.deleting && p.created < w.since
    requires ResultOf(p, ENV.cfg.checkTimeout, s.now).done
    requires ResultOf(p, ENV.cfg.checkTimeout, s.now).result.exit == Some(1)
    requires ResultOf(p, ENV.cfg.checkTimeout, s.now).result.at < w.since
    ensures Next(ENV, s, l, s') && Reaches(ENV, s') && LeftoverRun(s, l, s', w, p)
  {
    Lone(p);
    l, s' := BeginsNewest(ENV, s, [p]);
    assert s'.ctl.order[0] == p;
    assert Decided(s') == Newest(s.store).status;
    OldRunReached(ENV, s', w.since, p);
  }

  /** A run in which a stay is entered from Open with such a pod: its run is the first verify run of the stay. */
  lemma LeftoverRunInNewStay()
    ensures exists s, l, s', w, p ::
              Reaches(ENV, s) && Ran(s) && Next(ENV, s, l, s') && Reaches(ENV, s') && LeftoverRun(s, l, s', w, p)
  {
    var s, w := ReachReentered();
    ReenteredIs();
    FailedIsOld(s.now);
    var l, s' := LeftoverReported(s, w, FailedPod());
  }
}
