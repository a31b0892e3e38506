/**
  One stay in Verifying, entered from Open, as a stretch of a run of the system: whatever is interleaved,
  reconciles stopped at any write, of versions stored in the stay or not Verifying. The process is not
  replaced, and nothing restarts the window.
 */
module Stay {
  import opened Options
  import opened Clock
  import opened Incidents
  import opened CheckPods
  import opened Storage
  import opened Reconcile
  import opened Lifecycle
  import opened System
  import opened Rounds
  import opened SystemInvariants
  import opened SystemTheorems
  import Machine

  /** Whole-second poll intervals of at least a second, and a settle window. */
  predicate Cadenced(cfg: Config) {
    cfg.pollInterval >= SECOND && WholeSecond(cfg.pollInterval) && cfg.settleWindow > 0 && cfg.checkTimeout >= 0
  }

  /** The end of poll interval k after since. */
  function IntervalEnd(cfg: Config, since: Time, k: nat): Time {
    since + k * cfg.pollInterval
  }

  lemma WholeSum(t: Time, d: Duration)
    requires WholeSecond(t) && WholeSecond(d)
    ensures WholeSecond(t + d)
  {
  }

  lemma NextInterval(cfg: Config, since: Time, k: nat)
    ensures IntervalEnd(cfg, since, k + 1) == IntervalEnd(cfg, since, k) + cfg.pollInterval
  {
    assert (k + 1) * cfg.pollInterval == k * cfg.pollInterval + cfg.pollInterval;
  }

  lemma {:induction false} IntervalsAreWhole(cfg: Config, since: Time, k: nat)
    requires WholeSecond(since) && WholeSecond(cfg.pollInterval)
    ensures WholeSecond(IntervalEnd(cfg, since, k))
    decreases k
  {
    if k == 0 {
      assert IntervalEnd(cfg, since, 0) == since;
    } else {
      IntervalsAreWhole(cfg, since, k - 1);
      NextInterval(cfg, since, k - 1);
      WholeSum(IntervalEnd(cfg, since, k - 1), cfg.pollInterval);
    }
  }

  // ----- the runs recorded in a stretch -----

  type Report = (PodName, RunResult)

  function VerifyRuns(xs: seq<Report>): seq<Report> {
    if xs == [] then []
    else (if xs[0].1.script == Verify then [xs[0]] else []) + VerifyRuns(xs[1..])
  }

  /** Whether a round in progress has the status it computed to persist before anything else. */
  predicate ToPersist(s: Sys) {
    s.ctl.Busy? && s.ctl.found.plan.dirty && s.ctl.next == 0
  }

  /** The verify runs a step records: those of a round whose status it persists, or that has none to persist. */
  function StepRuns(env: Env, s: Sys, l: Label, s': Sys): seq<Report> {
    if l.BeginRound? && s'.ctl.Busy? && s'.ctl.base < |s'.store.log| && !s'.ctl.found.plan.dirty
    then VerifyRuns(RoundReports(env, s'))
    else if (l.WriteDone? || l.WriteLost?) && ToPersist(s) && s.ctl.base < |s.store.log|
    then VerifyRuns(RoundReports(env, s))
    else []
  }

  /** One run a pod: a pod that is read again gives its run anew. */
  function Count(runs: seq<Report>, n: PodName): nat {
    if runs != [] && Last(runs).0 == n then |runs| else |runs| + 1
  }

  function Add(runs: seq<Report>, x: Report): seq<Report> {
    (if runs != [] && Last(runs).0 == x.0 then Butlast(runs) else runs) + [x]
  }

  function AddAll(runs: seq<Report>, xs: seq<Report>): seq<Report>
    decreases xs
  {
    if xs == [] then runs else AddAll(Add(runs, xs[0]), xs[1..])
  }

  /** The verify runs recorded from state a of a run to state i. */
  function RunsOf(env: Env, ss: seq<Sys>, ls: seq<Label>, a: nat, i: nat): seq<Report>
    requires a <= i < |ss| == |ls| + 1
  {
    if i == a then [] else AddAll(RunsOf(env, ss, ls, a, i - 1), StepRuns(env, ss[i - 1], ls[i - 1], ss[i]))
  }

  // ----- the stay -----

  /** The stay that version first enters, its window starting at since; leftover: with a verify pod of an earlier one. */
  datatype Window = Window(first: nat, since: Time, leftover: bool)

  /** Late enough to be the end of verify run number m of the stay: the run of a leftover pod does not count. */
  predicate Late(cfg: Config, w: Window, t: Time, m: nat) {
    var k := if w.leftover then m - 1 else m;
    k > 0 ==> t >= IntervalEnd(cfg, w.since, k)
  }

  /** Run k of the stay ended at least k poll intervals into the window, one fewer with a leftover pod. */
  predicate Spaced(cfg: Config, w: Window, runs: seq<Report>) {
    forall i :: 0 <= i < |runs| ==> Late(cfg, w, runs[i].1.at, i + 1)
  }

  predicate InsideWindow(cfg: Config, since: Time, runs: seq<Report>) {
    forall i :: 0 <= i < |runs| && runs[i].1.exit == Some(1) ==> runs[i].1.at - since < cfg.settleWindow
  }

  predicate InStay(st: Status, since: Time) {
    st.state == Verifying && st.verifyingSince == Some(since)
  }

  /** Every version from the first on is of the stay. */
  predicate Ongoing(s: Sys, w: Window) {
    w.first < |s.store.log| && forall v :: w.first <= v < |s.store.log| ==> InStay(s.store.log[v].status, w.since)
  }

  /** The round in progress read a version of the stay, or one that is not Verifying, and started no earlier stay. */
  predicate ReadsTheStay(s: Sys, w: Window) {
    s.ctl.Busy? && s.ctl.base < w.first ==>
      && s.ctl.base < |s.store.log| && s.store.log[s.ctl.base].status.state != Verifying
      && (s.ctl.found.plan.dirty && s.ctl.next > 0 ==>
            s.ctl.base + 1 >= w.first || s.ctl.found.status.state != Verifying)
  }

  /**
    The first version of the stay is the newest, and the one before it Open. A round in progress is none of
    an earlier stay, and a verify pod is left of one only if the stay says so.
   */
  predicate Entered(s: Sys, w: Window) {
    && |s.store.log| == w.first + 1 && InStay(s.store.log[w.first].status, w.since) && w.since > ZERO
    && w.first > 0 && s.store.log[w.first - 1].status.state == Open
    && (!w.leftover ==> forall n :: n in s.store.pods && s.store.pods[n].script == Verify ==> s.store.pods[n].deleting)
    && ReadsTheStay(s, w) && (s.ctl.Busy? ==> s.ctl.base < w.first)
  }

  /** A step of the stay: the window is not restarted, nor the process, and no version of an earlier stay is read. */
  predicate StayStep(s: Sys, l: Label, w: Window) {
    && Ongoing(s, w) && !l.Restart?
    && (l.BeginRound? && l.version < |s.store.log| ==>
          l.version >= w.first || s.store.log[l.version].status.state != Verifying)
  }

  // ----- what it keeps -----

  /** An undeleted verify pod was created a poll interval past the runs before it. */
  predicate PodsSpaced(cfg: Config, w: Window, s: Sys, runs: seq<Report>) {
    forall n :: n in s.store.pods && !s.store.pods[n].deleting && s.store.pods[n].script == Verify ==>
      Late(cfg, w, s.store.pods[n].created, Count(runs, n))
  }

  /** So is a run about to be recorded, and its pod is the only one left. */
  predicate PendingSpaced(env: Env, w: Window, s: Sys, runs: seq<Report>) {
    ToPersist(s) && w.first <= s.ctl.base < |s.store.log| ==>
      forall x :: x in VerifyRuns(RoundReports(env, s)) ==>
        && Late(env.cfg, w, x.1.at, Count(runs, x.0))
        && forall n :: n in s.store.pods && !s.store.pods[n].deleting ==> n == x.0
  }

  predicate StayInv(env: Env, w: Window, s: Sys, runs: seq<Report>) {
    && Spaced(env.cfg, w, runs) && InsideWindow(env.cfg, w.since, runs)
    && Late(env.cfg, w, s.lastRun, |runs|)
    && PodsSpaced(env.cfg, w, s, runs) && PendingSpaced(env, w, s, runs)
    && ReadsTheStay(s, w)
  }

  /** What holds once it has ended. */
  predicate EndInv(cfg: Config, w: Window, runs: seq<Report>) {
    Spaced(cfg, w, runs) && (runs != [] ==> InsideWindow(cfg, w.since, Butlast(runs)))
  }

  /** What holds of a state of the stretch: the stay goes on, or has just ended. */
  predicate StayOrEnd(env: Env, w: Window, s: Sys, runs: seq<Report>) {
    if Ongoing(s, w) then StayInv(env, w, s, runs) else EndInv(env.cfg, w, runs)
  }

  /** A verify run that leaves the incident in the stay is inside the window, if it exited 1. */
  lemma VerifyRecorded(cfg: Config, since: Time, st: Status, r: RunResult, now: Time)
    requires Windowed(st) && r.script == Verify && Machine.CurrentScript(st) == Verify
    requires InStay(Machine.Record(st, cfg, r, now).status, since)
    ensures r.exit == Some(1) ==> r.at - since < cfg.settleWindow
  {
  }

  /** The verify run of a round: its pod, and when it ended. */
  lemma RunOfRound(env: Env, s: Sys) returns (x: Option<Report>)
    requires Cadenced(env.cfg) && Inv(env, s) && LifeInv(s) && s.ctl.Busy?
    ensures VerifyRuns(RoundReports(env, s)) == if x.Some? then [x.value] else []
    ensures x.Some? ==>
              && x.value.1.script == Verify && Machine.CurrentScript(Decided(s)) == Verify
              && s.ctl.found.status == Machine.Record(Decided(s), env.cfg, x.value.1, s.ctl.at).status
              && x.value.1.at <= s.lastRun
              && exists p :: p in s.ctl.order && !p.deleting && p.script == Verify && p.name == x.value.0
                             && ResultOf(p, env.cfg.checkTimeout, s.ctl.at) == Outcome(x.value.1, true)
  {
    var c := s.ctl;
    var read := s.store.log[c.base];
    FoldReportsSeen(env.cfg, Begin(read.status, read.spec, c.lastRun, c.at), c.order, c.at);
    if p :| p in c.order && FinishedCurrent(env, s, p) {
      RoundOfOne(env, s, p);
      var r := ResultOf(p, env.cfg.checkTimeout, c.at).result;
      ExitExactly(p, env.cfg.checkTimeout, c.at);
      assert RoundReports(env, s)[0] == (p.name, r) && RoundReports(env, s)[1..] == [];
      assert (p.name, r) in RoundReports(env, s);
      x := if r.script == Verify then Some((p.name, r)) else None;
    } else {
      RoundOfNone(env, s);
      x := None;
    }
  }

  /** One more run, a poll interval on. */
  lemma AddSpaced(cfg: Config, w: Window, runs: seq<Report>, x: Report)
    requires Spaced(cfg, w, runs) && InsideWindow(cfg, w.since, runs)
    requires Late(cfg, w, x.1.at, Count(runs, x.0))
    ensures |Add(runs, x)| == Count(runs, x.0) && Last(Add(runs, x)) == x
    ensures EndInv(cfg, w, Add(runs, x))
    ensures (x.1.exit == Some(1) ==> x.1.at - w.since < cfg.settleWindow) ==> InsideWindow(cfg, w.since, Add(runs, x))
    ensures AddAll(runs, [x]) == Add(runs, x)
  {
    assert [x][1..] == [];
  }

  // ----- a round begins -----

  /** The run a new round reports is of a spaced pod, the only one. */
  lemma BegunRun(env: Env, w: Window, s: Sys, l: Label, s': Sys, runs: seq<Report>) returns (x: Option<Report>)
    requires Cadenced(env.cfg) && Inv(env, s) && LifeInv(s) && StayInv(env, w, s, runs)
    requires l.BeginRound? && Next(env, s, l, s')
    ensures Inv(env, s') && LifeInv(s') && s'.ctl.Busy?
    ensures VerifyRuns(RoundReports(env, s')) == if x.Some? then [x.value] else []
    ensures x.Some? ==>
              && Late(env.cfg, w, x.value.1.at, Count(runs, x.value.0))
              && (forall n :: n in s.store.pods && !s.store.pods[n].deleting ==> n == x.value.0)
              && x.value.1.at <= s'.lastRun && x.value.1.script == Verify
              && Machine.CurrentScript(Decided(s')) == Verify
              && s'.ctl.found.status == Machine.Record(Decided(s'), env.cfg, x.value.1, s'.ctl.at).status
  {
    NextKeepsInv(env, s, l, s');
    NextPaced(env, s, l, s');
    x := RunOfRound(env, s');
    if x.Some? {
      var p :| p in s'.ctl.order && !p.deleting && p.script == Verify && p.name == x.value.0
               && ResultOf(p, env.cfg.checkTimeout, s'.ctl.at) == Outcome(x.value.1, true);
      assert PacedPod(p.name, p);
      ResultNotBeforeCreation(p, env.cfg.checkTimeout, s'.ctl.at);
    }
  }

  /** A round with nothing to persist leaves what it read, so it applied no decision. */
  lemma CleanRound(env: Env, s: Sys)
    requires RoundInv(env, s) && s.ctl.Busy? && !s.ctl.found.plan.dirty
    ensures s.ctl.found.status == s.store.log[s.ctl.base].status
    ensures Windowed(s.store.log[s.ctl.base].status) ==> Windowed(Decided(s))
  {
    DecidedWindowed(env, s);
  }

  lemma DecidedWindowed(env: Env, s: Sys)
    requires s.ctl.Busy? && s.ctl.base < |s.store.log|
    ensures Windowed(s.store.log[s.ctl.base].status) ==> Windowed(Decided(s))
  {
  }

  /** A round of a version that is not Verifying finds no verify run unless it has a decision to persist. */
  lemma OutsideRound(env: Env, s: Sys)
    requires Inv(env, s) && s.ctl.Busy? && !s.ctl.found.plan.dirty
    requires s.store.log[s.ctl.base].status.state != Verifying
    ensures Machine.CurrentScript(Decided(s)) != Verify
  {
    ConsumedIsDirty(env, s);
    var read := s.store.log[s.ctl.base];
    assert !Acts(read);
  }

  lemma MemoryGrows(env: Env, s: Sys, l: Label, s': Sys)
    requires s.store.log != [] && l.BeginRound? && Next(env, s, l, s')
    ensures s'.lastRun >= s.lastRun
  {
    var read := s.store.log[l.version];
    FoldReportsSeen(env.cfg, Begin(read.status, read.spec, s.lastRun, s.now), l.listed, s.now);
  }

  /** A run a new round records at once, having nothing to persist, is inside the window. */
  lemma BegunRunInside(env: Env, w: Window, s: Sys, l: Label, s': Sys, x: Report)
    requires StayStep(s, l, w) && l.BeginRound? && Inv(env, s) && Next(env, s, l, s') && Inv(env, s')
    requires s'.ctl.Busy? && !s'.ctl.found.plan.dirty && x.1.script == Verify
    requires Machine.CurrentScript(Decided(s')) == Verify
    requires s'.ctl.found.status == Machine.Record(Decided(s'), env.cfg, x.1, s'.ctl.at).status
    ensures x.1.exit == Some(1) ==> x.1.at - w.since < env.cfg.settleWindow
  {
    if l.version < w.first {
      OutsideRound(env, s');
    }
    assert InStay(s.store.log[l.version].status, w.since);
    CleanRound(env, s');
    VerifyRecorded(env.cfg, w.since, Decided(s'), x.1, s'.ctl.at);
  }

  /** A new round leaves pods and versions as they are. */
  lemma BegunFrame(env: Env, w: Window, s: Sys, l: Label, s': Sys, runs: seq<Report>)
    requires StayInv(env, w, s, runs) && s.store.log != []
    requires StayStep(s, l, w) && l.BeginRound? && Next(env, s, l, s')
    ensures PodsSpaced(env.cfg, w, s', runs) && ReadsTheStay(s', w)
    ensures Late(env.cfg, w, s'.lastRun, |runs|)
  {
    MemoryGrows(env, s, l, s');
  }

  /** A round with nothing to persist records its run at once. */
  lemma CleanBeginKeepsStay(env: Env, w: Window, s: Sys, l: Label, s': Sys, runs: seq<Report>)
    requires Cadenced(env.cfg) && Inv(env, s) && LifeInv(s) && StayInv(env, w, s, runs)
    requires StayStep(s, l, w) && l.BeginRound? && Next(env, s, l, s') && !s'.ctl.found.plan.dirty
    ensures StayInv(env, w, s', AddAll(runs, StepRuns(env, s, l, s')))
  {
    var x := BegunRun(env, w, s, l, s', runs);
    BegunFrame(env, w, s, l, s', runs);
    if x.Some? {
      BegunRunInside(env, w, s, l, s', x.value);
      AddSpaced(env.cfg, w, runs, x.value);
      assert StepRuns(env, s, l, s') == [x.value];
    } else {
      assert StepRuns(env, s, l, s') == [];
    }
  }

  /** Any other has it to record with its status. */
  lemma DirtyBeginKeepsStay(env: Env, w: Window, s: Sys, l: Label, s': Sys, runs: seq<Report>)
    requires Cadenced(env.cfg) && Inv(env, s) && LifeInv(s) && StayInv(env, w, s, runs)
    requires StayStep(s, l, w) && l.BeginRound? && Next(env, s, l, s') && s'.ctl.found.plan.dirty
    ensures StepRuns(env, s, l, s') == [] && StayInv(env, w, s', runs)
  {
    var x := BegunRun(env, w, s, l, s', runs);
    BegunFrame(env, w, s, l, s', runs);
  }

  lemma BeginKeepsStay(env: Env, w: Window, s: Sys, l: Label, s': Sys, runs: seq<Report>)
    requires Cadenced(env.cfg) && Inv(env, s) && LifeInv(s) && StayInv(env, w, s, runs)
    requires StayStep(s, l, w) && l.BeginRound? && Next(env, s, l, s')
    ensures StayInv(env, w, s', AddAll(runs, StepRuns(env, s, l, s')))
  {
    if s'.ctl.found.plan.dirty {
      DirtyBeginKeepsStay(env, w, s, l, s', runs);
    } else {
      CleanBeginKeepsStay(env, w, s, l, s', runs);
    }
  }

  // ----- a write -----

  /** A version is added, and pods only go. */
  lemma FrameKeepsStay(env: Env, w: Window, s: Sys, s': Sys, runs: seq<Report>)
    requires StayInv(env, w, s, runs) && w.first < |s.store.log|
    requires s'.lastRun == s.lastRun && |s.store.log| <= |s'.store.log|
    requires forall v :: 0 <= v < |s.store.log| ==> s'.store.log[v] == s.store.log[v]
    requires forall n :: n in s'.store.pods && !s'.store.pods[n].deleting ==>
               n in s.store.pods && !s.store.pods[n].deleting
               && s'.store.pods[n].script == s.store.pods[n].script && s'.store.pods[n].created == s.store.pods[n].created
    requires s'.ctl == s.ctl || s'.ctl.Idle?
             || (s.ctl.Busy? && !ToPersist(s) && s'.ctl.Busy? && !ToPersist(s')
                 && s'.ctl == s.ctl.(held := s'.ctl.held, next := s'.ctl.next) && (s.ctl.next == 0 ==> !s.ctl.found.plan.dirty))
    requires s.ctl.Busy? ==> s.ctl.base < |s.store.log|
    ensures StayInv(env, w, s', runs)
  {
    if s'.ctl == s.ctl && s.ctl.Busy? {
      assert RoundReports(env, s') == RoundReports(env, s);
    }
  }

  /** Persisting a round's status records its run. */
  lemma PersistKeepsStay(env: Env, w: Window, s: Sys, l: Label, s': Sys, runs: seq<Report>)
    requires Cadenced(env.cfg) && Inv(env, s) && LifeInv(s) && StayInv(env, w, s, runs)
    requires StayStep(s, l, w) && (l.WriteDone? || l.WriteLost?) && Next(env, s, l, s') && ToPersist(s)
    ensures StayOrEnd(env, w, s', AddAll(runs, StepRuns(env, s, l, s')))
  {
    WriteCases(env, s, l.WriteLost?, s');
    ConsumedIsDirty(env, s);
    WriteAt(env, s.ctl, 0);
    assert Persists(s, s') && s.ctl.base >= w.first;
    var x := RunOfRound(env, s);
    if x.Some? {
      assert x.value in VerifyRuns(RoundReports(env, s));
      AddSpaced(env.cfg, w, runs, x.value);
      if Ongoing(s', w) {
        assert InStay(s'.store.log[|s.store.log|].status, w.since);
        DecidedWindowed(env, s);
        VerifyRecorded(env.cfg, w.since, Decided(s), x.value.1, s.ctl.at);
      }
    }
  }

  /** A check that falls due starts a poll interval past the last run. */
  lemma NextPodSpaced(cfg: Config, w: Window, st: Status, lastRun: Time, m: nat, done: Time, name: PodName)
    requires Cadenced(cfg) && WholeSecond(w.since) && w.since > ZERO && InStay(st, w.since)
    requires Late(cfg, w, lastRun, m)
    requires done >= Machine.NextCheckAt(st, lastRun, cfg.pollInterval)
    ensures Late(cfg, w, NewPod(name, Verify, done).created, m + 1)
  {
    if !w.leftover || m > 0 {
      var k := if w.leftover then m - 1 else m;
      NextInterval(cfg, w.since, k);
      IntervalsAreWhole(cfg, w.since, k + 1);
      assert IntervalEnd(cfg, w.since, 0) == w.since;
      IntervalsGrow(cfg, w.since, 0, k);
      Rfc3339CopyMonotone(IntervalEnd(cfg, w.since, k + 1), done);
    }
  }

  lemma LateForFewer(cfg: Config, w: Window, t: Time, m: nat)
    requires cfg.pollInterval > 0 && Late(cfg, w, t, m + 1)
    ensures Late(cfg, w, t, m)
  {
    var k := if w.leftover then m - 1 else m;
    if k > 0 {
      NextInterval(cfg, w.since, k);
    }
  }

  /** A verify check started in the stay is started for its window. */
  lemma StartedForTheStay(env: Env, w: Window, s: Sys, s': Sys)
    requires Inv(env, s) && Ongoing(s, w) && ReadsTheStay(s, w) && s.ctl.Busy? && Starts(env, s, s')
    requires Machine.CurrentScript(s.ctl.found.status) == Verify
    ensures InStay(s.ctl.found.status, w.since)
  {
    ConsumedIsDirty(env, s);
    if s.ctl.found.plan.dirty {
      assert s.ctl.next > 0;
      assert s.store.log[s.ctl.base + 1].status == s.ctl.found.status;
    } else {
      CleanRound(env, s);
    }
  }

  /** The pod of a verify check started in the stay comes a poll interval past the runs so far. */
  lemma StartedLate(env: Env, w: Window, s: Sys, s': Sys, runs: seq<Report>)
    requires Cadenced(env.cfg) && WholeSecond(w.since) && w.since > ZERO
    requires Inv(env, s) && LifeInv(s) && Ongoing(s, w) && ReadsTheStay(s, w)
    requires Late(env.cfg, w, s.lastRun, |runs|)
    requires s.ctl.Busy? && Starts(env, s, s') && Machine.CurrentScript(s.ctl.found.status) == Verify
    ensures Late(env.cfg, w, NewPod(StartedName(env, s), Verify, s.now).created, |runs| + 1)
  {
    StartedForTheStay(env, w, s, s');
    NextPodSpaced(env.cfg, w, s.ctl.found.status, s.lastRun, |runs|, s.now, StartedName(env, s));
  }

  /** A new verify pod, if it is late enough, is the only one left. */
  lemma StartedSpaced(env: Env, w: Window, s: Sys, s': Sys, runs: seq<Report>)
    requires s.ctl.Busy? && Starts(env, s, s') && env.cfg.pollInterval > 0
    requires Machine.CurrentScript(s.ctl.found.status) == Verify ==>
               Late(env.cfg, w, NewPod(StartedName(env, s), Verify, s.now).created, |runs| + 1)
    ensures PodsSpaced(env.cfg, w, s', runs)
  {
    forall n | n in s'.store.pods && !s'.store.pods[n].deleting && s'.store.pods[n].script == Verify
      ensures Late(env.cfg, w, s'.store.pods[n].created, Count(runs, n))
    {
      assert n == StartedName(env, s) && n !in s.store.pods;
      LateForFewer(env.cfg, w, s'.store.pods[n].created, |runs|);
    }
  }

  lemma StartKeepsStay(env: Env, w: Window, s: Sys, l: Label, s': Sys, runs: seq<Report>)
    requires Cadenced(env.cfg) && WholeSecond(w.since) && w.since > ZERO
    requires Inv(env, s) && LifeInv(s) && StayInv(env, w, s, runs)
    requires StayStep(s, l, w) && (l.WriteDone? || l.WriteLost?) && Next(env, s, l, s')
    requires s.ctl.Busy? && !ToPersist(s) && Starts(env, s, s')
    ensures StayInv(env, w, s', runs)
  {
    if Machine.CurrentScript(s.ctl.found.status) == Verify {
      StartedLate(env, w, s, s', runs);
    }
    StartedSpaced(env, w, s, s', runs);
    assert !ToPersist(s') && s'.lastRun == s.lastRun && s'.store.log == s.store.log;
  }

  /** A write that neither persists a status nor starts a check. */
  lemma OtherWriteKeepsStay(env: Env, w: Window, s: Sys, l: Label, s': Sys, runs: seq<Report>)
    requires TraceInv(env, s) && RoundInv(env, s) && StayInv(env, w, s, runs) && !ToPersist(s)
    requires StayStep(s, l, w) && (l.WriteDone? || l.WriteLost?) && Next(env, s, l, s') && !Starts(env, s, s')
    ensures StayInv(env, w, s', runs)
  {
    WriteCases(env, s, l.WriteLost?, s');
    NextAppends(env, s, l, s');
    FrameKeepsStay(env, w, s, s', runs);
  }

  lemma WriteKeepsStay(env: Env, w: Window, s: Sys, l: Label, s': Sys, runs: seq<Report>)
    requires Cadenced(env.cfg) && WholeSecond(w.since) && w.since > ZERO
    requires Inv(env, s) && LifeInv(s) && StayInv(env, w, s, runs)
    requires StayStep(s, l, w) && (l.WriteDone? || l.WriteLost?) && Next(env, s, l, s')
    ensures StayOrEnd(env, w, s', AddAll(runs, StepRuns(env, s, l, s')))
  {
    if ToPersist(s) {
      PersistKeepsStay(env, w, s, l, s', runs);
    } else if Starts(env, s, s') {
      StartKeepsStay(env, w, s, l, s', runs);
    } else {
      OtherWriteKeepsStay(env, w, s, l, s', runs);
    }
  }

  // ----- any step -----

  lemma OtherKeepsStay(env: Env, w: Window, s: Sys, l: Label, s': Sys, runs: seq<Report>)
    requires TraceInv(env, s) && RoundInv(env, s) && StayInv(env, w, s, runs)
    requires StayStep(s, l, w) && Next(env, s, l, s') && !l.BeginRound? && !l.WriteDone? && !l.WriteLost?
    ensures StayInv(env, w, s', runs)
  {
    NextAppends(env, s, l, s');
    FrameKeepsStay(env, w, s, s', runs);
  }

  lemma StepKeepsStay(env: Env, w: Window, s: Sys, l: Label, s': Sys, runs: seq<Report>)
    requires Cadenced(env.cfg) && WholeSecond(w.since) && w.since > ZERO
    requires Inv(env, s) && LifeInv(s) && StayInv(env, w, s, runs)
    requires StayStep(s, l, w) && Next(env, s, l, s')
    ensures StayOrEnd(env, w, s', AddAll(runs, StepRuns(env, s, l, s')))
  {
    if l.BeginRound? {
      BeginKeepsStay(env, w, s, l, s', runs);
    } else if l.WriteDone? || l.WriteLost? {
      WriteKeepsStay(env, w, s, l, s', runs);
    } else {
      OtherKeepsStay(env, w, s, l, s', runs);
    }
  }

  /** A stretch of a run: entered at a, every step to i one of the stay. */
  predicate StayStretch(ss: seq<Sys>, ls: seq<Label>, a: nat, i: nat, w: Window) {
    && a <= i < |ss| == |ls| + 1 && Entered(ss[a], w)
    && forall k :: a <= k < i ==> StayStep(ss[k], ls[k], w)
  }

  lemma EntryKeeps(env: Env, w: Window, s: Sys)
    requires Inv(env, s) && Entered(s, w)
    ensures Ongoing(s, w) && StayInv(env, w, s, []) && WholeSecond(w.since)
  {
    assert ValidStatus(s.store.log[w.first].status);
  }

  predicate HoldsAt(env: Env, w: Window, ss: seq<Sys>, ls: seq<Label>, a: nat, k: nat)
    requires a <= k < |ss| == |ls| + 1
  {
    StayOrEnd(env, w, ss[k], RunsOf(env, ss, ls, a, k))
  }

  lemma StretchStep(env: Env, w: Window, ss: seq<Sys>, ls: seq<Label>, a: nat, k: nat)
    requires Cadenced(env.cfg) && WholeSecond(w.since) && w.since > ZERO
    requires Behavior(env, ss, ls) && a <= k < |ls| && StayStep(ss[k], ls[k], w)
    requires HoldsAt(env, w, ss, ls, a, k)
    ensures HoldsAt(env, w, ss, ls, a, k + 1)
  {
    AlwaysInv(env, ss, ls, k);
    AlwaysPaced(env, ss, ls, k);
    StepKeepsStay(env, w, ss[k], ls[k], ss[k + 1], RunsOf(env, ss, ls, a, k));
  }

  lemma {:induction false} HoldsOn(env: Env, w: Window, ss: seq<Sys>, ls: seq<Label>, a: nat, i: nat)
    requires a <= i < |ss| == |ls| + 1 && HoldsAt(env, w, ss, ls, a, a)
    requires forall k :: a <= k < i && HoldsAt(env, w, ss, ls, a, k) ==> HoldsAt(env, w, ss, ls, a, k + 1)
    ensures HoldsAt(env, w, ss, ls, a, i)
  {
    if i > a {
      HoldsOn(env, w, ss, ls, a, i - 1);
      assert HoldsAt(env, w, ss, ls, a, i - 1) ==> HoldsAt(env, w, ss, ls, a, (i - 1) + 1);
    }
  }

  lemma EndOf(env: Env, w: Window, s: Sys, runs: seq<Report>)
    requires StayOrEnd(env, w, s, runs)
    ensures EndInv(env.cfg, w, runs)
  {
  }

  // ----- the bound -----

  function Ones(runs: seq<Report>): nat {
    if runs == [] then 0
    else Ones(runs[..|runs| - 1]) + (if runs[|runs| - 1].1.exit == Some(1) then 1 else 0)
  }

  /** d over p, rounded up. */
  function CeilDiv(d: Duration, p: Duration): int
    requires p > 0
  {
    (d + p - 1) / p
  }

  lemma {:induction false} LastOne(runs: seq<Report>)
    requires Ones(runs) > 0
    ensures exists j :: 0 <= j < |runs| && runs[j].1.exit == Some(1) && j + 1 >= Ones(runs)
    ensures Ones(runs) <= |runs|
  {
    var n := |runs|;
    if Ones(runs[..n - 1]) > 0 {
      LastOne(runs[..n - 1]);
      var j :| 0 <= j < n - 1 && runs[..n - 1][j].1.exit == Some(1) && j + 1 >= Ones(runs[..n - 1]);
      if runs[n - 1].1.exit != Some(1) {
        assert runs[j].1.exit == Some(1);
      }
    }
  }

  lemma BelowCeil(n: nat, d: Duration, p: Duration)
    requires p > 0 && n > 0 && (n - 1) * p < d
    ensures n <= CeilDiv(d, p)
  {
    var q := CeilDiv(d, p);
    assert d + p - 1 < q * p + p;
  }

  lemma IntervalsGrow(cfg: Config, since: Time, i: nat, j: nat)
    requires i <= j && cfg.pollInterval > 0
    ensures IntervalEnd(cfg, since, i) <= IntervalEnd(cfg, since, j)
  {
    assert (j - i) * cfg.pollInterval >= 0;
    assert j * cfg.pollInterval == i * cfg.pollInterval + (j - i) * cfg.pollInterval;
  }

  /** The run before the last that exited 1 came early enough for all of them but one to fit in the window. */
  lemma OnesFit(cfg: Config, w: Window, runs: seq<Report>)
    requires Cadenced(cfg) && !w.leftover && Spaced(cfg, w, runs) && Ones(runs) > 1
    requires InsideWindow(cfg, w.since, Butlast(runs))
    ensures (Ones(runs) - 1) * cfg.pollInterval < cfg.settleWindow
  {
    var before := Butlast(runs);
    LastOne(before);
    var j :| 0 <= j < |before| && before[j].1.exit == Some(1) && j + 1 >= Ones(before);
    assert before[j] == runs[j] && Late(cfg, w, runs[j].1.at, j + 1);
    IntervalsGrow(cfg, w.since, Ones(runs) - 1, j + 1);
  }

  lemma OnesBounded(cfg: Config, w: Window, runs: seq<Report>)
    requires Cadenced(cfg) && !w.leftover && EndInv(cfg, w, runs)
    ensures Ones(runs) <= CeilDiv(cfg.settleWindow, cfg.pollInterval)
  {
    BelowCeil(1, cfg.settleWindow, cfg.pollInterval);
    if Ones(runs) > 1 {
      OnesFit(cfg, w, runs);
      BelowCeil(Ones(runs), cfg.settleWindow, cfg.pollInterval);
    }
  }

  lemma {:induction false} OnesButFirst(runs: seq<Report>)
    requires runs != []
    ensures Ones(runs) <= 1 + Ones(runs[1..])
  {
    if |runs| > 1 {
      OnesButFirst(Butlast(runs));
      assert Butlast(runs)[1..] == Butlast(runs[1..]);
    }
  }

  /** After the run of a leftover pod the rest are those of a stay without one. */
  lemma RestOfTheStay(cfg: Config, w: Window, runs: seq<Report>)
    requires w.leftover && runs != [] && EndInv(cfg, w, runs)
    ensures EndInv(cfg, w.(leftover := false), runs[1..])
  {
    var rest := runs[1..];
    forall i | 0 <= i < |rest| ensures Late(cfg, w.(leftover := false), rest[i].1.at, i + 1) {
      assert Late(cfg, w, runs[i + 1].1.at, (i + 1) + 1);
    }
    if rest != [] {
      assert forall i :: 0 <= i < |rest| - 1 ==> Butlast(rest)[i] == Butlast(runs)[i + 1];
    }
  }

  /** A leftover pod, of which there is at most one, can only add its own run. */
  lemma OnesBoundedWithLeftover(cfg: Config, w: Window, runs: seq<Report>)
    requires Cadenced(cfg) && EndInv(cfg, w, runs)
    ensures Ones(runs) <= CeilDiv(cfg.settleWindow, cfg.pollInterval) + if w.leftover then 1 else 0
  {
    if !w.leftover {
      OnesBounded(cfg, w, runs);
    } else if runs == [] {
      BelowCeil(1, cfg.settleWindow, cfg.pollInterval);
    } else {
      RestOfTheStay(cfg, w, runs);
      OnesButFirst(runs);
      OnesBounded(cfg, w.(leftover := false), runs[1..]);
    }
  }

  /**
    At any point of the stay, its end included: verify run k ended at least k poll intervals after the
    window's start, so at most the settle window over the poll interval, rounded up, exited 1. With a verify
    pod left of an earlier stay, run k ended at least k - 1 poll intervals in, and at most one more exited 1.
   */
  lemma VerifyRunsAreBounded(env: Env, w: Window, ss: seq<Sys>, ls: seq<Label>, a: nat, i: nat)
    requires Cadenced(env.cfg) && Behavior(env, ss, ls) && StayStretch(ss, ls, a, i, w)
    ensures Spaced(env.cfg, w, RunsOf(env, ss, ls, a, i))
    ensures Ones(RunsOf(env, ss, ls, a, i))
            <= CeilDiv(env.cfg.settleWindow, env.cfg.pollInterval) + if w.leftover then 1 else 0
  {
    AlwaysInv(env, ss, ls, a);
    EntryKeeps(env, w, ss[a]);
    assert HoldsAt(env, w, ss, ls, a, a);
    forall k | a <= k < i && HoldsAt(env, w, ss, ls, a, k) ensures HoldsAt(env, w, ss, ls, a, k + 1) {
      StretchStep(env, w, ss, ls, a, k);
    }
    HoldsOn(env, w, ss, ls, a, i);
    EndOf(env, w, ss[i], RunsOf(env, ss, ls, a, i));
    OnesBoundedWithLeftover(env.cfg, w, RunsOf(env, ss, ls, a, i));
  }
}
