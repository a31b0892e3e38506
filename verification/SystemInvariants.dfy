/** What every reachable state of the system keeps. */
module SystemInvariants {
  import opened Options
  import opened Clock
  import opened Incidents
  import opened CheckPods
  import opened Storage
  import opened Reconcile
  import opened Lifecycle
  import opened System
  import opened Rounds
  import Machine

  // ----- the invariants -----

  /** The persisted status is where the recorded events run to. */
  predicate TraceInv(env: Env, s: Sys) {
    && s.store.log != []
    && Legal(env.cfg, BLANK, s.trace)
    && Run(env.cfg, BLANK, s.trace) == Newest(s.store).status
  }

  /** Every persisted version is valid, has its window exactly while Verifying, and follows the one before. */
  predicate ValidChain(log: seq<Entry>) {
    && (forall i :: 0 <= i < |log| ==> ValidStatus(log[i].status) && Windowed(log[i].status))
    && (forall i :: 0 < i < |log| ==> TransitionAllowed(log[i - 1].status, log[i].status))
  }

  predicate LogInv(s: Sys) {
    ValidChain(s.store.log)
  }

  predicate OneLive(pods: map<PodName, Pod>) {
    forall m, n :: m in pods && n in pods && !pods[m].deleting && !pods[n].deleting ==> m == n
  }

  /** Check pods carry their name and a check script; at most one is not being deleted. */
  predicate GoodPods(pods: map<PodName, Pod>) {
    && (forall n :: n in pods ==>
          pods[n].name == n && (pods[n].script == Precondition || pods[n].script == Verify))
    && OneLive(pods)
  }

  predicate PodInv(s: Sys) {
    GoodPods(s.store.pods)
  }

  /** What a round in progress read, persisted and still has to delete. */
  predicate RoundInv(env: Env, s: Sys) {
    s.ctl.Busy? ==>
      var c := s.ctl;
      var plan := c.found.plan;
      && c.base < |s.store.log| && c.at <= s.now
      && CheckScripts(c.order) && OneUndeleted(c.order)
      && c.found == Observe(env.cfg, s.store.log[c.base].status, s.store.log[c.base].spec, c.lastRun, c.order, c.at)
      && c.next <= |RoundWrites(env, c)|
      && (c.next == 0 ==> c.held == c.base)
      && (plan.dirty && c.next > 0 ==>
            c.base + 1 < |s.store.log|
            && s.store.log[c.base + 1] == Entry(s.store.log[c.base].spec, c.found.status, CheckStatus))
      && (plan.consumeApplied && c.next == 1 ==> c.held == c.base + 1)
      && (plan.due && c.next < |RoundWrites(env, c)| ==>
            forall n :: n in s.store.pods && !s.store.pods[n].deleting ==> DeletesLater(env, c, n))
  }

  /** The round still has the deletion of n before it. */
  predicate DeletesLater(env: Env, c: Controller, n: PodName)
    requires c.Busy?
  {
    exists j :: c.next <= j < |RoundWrites(env, c)| && RoundWrites(env, c)[j] == DeletePod(n)
  }

  /** spec.applied is acted on in this version: what applySpec consumes. */
  predicate Acts(e: Entry) {
    e.spec.applied && !e.spec.closed && (e.status.state == Open || e.status.state == Verifying)
  }

  /**
    next is the version a reconcile that read was at time at stores; when was holds a spec.applied to act
    on, it holds the apply result of that time.
   */
  predicate RoundOf(cfg: Config, was: Entry, next: Entry, lastRun: Time, order: seq<Pod>, at: Time) {
    && next == Entry(was.spec, Observe(cfg, was.status, was.spec, lastRun, order, at).status, CheckStatus)
    && (Acts(was) <==> Machine.ApplySpec(was.status, was.spec, at).consumed)
    && (Acts(was) ==> ResultOfScript(next.status, Apply) == Some(LastCheck(None, Rfc3339Copy(at), [])))
  }

  ghost predicate IsRound(cfg: Config, was: Entry, next: Entry) {
    exists lastRun, order, at :: RoundOf(cfg, was, next, lastRun, order, at)
  }

  /** Version i resets spec.applied right after the version in which a reconcile acted on it. */
  ghost predicate ResetRecorded(cfg: Config, log: seq<Entry>, i: nat)
    requires i < |log|
  {
    && i >= 2
    && Acts(log[i - 2]) && IsRound(cfg, log[i - 2], log[i - 1])
    && log[i] == Entry(log[i - 1].spec.(applied := false), log[i - 1].status, CheckReset)
  }

  /** What version i makes of the one before it. */
  ghost predicate SpecStep(cfg: Config, log: seq<Entry>, i: nat)
    requires 0 < i < |log|
  {
    match log[i].author
    case Human => (log[i - 1].spec.closed ==> log[i].spec.closed) && log[i].status == log[i - 1].status
    case CheckReset => ResetRecorded(cfg, log, i)
    case CheckStatus => IsRound(cfg, log[i - 1], log[i])
    case _ => log[i].spec == log[i - 1].spec
  }

  ghost predicate ValidSpecs(cfg: Config, log: seq<Entry>) {
    && (forall i :: 0 < i < |log| ==> SpecStep(cfg, log, i))
    && (forall i :: 0 <= i < |log| ==> (log[i].status.state == Closed ==> log[i].spec.closed))
  }

  ghost predicate SpecInv(env: Env, s: Sys) {
    ValidSpecs(env.cfg, s.store.log)
  }

  ghost predicate Inv(env: Env, s: Sys) {
    TraceInv(env, s) && LogInv(s) && PodInv(s) && RoundInv(env, s) && SpecInv(env, s)
  }

  // ----- the list of writes -----

  /** Write k of a round, by the part of the plan it belongs to. */
  lemma WriteAt(env: Env, c: Controller, k: nat)
    requires c.Busy? && k < |RoundWrites(env, c)|
    requires c.found.plan.consumeApplied ==> c.found.plan.dirty
    ensures var plan := c.found.plan;
            var n := |StatusWrites(plan)|;
            && n == (if plan.dirty then 1 else 0) + (if plan.consumeApplied then 1 else 0)
            && |RoundWrites(env, c)| == n + |plan.stale| + (if plan.due then 1 else 0)
            && RoundWrites(env, c)[k] ==
               if k < n then (if k == 0 then PersistStatus else ResetApplied)
               else if k < n + |plan.stale| then DeletePod(plan.stale[k - n].name)
               else StartCheck(CheckName(env.uid, Machine.CurrentScript(c.found.status), plan.from),
                               Machine.CurrentScript(c.found.status))
  {
  }

  lemma ConsumedIsDirty(env: Env, s: Sys)
    requires RoundInv(env, s) && s.ctl.Busy?
    ensures s.ctl.found.plan.consumeApplied ==> s.ctl.found.plan.dirty
    ensures s.ctl.found.plan.due ==>
              s.ctl.found.plan.live.None? && Machine.CurrentScript(s.ctl.found.status) != NoScript
    ensures s.ctl.found.plan.consumeApplied ==>
              var read := s.store.log[s.ctl.base];
              read.spec.applied && !read.spec.closed
              && ResultOfScript(s.ctl.found.status, Apply) == Some(LastCheck(None, Rfc3339Copy(s.ctl.at), []))
    ensures s.ctl.found.status.state == Closed <==>
              s.store.log[s.ctl.base].spec.closed || s.store.log[s.ctl.base].status.state == Closed
  {
    var c := s.ctl;
    var read := s.store.log[c.base];
    FoldKeeps(env.cfg, Begin(read.status, read.spec, c.lastRun, c.at), c.order, c.at);
  }

  // ----- what the next write of a round does -----

  predicate Persists(s: Sys, s': Sys)
    requires s.ctl.Busy? && s.store.log != []
  {
    && s.ctl.found.plan.dirty && s.ctl.next == 0 && s.ctl.base + 1 == |s.store.log|
    && s'.store == Append(s, Newest(s.store).spec, s.ctl.found.status, CheckStatus)
  }

  predicate Resets(s: Sys, s': Sys)
    requires s.ctl.Busy? && s.store.log != []
  {
    && s.ctl.found.plan.consumeApplied && s.ctl.next == 1 && s.ctl.base + 2 == |s.store.log|
    && s'.store == Append(s, Newest(s.store).spec.(applied := false), Newest(s.store).status, CheckReset)
  }

  predicate Deletes(s: Sys, s': Sys, i: nat)
    requires s.ctl.Busy?
  {
    && i < |s.ctl.found.plan.stale| && s.ctl.next == |StatusWrites(s.ctl.found.plan)| + i
    && s'.store == s.store.(pods := Terminating(s.store.pods, s.ctl.found.plan.stale[i].name))
  }

  predicate Starts(env: Env, s: Sys, s': Sys)
    requires s.ctl.Busy?
  {
    var script := Machine.CurrentScript(s.ctl.found.status);
    var name := CheckName(env.uid, script, s.ctl.found.plan.from);
    && s.ctl.found.plan.due && script != NoScript && s.ctl.next + 1 == |RoundWrites(env, s.ctl)|
    && (forall n :: n in s.store.pods ==> s.store.pods[n].deleting)
    && s'.store == s.store.(pods := if name in s.store.pods then s.store.pods
                                    else s.store.pods[name := NewPod(name, script, s.now)])
  }

  /** When the next write starts a check, no pod is left undeleted. */
  lemma NothingLeftAtStart(env: Env, s: Sys)
    requires RoundInv(env, s) && s.ctl.Busy? && s.ctl.next < |RoundWrites(env, s.ctl)|
    requires RoundWrites(env, s.ctl)[s.ctl.next].StartCheck?
    ensures s.ctl.found.plan.due && s.ctl.next + 1 == |RoundWrites(env, s.ctl)|
    ensures forall n :: n in s.store.pods ==> s.store.pods[n].deleting
  {
    ConsumedIsDirty(env, s);
    WriteAt(env, s.ctl, s.ctl.next);
  }

  /** A write of the status part of the plan. */
  lemma StatusWriteCase(env: Env, s: Sys, lost: bool, s': Sys)
    requires s.ctl.Busy? && s.ctl.next < |RoundWrites(env, s.ctl)| && WriteStep(env, s, lost, s')
    requires s.ctl.found.plan.consumeApplied ==> s.ctl.found.plan.dirty
    requires s.ctl.next == 0 ==> s.ctl.held == s.ctl.base
    requires s.ctl.found.plan.consumeApplied && s.ctl.next == 1 ==> s.ctl.held == s.ctl.base + 1
    requires s.ctl.next < |StatusWrites(s.ctl.found.plan)|
    ensures if s.ctl.next == 0 then Persists(s, s') else Resets(s, s')
    ensures s.ctl.next == 0 <==> RoundWrites(env, s.ctl)[s.ctl.next] == PersistStatus
  {
    WriteAt(env, s.ctl, s.ctl.next);
  }

  /** A write past it. */
  lemma PodWriteCase(env: Env, s: Sys, lost: bool, s': Sys)
    requires RoundInv(env, s) && s.ctl.Busy? && WriteStep(env, s, lost, s')
    requires s.ctl.found.plan.consumeApplied ==> s.ctl.found.plan.dirty
    requires s.ctl.next >= |StatusWrites(s.ctl.found.plan)|
    ensures Starts(env, s, s') || exists i :: Deletes(s, s', i)
    ensures RoundWrites(env, s.ctl)[s.ctl.next] != PersistStatus
  {
    var n := |StatusWrites(s.ctl.found.plan)|;
    WriteAt(env, s.ctl, s.ctl.next);
    if s.ctl.next < n + |s.ctl.found.plan.stale| {
      assert Deletes(s, s', s.ctl.next - n);
    } else {
      ConsumedIsDirty(env, s);
      NothingLeftAtStart(env, s);
      assert Starts(env, s, s');
    }
  }

  /** A write is one of four, and the events of the round are recorded with its status. */
  lemma WriteCases(env: Env, s: Sys, lost: bool, s': Sys)
    requires TraceInv(env, s) && RoundInv(env, s) && WriteStep(env, s, lost, s')
    ensures || Persists(s, s') || Resets(s, s') || Starts(env, s, s') || exists i :: Deletes(s, s', i)
    ensures var c := s.ctl;
            var read := s.store.log[c.base];
            s'.trace == if Persists(s, s')
                        then s.trace + RoundEvents(env.cfg, read.status, read.spec, c.lastRun, c.order, c.at)
                        else s.trace
  {
    ConsumedIsDirty(env, s);
    if s.ctl.next < |StatusWrites(s.ctl.found.plan)| {
      StatusWriteCase(env, s, lost, s');
    } else {
      PodWriteCase(env, s, lost, s');
    }
  }

  // ----- each invariant, step by step -----

  /** A persisted status is a legal run of the round's events from the one it replaces. */
  lemma PersistRuns(env: Env, s: Sys, s': Sys)
    requires TraceInv(env, s) && RoundInv(env, s) && s.ctl.Busy? && Persists(s, s')
    ensures s'.store.log != []
    ensures var c := s.ctl;
            var read := s.store.log[c.base];
            var es := RoundEvents(env.cfg, read.status, read.spec, c.lastRun, c.order, c.at);
            && Legal(env.cfg, Newest(s.store).status, es)
            && Run(env.cfg, Newest(s.store).status, es) == Newest(s'.store).status
  {
    var c := s.ctl;
    var read := s.store.log[c.base];
    RoundRuns(env.cfg, read.status, read.spec, c.lastRun, c.order, c.at);
  }

  lemma TraceExtends(env: Env, s: Sys, es: seq<Event>, s': Sys)
    requires TraceInv(env, s) && s'.trace == s.trace + es && s'.store.log != []
    requires Legal(env.cfg, Newest(s.store).status, es)
    requires Newest(s'.store).status == Run(env.cfg, Newest(s.store).status, es)
    ensures TraceInv(env, s')
  {
    RunConcat(env.cfg, BLANK, s.trace, es);
  }

  lemma TraceKeptByWrite(env: Env, s: Sys, lost: bool, s': Sys)
    requires TraceInv(env, s) && RoundInv(env, s) && WriteStep(env, s, lost, s')
    ensures TraceInv(env, s')
  {
    WriteCases(env, s, lost, s');
    if Persists(s, s') {
      var c := s.ctl;
      var read := s.store.log[c.base];
      PersistRuns(env, s, s');
      TraceExtends(env, s, RoundEvents(env.cfg, read.status, read.spec, c.lastRun, c.order, c.at), s');
    }
  }

  lemma TraceKeptByEvent(env: Env, s: Sys, e: Event, s': Sys)
    requires TraceInv(env, s) && Enabled(Newest(s.store).status, e)
    requires s'.trace == s.trace + [e] && s'.store.log != []
    requires Newest(s'.store).status == Step(env.cfg, Newest(s.store).status, e)
    ensures TraceInv(env, s')
  {
    assert Butlast([e]) == [];
    TraceExtends(env, s, [e], s');
  }

  lemma TraceKept(env: Env, s: Sys, l: Label, s': Sys)
    requires TraceInv(env, s) && RoundInv(env, s) && Next(env, s, l, s')
    ensures TraceInv(env, s')
  {
    match l
    case WriteDone => TraceKeptByWrite(env, s, false, s');
    case WriteLost => TraceKeptByWrite(env, s, true, s');
    case RecordRun(read, run) =>
      if s' != s {
        TraceKeptByEvent(env, s, ApplyRun(run), s');
      }
    case Analyst(e) => TraceKeptByEvent(env, s, e, s');
    case _ =>
  }

  /** A version is appended, or the log stays as it is. */
  predicate Appended(s: Sys, s': Sys) {
    || s'.store.log == s.store.log
    || (|s'.store.log| == |s.store.log| + 1 && s'.store.log[..|s.store.log|] == s.store.log)
  }

  lemma NextAppends(env: Env, s: Sys, l: Label, s': Sys)
    requires TraceInv(env, s) && RoundInv(env, s) && Next(env, s, l, s')
    ensures Appended(s, s') && s.now <= s'.now
    ensures forall i :: 0 <= i < |s.store.log| ==> s'.store.log[i] == s.store.log[i]
  {
    if l.WriteDone? || l.WriteLost? {
      WriteCases(env, s, l.WriteLost?, s');
    }
  }

  lemma WriteStatusValid(env: Env, s: Sys, lost: bool, s': Sys)
    requires TraceInv(env, s) && RoundInv(env, s) && LogInv(s) && WriteStep(env, s, lost, s')
    ensures s'.store.log != [] && ValidStatus(Newest(s'.store).status) && Windowed(Newest(s'.store).status)
    ensures TransitionAllowed(Newest(s.store).status, Newest(s'.store).status)
  {
    WriteCases(env, s, lost, s');
    if Persists(s, s') {
      var c := s.ctl;
      var read := s.store.log[c.base];
      PersistRuns(env, s, s');
      var es := RoundEvents(env.cfg, read.status, read.spec, c.lastRun, c.order, c.at);
      RunValid(env.cfg, Newest(s.store).status, es);
      RunWindowed(env.cfg, Newest(s.store).status, es);
    }
  }

  lemma NewStatusValid(env: Env, s: Sys, l: Label, s': Sys)
    requires TraceInv(env, s) && RoundInv(env, s) && LogInv(s) && Next(env, s, l, s')
    ensures s'.store.log != [] && ValidStatus(Newest(s'.store).status) && Windowed(Newest(s'.store).status)
    ensures TransitionAllowed(Newest(s.store).status, Newest(s'.store).status)
  {
    match l
    case WriteDone => WriteStatusValid(env, s, false, s');
    case WriteLost => WriteStatusValid(env, s, true, s');
    case RecordRun(read, run) =>
      StepValid(env.cfg, s.store.log[read].status, ApplyRun(run));
      WindowStep(env.cfg, s.store.log[read].status, ApplyRun(run));
    case Analyst(e) =>
      StepValid(env.cfg, Newest(s.store).status, e);
      WindowStep(env.cfg, Newest(s.store).status, e);
    case _ =>
  }

  lemma ChainGrows(log: seq<Entry>, log': seq<Entry>)
    requires log != [] && ValidChain(log)
    requires log' == log || (|log'| == |log| + 1 && log'[..|log|] == log)
    requires ValidStatus(Last(log').status) && Windowed(Last(log').status) && TransitionAllowed(Last(log).status, Last(log').status)
    ensures ValidChain(log')
  {
    forall i | 0 <= i < |log'|
      ensures ValidStatus(log'[i].status) && Windowed(log'[i].status) && (i > 0 ==> TransitionAllowed(log'[i - 1].status, log'[i].status))
    {
      assert i < |log| ==> log'[i] == log[i];
      assert 0 < i <= |log| ==> log'[i - 1] == log[i - 1];
    }
  }

  lemma LogKept(env: Env, s: Sys, l: Label, s': Sys)
    requires TraceInv(env, s) && RoundInv(env, s) && LogInv(s) && Next(env, s, l, s')
    ensures LogInv(s')
  {
    NextAppends(env, s, l, s');
    NewStatusValid(env, s, l, s');
    ChainGrows(s.store.log, s'.store.log);
  }

  lemma UpdateKeepsPods(pods: map<PodName, Pod>, n: PodName, p: Pod)
    requires GoodPods(pods) && n in pods
    requires p.name == n && p.script == pods[n].script && (pods[n].deleting ==> p.deleting)
    ensures GoodPods(pods[n := p])
  {
  }

  lemma PodsKeptByWrite(env: Env, s: Sys, lost: bool, s': Sys)
    requires TraceInv(env, s) && RoundInv(env, s) && PodInv(s) && WriteStep(env, s, lost, s')
    ensures PodInv(s')
  {
    WriteCases(env, s, lost, s');
    if i: nat :| Deletes(s, s', i) {
      var n := s.ctl.found.plan.stale[i].name;
      if n in s.store.pods {
        UpdateKeepsPods(s.store.pods, n, s.store.pods[n].(deleting := true));
      }
    }
  }

  lemma PodsKept(env: Env, s: Sys, l: Label, s': Sys)
    requires TraceInv(env, s) && RoundInv(env, s) && PodInv(s) && Next(env, s, l, s')
    ensures PodInv(s')
  {
    match l
    case WriteDone => PodsKeptByWrite(env, s, false, s');
    case WriteLost => PodsKeptByWrite(env, s, true, s');
    case Kubelet(pod) => UpdateKeepsPods(s.store.pods, pod.name, pod);
    case PodDeleted(n) =>
      if n in s.store.pods {
        UpdateKeepsPods(s.store.pods, n, s.store.pods[n].(deleting := true));
      }
    case _ =>
  }

  lemma ListedPods(pods: map<PodName, Pod>, listed: seq<Pod>)
    requires GoodPods(pods) && Lists(listed, pods)
    ensures CheckScripts(listed) && OneUndeleted(listed)
  {
    forall i, j | 0 <= i < |listed| && 0 <= j < |listed| && !listed[i].deleting && !listed[j].deleting
      ensures i == j
    {
      assert listed[i].name == listed[j].name;
    }
  }

  /** A round that has not written yet has the deletion of every stale pod before it. */
  lemma StaleDeletedLater(env: Env, c: Controller, p: Pod)
    requires c.Busy? && c.next == 0 && p in c.found.plan.stale
    requires c.found.plan.consumeApplied ==> c.found.plan.dirty
    ensures DeletesLater(env, c, p.name)
  {
    var stale := c.found.plan.stale;
    var i :| 0 <= i < |stale| && stale[i] == p;
    var j := |StatusWrites(c.found.plan)| + i;
    WriteAt(env, c, j);
    assert RoundWrites(env, c)[j] == DeletePod(p.name);
  }

  /** A round with a check to start deletes every undeleted pod it listed before. */
  lemma BeginDeletes(env: Env, s: Sys, c: Controller, n: PodName)
    requires c.Busy? && c.base < |s.store.log| && c.next == 0 && c.found.plan.due
    requires Lists(c.order, s.store.pods) && PodInv(s)
    requires c.found == Observe(env.cfg, s.store.log[c.base].status, s.store.log[c.base].spec, c.lastRun, c.order, c.at)
    requires n in s.store.pods && !s.store.pods[n].deleting
    ensures DeletesLater(env, c, n)
  {
    var read := s.store.log[c.base];
    FoldPartition(env.cfg, Begin(read.status, read.spec, c.lastRun, c.at), c.order, c.at);
    StaleDeletedLater(env, c, s.store.pods[n]);
  }

  lemma BeginKeeps(env: Env, s: Sys, version: nat, listed: seq<Pod>, s': Sys)
    requires PodInv(s) && BeginStep(env, s, version, listed, s')
    ensures RoundInv(env, s')
  {
    ListedPods(s.store.pods, listed);
    forall n | s'.ctl.found.plan.due && n in s.store.pods && !s.store.pods[n].deleting
      ensures DeletesLater(env, s'.ctl, n)
    {
      BeginDeletes(env, s, s'.ctl, n);
    }
  }

  lemma WriteKeeps(env: Env, s: Sys, s': Sys)
    requires TraceInv(env, s) && RoundInv(env, s) && WriteStep(env, s, false, s')
    ensures RoundInv(env, s')
  {
    var c, c' := s.ctl, s'.ctl;
    ConsumedIsDirty(env, s);
    WriteAt(env, c, c.next);
    assert RoundWrites(env, c') == RoundWrites(env, c);
    forall n | c.found.plan.due && c'.next < |RoundWrites(env, c)| && n in s'.store.pods && !s'.store.pods[n].deleting
      ensures DeletesLater(env, c', n)
    {
      assert n in s.store.pods && !s.store.pods[n].deleting;
      var j :| c.next <= j < |RoundWrites(env, c)| && RoundWrites(env, c)[j] == DeletePod(n);
      assert j != c.next;
      assert c'.next <= j && RoundWrites(env, c')[j] == DeletePod(n);
    }
  }

  predicate FewerLive(pods: map<PodName, Pod>, pods': map<PodName, Pod>) {
    forall n :: n in pods' && !pods'[n].deleting ==> n in pods && !pods[n].deleting
  }

  /** Versions added and pods lost leave a round what it knows. */
  lemma RoundFrame(env: Env, s: Sys, s': Sys)
    requires RoundInv(env, s) && s'.ctl == s.ctl && s.now <= s'.now
    requires |s.store.log| <= |s'.store.log| && forall i :: 0 <= i < |s.store.log| ==> s'.store.log[i] == s.store.log[i]
    requires FewerLive(s.store.pods, s'.store.pods)
    ensures RoundInv(env, s')
  {
  }

  lemma OthersKeep(env: Env, s: Sys, l: Label, s': Sys)
    requires s.store.log != [] && Next(env, s, l, s')
    requires !l.BeginRound? && !l.WriteDone? && !l.WriteLost? && !l.WriteFailed? && !l.Restart?
    ensures s'.ctl == s.ctl && FewerLive(s.store.pods, s'.store.pods)
  {
  }

  lemma RoundKept(env: Env, s: Sys, l: Label, s': Sys)
    requires TraceInv(env, s) && RoundInv(env, s) && PodInv(s) && Next(env, s, l, s')
    ensures RoundInv(env, s')
  {
    match l
    case BeginRound(version, listed) => BeginKeeps(env, s, version, listed, s');
    case WriteDone => WriteKeeps(env, s, s');
    case WriteLost =>
    case WriteFailed =>
    case Restart =>
    case _ =>
      NextAppends(env, s, l, s');
      OthersKeep(env, s, l, s');
      RoundFrame(env, s, s');
  }

  /** The version a round persists is the round of the version it read. */
  lemma PersistIsRound(env: Env, s: Sys, s': Sys)
    requires TraceInv(env, s) && RoundInv(env, s) && s.ctl.Busy? && Persists(s, s')
    ensures s'.store.log != [] && IsRound(env.cfg, Newest(s.store), Newest(s'.store))
    ensures s.store.log[s.ctl.base] == Newest(s.store)
  {
    ConsumedIsDirty(env, s);
    var c := s.ctl;
    assert RoundOf(env.cfg, Newest(s.store), Newest(s'.store), c.lastRun, c.order, c.at);
  }

  /** A reset comes right after the round that acted. */
  lemma ResetSpecStep(env: Env, s: Sys, s': Sys)
    requires RoundInv(env, s) && SpecInv(env, s) && s.store.log != [] && s.ctl.Busy? && Resets(s, s')
    ensures |s'.store.log| == |s.store.log| + 1 && SpecStep(env.cfg, s'.store.log, |s.store.log|)
    ensures Newest(s'.store).status.state == Closed ==> Newest(s'.store).spec.closed
  {
    var n := |s.store.log|;
    ConsumedIsDirty(env, s);
    assert s.store.log[n - 1].author == CheckStatus && SpecStep(env.cfg, s.store.log, n - 1);
    assert ResetRecorded(env.cfg, s'.store.log, n);
  }

  lemma PersistSpecStep(env: Env, s: Sys, s': Sys)
    requires TraceInv(env, s) && RoundInv(env, s) && s.ctl.Busy? && Persists(s, s')
    requires Newest(s.store).status.state == Closed ==> Newest(s.store).spec.closed
    ensures |s'.store.log| == |s.store.log| + 1 && SpecStep(env.cfg, s'.store.log, |s.store.log|)
    ensures Newest(s'.store).status.state == Closed ==> Newest(s'.store).spec.closed
  {
    PersistIsRound(env, s, s');
    ConsumedIsDirty(env, s);
  }

  lemma WriteSpecStep(env: Env, s: Sys, lost: bool, s': Sys)
    requires TraceInv(env, s) && RoundInv(env, s) && SpecInv(env, s) && WriteStep(env, s, lost, s') && s'.store.log != s.store.log
    ensures |s'.store.log| == |s.store.log| + 1 && SpecStep(env.cfg, s'.store.log, |s.store.log|)
    ensures Newest(s'.store).status.state == Closed ==> Newest(s'.store).spec.closed
  {
    WriteCases(env, s, lost, s');
    if Persists(s, s') {
      PersistSpecStep(env, s, s');
    } else {
      ResetSpecStep(env, s, s');
    }
  }

  /** A version that is no write of the reconciler. */
  lemma OtherSpecStep(env: Env, s: Sys, l: Label, s': Sys)
    requires s.store.log != [] && Next(env, s, l, s') && s'.store.log != s.store.log && !l.WriteDone? && !l.WriteLost?
    requires Newest(s.store).status.state == Closed ==> Newest(s.store).spec.closed
    ensures |s'.store.log| == |s.store.log| + 1 && SpecStep(env.cfg, s'.store.log, |s.store.log|)
    ensures Newest(s'.store).status.state == Closed ==> Newest(s'.store).spec.closed
  {
  }

  /** The version a step appends. */
  lemma NewSpecStep(env: Env, s: Sys, l: Label, s': Sys)
    requires TraceInv(env, s) && RoundInv(env, s) && SpecInv(env, s) && Next(env, s, l, s') && s'.store.log != s.store.log
    ensures |s'.store.log| == |s.store.log| + 1 && SpecStep(env.cfg, s'.store.log, |s.store.log|)
    ensures Newest(s'.store).status.state == Closed ==> Newest(s'.store).spec.closed
  {
    if l.WriteDone? || l.WriteLost? {
      WriteSpecStep(env, s, l.WriteLost?, s');
    } else {
      OtherSpecStep(env, s, l, s');
    }
  }

  lemma SpecsGrow(cfg: Config, log: seq<Entry>, log': seq<Entry>)
    requires log != [] && ValidSpecs(cfg, log)
    requires |log'| == |log| + 1 && log'[..|log|] == log
    requires SpecStep(cfg, log', |log|) && (Last(log').status.state == Closed ==> Last(log').spec.closed)
    ensures ValidSpecs(cfg, log')
  {
    assert forall i :: 0 <= i < |log| ==> log'[i] == log[i];
    forall i | 0 < i < |log'| ensures SpecStep(cfg, log', i) {
      assert i < |log| ==> SpecStep(cfg, log, i);
    }
  }

  /** The version a step adds, and that it adds no more. */
  lemma SpecAppended(env: Env, s: Sys, l: Label, s': Sys)
    requires TraceInv(env, s) && RoundInv(env, s) && SpecInv(env, s) && Next(env, s, l, s') && s'.store.log != s.store.log
    ensures |s'.store.log| == |s.store.log| + 1 && s'.store.log[..|s.store.log|] == s.store.log
    ensures SpecStep(env.cfg, s'.store.log, |s.store.log|)
    ensures Last(s'.store.log).status.state == Closed ==> Last(s'.store.log).spec.closed
  {
    NextAppends(env, s, l, s');
    NewSpecStep(env, s, l, s');
  }

  lemma SpecKept(env: Env, s: Sys, l: Label, s': Sys)
    requires TraceInv(env, s) && RoundInv(env, s) && SpecInv(env, s) && Next(env, s, l, s')
    ensures SpecInv(env, s')
  {
    if s'.store.log != s.store.log {
      SpecAppended(env, s, l, s');
      SpecsGrow(env.cfg, s.store.log, s'.store.log);
    }
  }

  lemma NextKeepsInv(env: Env, s: Sys, l: Label, s': Sys)
    requires Inv(env, s) && Next(env, s, l, s')
    ensures Inv(env, s')
  {
    TraceKept(env, s, l, s');
    LogKept(env, s, l, s');
    PodsKept(env, s, l, s');
    RoundKept(env, s, l, s');
    SpecKept(env, s, l, s');
  }

  lemma InitInv(env: Env, s: Sys)
    requires Init(s)
    ensures Inv(env, s)
  {
  }

  lemma {:induction false} AlwaysInv(env: Env, ss: seq<Sys>, ls: seq<Label>, i: nat)
    requires Behavior(env, ss, ls) && i < |ss|
    ensures Inv(env, ss[i])
  {
    if i == 0 {
      InitInv(env, ss[0]);
    } else {
      AlwaysInv(env, ss, ls, i - 1);
      NextKeepsInv(env, ss[i - 1], ls[i - 1], ss[i]);
    }
  }
}
