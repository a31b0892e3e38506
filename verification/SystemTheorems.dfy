/** What holds over every run of the system, whatever is interleaved, fails, or restarts. */
module SystemTheorems {
  import opened Options
  import opened Clock
  import opened Incidents
  import opened CheckPods
  import opened Storage
  import opened Reconcile
  import opened Lifecycle
  import opened System
  import opened Rounds
  import opened SystemInvariants
  import Machine
  import Replay

  // ----- persisted statuses -----

  lemma TraceAppends(env: Env, s: Sys, l: Label, s': Sys)
    requires Inv(env, s) && Next(env, s, l, s')
    ensures s.trace <= s'.trace
  {
    if l.WriteDone? || l.WriteLost? {
      WriteCases(env, s, l.WriteLost?, s');
    }
  }

  lemma StepTrace(env: Env, ss: seq<Sys>, ls: seq<Label>, i: nat)
    requires Behavior(env, ss, ls) && i < |ls|
    ensures ss[i].trace <= ss[i + 1].trace
  {
    AlwaysInv(env, ss, ls, i);
    TraceAppends(env, ss[i], ls[i], ss[i + 1]);
  }

  lemma {:induction false} PrefixesGrow(ts: seq<seq<Event>>, i: nat, j: nat)
    requires i <= j < |ts| && forall k :: 0 <= k < |ts| - 1 ==> ts[k] <= ts[k + 1]
    ensures ts[i] <= ts[j]
  {
    if i < j {
      PrefixesGrow(ts, i, j - 1);
    }
  }

  lemma TraceGrows(env: Env, ss: seq<Sys>, ls: seq<Label>, i: nat, j: nat)
    requires Behavior(env, ss, ls) && i <= j < |ss|
    ensures ss[i].trace <= ss[j].trace
  {
    var ts := seq(|ss|, k requires 0 <= k < |ss| => ss[k].trace);
    forall k | 0 <= k < |ts| - 1 ensures ts[k] <= ts[k + 1] {
      StepTrace(env, ss, ls, k);
    }
    PrefixesGrow(ts, i, j);
  }

  /**
    Whatever is interleaved, the persisted statuses form one chain of legal events: a later persisted
    status is reached from an earlier one by a legal run of applySpec, guarded record, recordApply
    and the writer's moves.
   */
  lemma PersistedStatusesFormAChain(env: Env, ss: seq<Sys>, ls: seq<Label>, i: nat, j: nat)
    requires Behavior(env, ss, ls) && i <= j < |ss|
    ensures ss[i].store.log != [] && ss[j].store.log != [] && |ss[i].trace| <= |ss[j].trace|
    ensures Legal(env.cfg, BLANK, ss[i].trace) && Run(env.cfg, BLANK, ss[i].trace) == Newest(ss[i].store).status
    ensures var es := ss[j].trace[|ss[i].trace|..];
            && Legal(env.cfg, Newest(ss[i].store).status, es)
            && Run(env.cfg, Newest(ss[i].store).status, es) == Newest(ss[j].store).status
  {
    AlwaysInv(env, ss, ls, i);
    AlwaysInv(env, ss, ls, j);
    TraceGrows(env, ss, ls, i, j);
    RunConcat(env.cfg, BLANK, ss[i].trace, ss[j].trace[|ss[i].trace|..]);
    assert ss[j].trace == ss[i].trace + ss[j].trace[|ss[i].trace|..];
  }

  /** Every version the API server ever accepted satisfies the validation rules, old to new included. */
  lemma PersistedVersionsValid(env: Env, ss: seq<Sys>, ls: seq<Label>, i: nat, v: nat)
    requires Behavior(env, ss, ls) && i < |ss| && v < |ss[i].store.log|
    ensures ValidStatus(ss[i].store.log[v].status)
    ensures v > 0 ==> TransitionAllowed(ss[i].store.log[v - 1].status, ss[i].store.log[v].status)
  {
    AlwaysInv(env, ss, ls, i);
  }

  // ----- check pods -----

  /** An incident never has two check pods that are not being deleted. */
  lemma AtMostOneLivePod(env: Env, ss: seq<Sys>, ls: seq<Label>, i: nat)
    requires Behavior(env, ss, ls) && i < |ss|
    ensures OneLive(ss[i].store.pods)
  {
    AlwaysInv(env, ss, ls, i);
  }

  /** The pod a reconcile keeps as live, chosen while it still records, runs the script current in the end. */
  lemma LivePodIsCurrent(env: Env, ss: seq<Sys>, ls: seq<Label>, i: nat)
    requires Behavior(env, ss, ls) && i < |ss|
    requires ss[i].ctl.Busy? && ss[i].ctl.found.plan.live.Some?
    ensures ss[i].ctl.found.plan.live.value.script == Machine.CurrentScript(ss[i].ctl.found.status)
    ensures !ss[i].ctl.found.plan.due
  {
    AlwaysInv(env, ss, ls, i);
    var c := ss[i].ctl;
    var read := ss[i].store.log[c.base];
    var a := Begin(read.status, read.spec, c.lastRun, c.at);
    FoldPartition(env.cfg, a, c.order, c.at);
    var p := c.found.plan.live.value;
    var k :| 0 <= k < |c.order| && c.order[k] == p;
    FoldOne(env.cfg, a, c.order, k, c.at);
  }

  /** Pod p of the round was finished, and its script current once the human decisions were applied. */
  predicate FinishedCurrent(env: Env, s: Sys, p: Pod)
    requires s.ctl.Busy? && s.ctl.base < |s.store.log|
  {
    p in s.ctl.order && GivesResult(env.cfg, Decided(s), p, s.ctl.at)
  }

  lemma RecordLeavesResult(cfg: Config, st: Status, r: RunResult, now: Time)
    requires r.script == Precondition || r.script == Verify
    requires r.script == Machine.CurrentScript(st)
    ensures ResultOfScript(Machine.Record(st, cfg, r, now).status, r.script).Some?
    ensures ResultOfScript(Machine.Record(st, cfg, r, now).status, r.script).value.exit == r.exit
  {
  }

  /** The status recording p's result makes, at the human decisions the round read. */
  function RecordedStatus(env: Env, s: Sys, p: Pod): Status
    requires s.ctl.Busy? && s.ctl.base < |s.store.log|
  {
    Machine.Record(Decided(s), env.cfg, ResultOf(p, env.cfg.checkTimeout, s.ctl.at).result, s.ctl.at).status
  }

  /** A round that finds p finished computes the status p's result makes, and reports it: no other pod has a say. */
  lemma RoundOfOne(env: Env, s: Sys, p: Pod)
    requires RoundInv(env, s) && s.ctl.Busy? && FinishedCurrent(env, s, p)
    ensures s.ctl.found.status == RecordedStatus(env, s, p)
    ensures RoundReports(env, s) == [(p.name, ResultOf(p, env.cfg.checkTimeout, s.ctl.at).result)]
    ensures var entry := ResultOfScript(s.ctl.found.status, p.script);
            entry.Some? && entry.value.exit == ResultOf(p, env.cfg.checkTimeout, s.ctl.at).result.exit
  {
    var c := s.ctl;
    var read := s.store.log[c.base];
    var a := Begin(read.status, read.spec, c.lastRun, c.at);
    var j :| 0 <= j < |c.order| && c.order[j] == p;
    FoldOne(env.cfg, a, c.order, j, c.at);
    FoldReportsOne(env.cfg, a, c.order, j, c.at);
    ExitExactly(p, env.cfg.checkTimeout, c.at);
    RecordLeavesResult(env.cfg, a.status, ResultOf(p, env.cfg.checkTimeout, c.at).result, c.at);
  }

  /** A round that finds no pod finished reports nothing, and only decides. */
  lemma RoundOfNone(env: Env, s: Sys)
    requires RoundInv(env, s) && s.ctl.Busy?
    requires forall p :: p in s.ctl.order ==> !FinishedCurrent(env, s, p)
    ensures s.ctl.found.status == Decided(s) && RoundReports(env, s) == []
    ensures s.ctl.found.lastRun == s.ctl.lastRun
  {
    var c := s.ctl;
    var read := s.store.log[c.base];
    var a := Begin(read.status, read.spec, c.lastRun, c.at);
    if j :| 0 <= j < |c.order| && !c.order[j].deleting {
      FoldOne(env.cfg, a, c.order, j, c.at);
      FoldReportsOne(env.cfg, a, c.order, j, c.at);
      assert c.order[j] in c.order;
    } else {
      FoldSkips(env.cfg, a, c.order, c.at);
      FoldReportsNone(env.cfg, a, c.order, c.at);
    }
  }

  /** By the time a round deletes, some version holds the status it computed. */
  lemma PersistedBeforeDelete(env: Env, s: Sys, s': Sys, k: nat)
    requires RoundInv(env, s) && s.ctl.Busy? && Deletes(s, s', k)
    ensures exists v :: 0 <= v < |s.store.log| && s.store.log[v].status == s.ctl.found.status
  {
    ConsumedIsDirty(env, s);
    var v := if s.ctl.found.plan.dirty then s.ctl.base + 1 else s.ctl.base;
    assert s.store.log[v].status == s.ctl.found.status;
  }

  /**
    The reconciler deletes a finished pod of the current script only when its result is persisted:
    some version holds the status that recording the result makes, with the result's exit.
   */
  lemma DeletedOnlyOncePersisted(env: Env, ss: seq<Sys>, ls: seq<Label>, i: nat, p: Pod, k: nat)
    requires Behavior(env, ss, ls) && i < |ls| && (ls[i].WriteDone? || ls[i].WriteLost?)
    requires ss[i].store.log != [] && ss[i].ctl.Busy? && ss[i].ctl.base < |ss[i].store.log|
    requires Deletes(ss[i], ss[i + 1], k) && ss[i].ctl.found.plan.stale[k] == p
    requires FinishedCurrent(env, ss[i], p)
    ensures exists v :: 0 <= v < |ss[i].store.log|
              && ss[i].store.log[v].status == RecordedStatus(env, ss[i], p)
              && ResultOfScript(ss[i].store.log[v].status, p.script).Some?
              && ResultOfScript(ss[i].store.log[v].status, p.script).value.exit
                 == ResultOf(p, env.cfg.checkTimeout, ss[i].ctl.at).result.exit
  {
    AlwaysInv(env, ss, ls, i);
    RoundOfOne(env, ss[i], p);
    PersistedBeforeDelete(env, ss[i], ss[i + 1], k);
  }

  /**
    Crash-safe replay, of every version ever stored: a reconcile of it records finished pods of one script,
    and one of what it makes, at any later time and with any of the pods still there, persists nothing.
   */
  lemma StoredVersionsReplay(env: Env, ss: seq<Sys>, ls: seq<Label>, i: nat, v: nat, run: Time, run': Time,
                             pods: seq<Pod>, s: Script, k: nat, now: Time, later: Time)
    requires Behavior(env, ss, ls) && i < |ss| && v < |ss[i].store.log| && !ss[i].store.log[v].spec.applied
    requires s == Precondition || s == Verify
    requires Replay.FinishedRuns(env.cfg, pods, s, now) && k <= |pods| && now <= later
    ensures var read := ss[i].store.log[v];
            var first := Observe(env.cfg, read.status, read.spec, run, pods, now);
            var again := Observe(env.cfg, first.status, read.spec, run', pods[k..], later);
            again.status == first.status && !again.plan.dirty
  {
    AlwaysInv(env, ss, ls, i);
    var read := ss[i].store.log[v];
    Replay.ReplayChangesNothing(env.cfg, read.status, read.spec, run, run', pods, s, k, now, later);
  }

  // ----- human decisions -----

  /** spec.closed, once set in some version, is set in every later one. */
  lemma {:induction false} ClosedIsNeverUnset(env: Env, s: Sys, v: nat, w: nat)
    requires SpecInv(env, s) && v <= w < |s.store.log| && s.store.log[v].spec.closed
    ensures s.store.log[w].spec.closed
  {
    if v < w {
      ClosedIsNeverUnset(env, s, v, w - 1);
      assert SpecStep(env.cfg, s.store.log, w);
    }
  }

  /** No version between v and w is a human's, w included. */
  predicate NoHumanAfter(log: seq<Entry>, v: nat, w: nat)
    requires w < |log|
  {
    forall k :: v < k <= w ==> log[k].author != Human
  }

  lemma {:induction false} FirstReset(log: seq<Entry>, v: nat, w: nat) returns (m: nat)
    requires v < w < |log| && log[v].spec.applied && !log[w].spec.applied
    ensures v < m <= w && log[m - 1].spec.applied && !log[m].spec.applied
  {
    if log[w - 1].spec.applied {
      m := w;
    } else {
      m := FirstReset(log, v, w - 1);
    }
  }

  /** Version k is the round of the version before it, and acts on its spec.applied. */
  ghost predicate ActedOn(cfg: Config, log: seq<Entry>, k: nat)
    requires 0 < k < |log|
  {
    Acts(log[k - 1]) && IsRound(cfg, log[k - 1], log[k])
  }

  /**
    A human's spec.applied is reset only right after a version in which a reconcile acted on it: what
    Observe makes of a version that holds it, with the apply result and the window of the time it did.
    A spec.closed is never overwritten, and Closed only follows it.
   */
  lemma HumanDecisionsAreNeverLost(env: Env, ss: seq<Sys>, ls: seq<Label>, i: nat, v: nat, w: nat)
    requires Behavior(env, ss, ls) && i < |ss| && v < w < |ss[i].store.log|
    ensures ss[i].store.log[v].spec.closed ==> ss[i].store.log[w].spec.closed
    ensures ss[i].store.log[w].status.state == Closed ==> ss[i].store.log[w].spec.closed
    ensures var log := ss[i].store.log;
            log[v].author == Human && log[v].spec.applied && !log[w].spec.applied && NoHumanAfter(log, v, w)
            ==> exists k :: v < k < w && ActedOn(env.cfg, log, k)
                            && log[k + 1].author == CheckReset
  {
    AlwaysInv(env, ss, ls, i);
    var log := ss[i].store.log;
    if log[v].spec.closed {
      ClosedIsNeverUnset(env, ss[i], v, w);
    }
    if log[v].author == Human && log[v].spec.applied && !log[w].spec.applied && NoHumanAfter(log, v, w) {
      var m := FirstReset(log, v, w);
      assert SpecStep(env.cfg, log, m) && log[m].author != Human;
      assert ResetRecorded(env.cfg, log, m);
      assert v < m - 1 && ActedOn(env.cfg, log, m - 1) && log[(m - 1) + 1].author == CheckReset;
    }
  }

  // ----- not before it was asked for -----

  ghost predicate RoundSince(cfg: Config, was: Entry, next: Entry, t: Time) {
    exists lastRun, order, at :: RoundOf(cfg, was, next, lastRun, order, at) && at >= t
  }

  /** Every round of version v or a later one, stored or in progress, is no older than t. */
  ghost predicate SinceInv(env: Env, s: Sys, v: nat, t: Time) {
    && s.now >= t
    && (s.ctl.Busy? && s.ctl.base >= v ==> s.ctl.at >= t)
    && forall k :: v < k < |s.store.log| && s.store.log[k].author == CheckStatus ==>
         RoundSince(env.cfg, s.store.log[k - 1], s.store.log[k], t)
  }

  /** The version a round persists is of the time it began. */
  lemma PersistedSince(env: Env, s: Sys, s': Sys, v: nat, t: Time)
    requires TraceInv(env, s) && RoundInv(env, s) && SinceInv(env, s, v, t) && s.ctl.Busy? && Persists(s, s')
    ensures s'.store.log != []
    ensures v < |s.store.log| ==> RoundSince(env.cfg, Newest(s.store), Newest(s'.store), t)
  {
    ConsumedIsDirty(env, s);
    var c := s.ctl;
    assert RoundOf(env.cfg, Newest(s.store), Newest(s'.store), c.lastRun, c.order, c.at);
  }

  /** A version that is added is a round's only if a round persisted it. */
  lemma AddedSince(env: Env, s: Sys, l: Label, s': Sys, v: nat, t: Time)
    requires TraceInv(env, s) && RoundInv(env, s) && SinceInv(env, s, v, t) && Next(env, s, l, s')
    ensures s'.store.log != []
    ensures s'.store.log == s.store.log || Newest(s'.store).author != CheckStatus
            || (v < |s.store.log| ==> RoundSince(env.cfg, Newest(s.store), Newest(s'.store), t))
  {
    if l.WriteDone? || l.WriteLost? {
      WriteCases(env, s, l.WriteLost?, s');
      if Persists(s, s') {
        PersistedSince(env, s, s', v, t);
      }
    }
  }

  lemma SinceGrows(env: Env, s: Sys, s': Sys, v: nat, t: Time)
    requires SinceInv(env, s, v, t) && Appended(s, s') && s.store.log != [] && s'.store.log != [] && s.now <= s'.now
    requires s'.ctl.Busy? && s'.ctl.base >= v ==> s'.ctl.at >= t
    requires s'.store.log == s.store.log || Newest(s'.store).author != CheckStatus
             || (v < |s.store.log| ==> RoundSince(env.cfg, Newest(s.store), Newest(s'.store), t))
    ensures SinceInv(env, s', v, t)
  {
    forall k | v < k < |s'.store.log| && s'.store.log[k].author == CheckStatus
      ensures RoundSince(env.cfg, s'.store.log[k - 1], s'.store.log[k], t)
    {
      assert s'.store.log[k - 1] == s.store.log[k - 1];
      assert k < |s.store.log| ==> s'.store.log[k] == s.store.log[k];
    }
  }

  /** A round in progress is the one before, or begins now. */
  lemma RoundOrNow(env: Env, s: Sys, l: Label, s': Sys)
    requires s.store.log != [] && Next(env, s, l, s') && s'.ctl.Busy?
    ensures s'.ctl.at == s.now || (s.ctl.Busy? && s'.ctl.base == s.ctl.base && s'.ctl.at == s.ctl.at)
  {
  }

  lemma SinceKept(env: Env, s: Sys, l: Label, s': Sys, v: nat, t: Time)
    requires TraceInv(env, s) && RoundInv(env, s) && SinceInv(env, s, v, t) && Next(env, s, l, s')
    ensures SinceInv(env, s', v, t)
  {
    NextAppends(env, s, l, s');
    AddedSince(env, s, l, s', v, t);
    if s'.ctl.Busy? {
      RoundOrNow(env, s, l, s');
    }
    SinceGrows(env, s, s', v, t);
  }

  lemma SinceBegins(env: Env, s: Sys, v: nat)
    requires RoundInv(env, s) && |s.store.log| <= v
    ensures SinceInv(env, s, v, s.now)
  {
  }

  lemma SinceStep(env: Env, ss: seq<Sys>, ls: seq<Label>, k: nat, v: nat, t: Time)
    requires Behavior(env, ss, ls) && k < |ls| && SinceInv(env, ss[k], v, t)
    ensures SinceInv(env, ss[k + 1], v, t)
  {
    AlwaysInv(env, ss, ls, k);
    SinceKept(env, ss[k], ls[k], ss[k + 1], v, t);
  }

  lemma {:induction false} AlwaysSince(env: Env, ss: seq<Sys>, ls: seq<Label>, i: nat, v: nat, j: nat, t: Time)
    requires Behavior(env, ss, ls) && j <= i < |ss| && SinceInv(env, ss[j], v, t)
    ensures SinceInv(env, ss[i], v, t)
  {
    if i > j {
      AlwaysSince(env, ss, ls, i - 1, v, j, t);
      SinceStep(env, ss, ls, i - 1, v, t);
    }
  }

  /**
    A decision is recorded no sooner than it was made: a version after v that acts on a spec.applied holds
    the apply result of a time no earlier than any at which v was not yet stored.
   */
  lemma ActedOnNoSooner(env: Env, ss: seq<Sys>, ls: seq<Label>, i: nat, v: nat, k: nat, j: nat)
    requires Behavior(env, ss, ls) && j <= i < |ss| && |ss[j].store.log| <= v < k < |ss[i].store.log|
    requires Acts(ss[i].store.log[k - 1]) && ss[i].store.log[k].author == CheckStatus
    ensures var entry := ResultOfScript(ss[i].store.log[k].status, Apply);
            entry.Some? && entry.value.exit == None && entry.value.since >= Rfc3339Copy(ss[j].now)
  {
    AlwaysInv(env, ss, ls, j);
    SinceBegins(env, ss[j], v);
    AlwaysSince(env, ss, ls, i, v, j, ss[j].now);
    var log := ss[i].store.log;
    var lastRun, order, at :| RoundOf(env.cfg, log[k - 1], log[k], lastRun, order, at) && at >= ss[j].now;
    Rfc3339CopyMonotone(ss[j].now, at);
  }

  /** Between versions j and k no human wrote, and no reconcile its status. */
  predicate Undisturbed(log: seq<Entry>, j: nat, k: nat)
    requires k <= |log|
  {
    forall i :: j < i < k ==> log[i].author != Human && log[i].author != CheckStatus
  }

  /** Without a human, spec.applied stays as the round at j left it unless the next version resets it. */
  lemma {:induction false} AppliedSince(env: Env, log: seq<Entry>, j: nat, k: nat)
    requires ValidSpecs(env.cfg, log) && 0 < j < k < |log| && Undisturbed(log, j, k + 1) && Acts(log[j - 1])
    requires log[j].author == CheckStatus
    ensures log[k].spec.applied <==> log[j + 1].author != CheckReset
    ensures !log[k].spec.closed
    decreases k
  {
    assert SpecStep(env.cfg, log, j) && SpecStep(env.cfg, log, k);
    if k > j + 1 {
      assert Undisturbed(log, j, k);
      AppliedSince(env, log, j, k - 1);
    }
  }

  /**
    One spec.applied is acted on twice exactly when its reset does not come right after the status: a
    later reconcile of a version still Open or Verifying then records a second apply and, when it finds
    the incident Verifying, starts the window again.
   */
  lemma ActedTwiceExactly(env: Env, ss: seq<Sys>, ls: seq<Label>, i: nat, j: nat, k: nat)
    requires Behavior(env, ss, ls) && i < |ss| && 0 < j < k < |ss[i].store.log|
    requires var log := ss[i].store.log;
             && ActedOn(env.cfg, log, j) && log[k].author == CheckStatus
             && Undisturbed(log, j, k)
    ensures var log := ss[i].store.log;
            ActedOn(env.cfg, log, k) <==>
              && log[j + 1].author != CheckReset
              && (log[k - 1].status.state == Open || log[k - 1].status.state == Verifying)
  {
    AlwaysInv(env, ss, ls, i);
    var log := ss[i].store.log;
    assert SpecStep(env.cfg, log, j) && SpecStep(env.cfg, log, k);
    if k > j + 1 {
      AppliedSince(env, log, j, k - 1);
    }
  }

  /** A reconcile that read a closed spec persists nothing but Closed, and starts no check. */
  lemma ClosedIsObeyed(env: Env, ss: seq<Sys>, ls: seq<Label>, i: nat)
    requires Behavior(env, ss, ls) && i < |ss|
    requires ss[i].ctl.Busy? && ss[i].ctl.base < |ss[i].store.log| && ss[i].store.log[ss[i].ctl.base].spec.closed
    ensures ss[i].ctl.found.status.state == Closed && !ss[i].ctl.found.plan.due
  {
    AlwaysInv(env, ss, ls, i);
    ConsumedIsDirty(env, ss[i]);
  }

  // ----- cadence and names -----

  /** A poll interval of at least a second, and a timeout that is not negative. */
  predicate Paced(cfg: Config) {
    cfg.pollInterval >= SECOND && cfg.checkTimeout >= 0
  }

  predicate PacedPod(n: PodName, p: Pod) {
    Sane(p) && n.CheckPodName? && p.created > ZERO && n.seqNo < Unix(p.created)
  }

  /** A run this process recorded: in memory, and later than the instant its pod is named after. */
  predicate PacedReport(lastRun: Time, x: (PodName, RunResult)) {
    x.0.CheckPodName? && ZERO < x.1.at <= lastRun && x.0.seqNo < Unix(x.1.at)
  }

  predicate LifeInv(s: Sys) {
    && s.now >= (EPOCH_SECONDS + 1) * SECOND && s.lastRun >= 0
    && (forall n :: n in s.store.pods ==> PacedPod(n, s.store.pods[n]))
    && (forall x :: x in s.reported ==> PacedReport(s.lastRun, x))
    && (s.ctl.Busy? ==> s.ctl.found.lastRun == s.lastRun)
  }

  lemma BeginPaced(env: Env, s: Sys, version: nat, listed: seq<Pod>, s': Sys)
    requires Paced(env.cfg) && Inv(env, s) && LifeInv(s) && BeginStep(env, s, version, listed, s')
    ensures LifeInv(s')
  {
    var read := s.store.log[version];
    var a := Begin(read.status, read.spec, s.lastRun, s.now);
    FoldReportsSeen(env.cfg, a, listed, s.now);
    forall x | x in FoldReports(env.cfg, a, listed, s.now) ensures PacedReport(s'.lastRun, x) {
      assert ReportOf(env.cfg, listed, s.now, x);
      var p :| p in listed && p.name == x.0 && ResultOf(p, env.cfg.checkTimeout, s.now) == Outcome(x.1, true);
      assert PacedPod(p.name, p);
      ResultNotBeforeCreation(p, env.cfg.checkTimeout, s.now);
    }
    forall x | x in s'.reported ensures PacedReport(s'.lastRun, x) {
      assert x in s.reported ==> PacedReport(s.lastRun, x);
    }
  }

  lemma StartPaced(env: Env, s: Sys, s': Sys)
    requires Paced(env.cfg) && Inv(env, s) && LifeInv(s) && s.ctl.Busy? && Starts(env, s, s')
    ensures var from := s.ctl.found.plan.from;
            && from >= s.lastRun && (from > ZERO ==> s.now >= from + env.cfg.pollInterval)
            && (s.ctl.found.status.verifyingSince.Some? ==> from >= s.ctl.found.status.verifyingSince.value)
    ensures forall n :: n in s'.store.pods ==> PacedPod(n, s'.store.pods[n])
  {
  }

  lemma WritePaced(env: Env, s: Sys, lost: bool, s': Sys)
    requires Paced(env.cfg) && Inv(env, s) && LifeInv(s) && WriteStep(env, s, lost, s')
    ensures LifeInv(s')
  {
    WriteCases(env, s, lost, s');
    if Starts(env, s, s') {
      StartPaced(env, s, s');
    }
  }

  lemma NextPaced(env: Env, s: Sys, l: Label, s': Sys)
    requires Paced(env.cfg) && Inv(env, s) && LifeInv(s) && Next(env, s, l, s')
    ensures LifeInv(s')
  {
    match l
    case BeginRound(version, listed) => BeginPaced(env, s, version, listed, s');
    case WriteDone => WritePaced(env, s, false, s');
    case WriteLost => WritePaced(env, s, true, s');
    case _ =>
  }

  lemma {:induction false} AlwaysPaced(env: Env, ss: seq<Sys>, ls: seq<Label>, i: nat)
    requires Behavior(env, ss, ls) && Paced(env.cfg) && i < |ss|
    ensures LifeInv(ss[i])
  {
    if i > 0 {
      AlwaysInv(env, ss, ls, i - 1);
      AlwaysPaced(env, ss, ls, i - 1);
      NextPaced(env, ss[i - 1], ls[i - 1], ss[i]);
    }
  }

  /**
    Within one process lifetime every check starts at least a poll interval after the end of every
    run recorded before it, and after the start of the settle window; and its pod's number is larger
    than that of every pod whose run was recorded.
   */
  lemma ChecksArePaced(env: Env, ss: seq<Sys>, ls: seq<Label>, i: nat)
    requires Behavior(env, ss, ls) && Paced(env.cfg) && i < |ls|
    requires (ls[i].WriteDone? || ls[i].WriteLost?) && ss[i].ctl.Busy? && Starts(env, ss[i], ss[i + 1])
    ensures var s, c := ss[i], ss[i].ctl;
            var name := StartedName(env, s);
            && (forall x :: x in s.reported ==> s.now >= x.1.at + env.cfg.pollInterval)
            && (forall x :: x in s.reported ==> x.0.CheckPodName? && name.seqNo > x.0.seqNo)
            && (c.found.status.verifyingSince.Some? && c.found.status.verifyingSince.value > ZERO ==>
                  s.now >= c.found.status.verifyingSince.value + env.cfg.pollInterval)
  {
    AlwaysInv(env, ss, ls, i);
    AlwaysPaced(env, ss, ls, i);
    StartPaced(env, ss[i], ss[i + 1]);
    assert forall x :: x in ss[i].reported ==> PacedReport(ss[i].lastRun, x);
  }

  // ----- a retried create -----

  /** The memory a list of reported runs leaves. */
  function LastEnd(xs: seq<(PodName, RunResult)>): Time {
    if xs == [] then ZERO else Later(LastEnd(xs[..|xs| - 1]), xs[|xs| - 1].1.at)
  }

  lemma {:induction false} LastEndConcat(xs: seq<(PodName, RunResult)>, ys: seq<(PodName, RunResult)>)
    ensures LastEnd(xs + ys) >= LastEnd(xs)
    ensures ys != [] ==> LastEnd(xs + ys) == Later(LastEnd(xs + ys[..|ys| - 1]), ys[|ys| - 1].1.at)
  {
    if ys == [] {
      assert xs + ys == xs;
    } else {
      assert (xs + ys)[..|xs + ys| - 1] == xs + ys[..|ys| - 1];
      LastEndConcat(xs, ys[..|ys| - 1]);
    }
  }

  /** It is the latest end among them, so repeats and order do not matter. */
  lemma {:induction false} LastEndIsLatest(xs: seq<(PodName, RunResult)>)
    ensures LastEnd(xs) >= ZERO && forall x :: x in xs ==> x.1.at <= LastEnd(xs)
    ensures LastEnd(xs) == ZERO || exists x :: x in xs && x.1.at == LastEnd(xs)
  {
    if xs != [] {
      var init, last := xs[..|xs| - 1], xs[|xs| - 1];
      LastEndIsLatest(init);
      assert forall x :: x in xs <==> x in init || x == last;
    }
  }

  lemma SameRunsSameEnd(xs: seq<(PodName, RunResult)>, ys: seq<(PodName, RunResult)>)
    requires forall x :: x in xs <==> x in ys
    ensures LastEnd(xs) == LastEnd(ys)
  {
    LastEndIsLatest(xs);
    LastEndIsLatest(ys);
  }

  /** The fold's memory is the memory its reports leave. */
  lemma {:induction false} FoldLastEnd(cfg: Config, a: Seen, pods: seq<Pod>, now: Time, before: seq<(PodName, RunResult)>)
    requires a.lastRun == LastEnd(before)
    ensures Fold(cfg, a, pods, now).lastRun == LastEnd(before + FoldReports(cfg, a, pods, now))
    decreases |pods|
  {
    if pods == [] {
      assert before + [] == before;
    } else {
      var next, rest := Visit(cfg, a, pods[0], now), FoldReports(cfg, Visit(cfg, a, pods[0], now), pods[1..], now);
      if GivesResult(cfg, a.status, pods[0], now) {
        var x := (pods[0].name, ResultOf(pods[0], cfg.checkTimeout, now).result);
        LastEndConcat(before, [x]);
        assert before + [] == before;
        FoldLastEnd(cfg, next, pods[1..], now, before + [x]);
        assert before + [x] + rest == before + ([x] + rest);
      } else {
        FoldLastEnd(cfg, next, pods[1..], now, before);
        assert FoldReports(cfg, a, pods, now) == rest;
      }
    }
  }

  /** The memory is that of the runs this process reported, and a round's is the process's. */
  predicate MemoryInv(s: Sys) {
    s.lastRun == LastEnd(s.reported) && (s.ctl.Busy? ==> s.ctl.found.lastRun == s.lastRun)
  }

  lemma {:induction false} AlwaysRemembers(env: Env, ss: seq<Sys>, ls: seq<Label>, i: nat)
    requires Behavior(env, ss, ls) && i < |ss|
    ensures MemoryInv(ss[i])
  {
    if i > 0 {
      var s, l := ss[i - 1], ls[i - 1];
      AlwaysRemembers(env, ss, ls, i - 1);
      assert Next(env, s, l, ss[(i - 1) + 1]);
      if l.BeginRound? {
        var read := s.store.log[l.version];
        FoldLastEnd(env.cfg, Begin(read.status, read.spec, s.lastRun, s.now), l.listed, s.now, s.reported);
      }
    }
  }

  /**
    A create retried with nothing recorded in between asks for the same pod: two starts of the same script
    that follow the same reported runs, for the same window, have the same name. So the second one, while
    the first one's pod is there, adds none.
   */
  lemma RetriedCreateReusesName(env: Env, ss: seq<Sys>, ls: seq<Label>, i: nat, j: nat)
    requires Behavior(env, ss, ls) && i < |ls| && j < |ls| && ss[i].ctl.Busy? && ss[j].ctl.Busy?
    requires Starts(env, ss[i], ss[i + 1]) && Starts(env, ss[j], ss[j + 1])
    requires forall x :: x in ss[i].reported <==> x in ss[j].reported
    requires ss[i].ctl.found.status.verifyingSince == ss[j].ctl.found.status.verifyingSince
    requires Machine.CurrentScript(ss[i].ctl.found.status) == Machine.CurrentScript(ss[j].ctl.found.status)
    ensures StartedName(env, ss[i]) == StartedName(env, ss[j])
    ensures StartedName(env, ss[i]) in ss[j].store.pods ==> ss[j + 1].store.pods == ss[j].store.pods
  {
    AlwaysInv(env, ss, ls, i);
    AlwaysInv(env, ss, ls, j);
    AlwaysRemembers(env, ss, ls, i);
    AlwaysRemembers(env, ss, ls, j);
    SameRunsSameEnd(ss[i].reported, ss[j].reported);
  }

  /** The name of the pod a round starts. */
  function StartedName(env: Env, s: Sys): PodName
    requires s.ctl.Busy?
  {
    CheckName(env.uid, Machine.CurrentScript(s.ctl.found.status), s.ctl.found.plan.from)
  }
}
