/**
  The settle window over whole runs of the system: while an incident stays Verifying its window never
  moves back, as long as no run is recorded before the instant it is said to have ended.
 */
module Windows {
  import opened Options
  import opened Clock
  import opened Incidents
  import opened CheckPods
  import opened Storage
  import opened Reconcile
  import opened Lifecycle
  import opened System
  import opened SystemInvariants
  import opened SystemTheorems
  import Machine

  /** Every run a round reports ended no later than the round. */
  predicate ReportsTimely(env: Env, s: Sys)
    requires s.ctl.Busy? && s.ctl.base < |s.store.log|
  {
    forall x :: x in RoundReports(env, s) ==> x.1.at <= s.ctl.at
  }

  /** The step records no run before it ended. */
  predicate Timely(env: Env, s: Sys, l: Label, s': Sys) {
    && (l.RecordRun? ==> l.run.at <= s.now)
    && (l.BeginRound? && s'.ctl.Busy? && s'.ctl.base < |s'.store.log| ==> ReportsTimely(env, s'))
  }

  predicate AllTimely(env: Env, ss: seq<Sys>, ls: seq<Label>)
    requires |ss| == |ls| + 1
  {
    forall k :: 0 <= k < |ls| ==> Timely(env, ss[k], ls[k], ss[k + 1])
  }

  /** The window of st, if it has one, starts no later than t. */
  predicate StartedBy(st: Status, t: Time) {
    st.verifyingSince.Some? ==> st.verifyingSince.value <= t
  }

  /** From was to st the window, if both have one, does not move back. */
  predicate NoRewind(was: Status, st: Status) {
    was.verifyingSince.Some? && st.verifyingSince.Some? ==> was.verifyingSince.value <= st.verifyingSince.value
  }

  /** No window starts ahead of the clock, or before the one in the version just before. */
  predicate WindowsInOrder(s: Sys) {
    && (forall v :: 0 <= v < |s.store.log| ==> StartedBy(s.store.log[v].status, s.now))
    && (forall v :: 0 < v < |s.store.log| ==> NoRewind(s.store.log[v - 1].status, s.store.log[v].status))
  }

  predicate RoundTimely(env: Env, s: Sys) {
    s.ctl.Busy? && s.ctl.base < |s.store.log| ==>
      ReportsTimely(env, s) && StartedBy(s.store.log[s.ctl.base].status, s.ctl.at)
  }

  lemma DecidedInOrder(s: Sys)
    requires s.ctl.Busy? && s.ctl.base < |s.store.log|
    requires ValidStatus(s.store.log[s.ctl.base].status) && Windowed(s.store.log[s.ctl.base].status)
    requires StartedBy(s.store.log[s.ctl.base].status, s.ctl.at)
    ensures StartedBy(Decided(s), s.ctl.at) && NoRewind(s.store.log[s.ctl.base].status, Decided(s)) && Windowed(Decided(s))
  {
    var was := s.store.log[s.ctl.base].status;
    if was.verifyingSince.Some? {
      Rfc3339CopyMonotone(was.verifyingSince.value, s.ctl.at);
    }
  }

  lemma RecordInOrder(cfg: Config, st: Status, r: RunResult, now: Time)
    requires Windowed(st) && StartedBy(st, now) && r.at <= now
    requires (r.script == Precondition || r.script == Verify) && r.script == Machine.CurrentScript(st)
    ensures var next := Machine.Record(st, cfg, r, now).status;
            StartedBy(next, now) && (next.verifyingSince.Some? && st.verifyingSince.Some? ==> next.verifyingSince == st.verifyingSince)
  {
  }

  /** What a round computes starts its window by the time of the round, and no sooner than what it read. */
  lemma FoundInOrder(env: Env, s: Sys)
    requires RoundInv(env, s) && LogInv(s) && s.ctl.Busy? && RoundTimely(env, s)
    ensures StartedBy(s.ctl.found.status, s.ctl.at) && NoRewind(s.store.log[s.ctl.base].status, s.ctl.found.status)
  {
    DecidedInOrder(s);
    if p :| p in s.ctl.order && FinishedCurrent(env, s, p) {
      var r := ResultOf(p, env.cfg.checkTimeout, s.ctl.at).result;
      RoundOfOne(env, s, p);
      ExitExactly(p, env.cfg.checkTimeout, s.ctl.at);
      assert RoundReports(env, s)[0] == (p.name, r);
      assert (p.name, r) in RoundReports(env, s);
      RecordInOrder(env.cfg, Decided(s), r, s.ctl.at);
      assert Decided(s).state != Open ==> Decided(s).verifyingSince.Some?;
    } else {
      RoundOfNone(env, s);
    }
  }

  /** A step adds at most one version, in order. */
  lemma NewestInOrder(env: Env, s: Sys, l: Label, s': Sys)
    requires TraceInv(env, s) && RoundInv(env, s) && LogInv(s) && WindowsInOrder(s) && RoundTimely(env, s)
    requires Next(env, s, l, s') && Timely(env, s, l, s')
    ensures s'.store.log != [] && StartedBy(Newest(s'.store).status, s'.now)
    ensures NoRewind(Newest(s.store).status, Newest(s'.store).status)
  {
    match l
    case WriteDone => WriteInOrder(env, s, false, s');
    case WriteLost => WriteInOrder(env, s, true, s');
    case RecordRun(read, run) => RecordApplyInOrder(s.store.log[read].status, run, s.now);
    case _ => ElseInOrder(env, s, l, s');
  }

  /** The other steps leave the window, or end it. */
  lemma ElseInOrder(env: Env, s: Sys, l: Label, s': Sys)
    requires s.store.log != [] && StartedBy(Newest(s.store).status, s.now) && Next(env, s, l, s')
    requires !l.WriteDone? && !l.WriteLost? && !l.RecordRun?
    ensures s'.store.log != [] && StartedBy(Newest(s'.store).status, s'.now)
    ensures NoRewind(Newest(s.store).status, Newest(s'.store).status)
  {
  }

  lemma WriteInOrder(env: Env, s: Sys, lost: bool, s': Sys)
    requires TraceInv(env, s) && RoundInv(env, s) && LogInv(s) && RoundTimely(env, s) && WriteStep(env, s, lost, s')
    requires StartedBy(Newest(s.store).status, s.now)
    ensures s'.store.log != [] && StartedBy(Newest(s'.store).status, s'.now)
    ensures NoRewind(Newest(s.store).status, Newest(s'.store).status)
  {
    WriteCases(env, s, lost, s');
    if Persists(s, s') {
      FoundInOrder(env, s);
      assert Newest(s'.store).status == s.ctl.found.status && s.store.log[s.ctl.base] == Newest(s.store);
    } else {
      assert Newest(s'.store).status == Newest(s.store).status;
    }
  }

  lemma RecordApplyInOrder(st: Status, run: RunResult, now: Time)
    requires StartedBy(st, now) && run.at <= now
    ensures var next := Machine.RecordApply(st, run).status;
            StartedBy(next, now) && (st.state != Open ==> NoRewind(st, next)) && (st.state == Open && Windowed(st) ==> NoRewind(st, next))
  {
  }

  lemma OrderGrows(s: Sys, s': Sys)
    requires s.store.log != [] && WindowsInOrder(s) && Appended(s, s') && s.now <= s'.now && s'.store.log != []
    requires StartedBy(Newest(s'.store).status, s'.now) && NoRewind(Newest(s.store).status, Newest(s'.store).status)
    ensures WindowsInOrder(s')
  {
    forall v | 0 <= v < |s'.store.log|
      ensures StartedBy(s'.store.log[v].status, s'.now)
      ensures v > 0 ==> NoRewind(s'.store.log[v - 1].status, s'.store.log[v].status)
    {
      assert v < |s.store.log| ==> s'.store.log[v] == s.store.log[v];
      assert 0 < v <= |s.store.log| ==> s'.store.log[v - 1] == s.store.log[v - 1];
    }
  }

  lemma WindowsKept(env: Env, s: Sys, l: Label, s': Sys)
    requires TraceInv(env, s) && RoundInv(env, s) && LogInv(s) && WindowsInOrder(s) && RoundTimely(env, s)
    requires Next(env, s, l, s') && Timely(env, s, l, s')
    ensures WindowsInOrder(s')
  {
    NextAppends(env, s, l, s');
    NewestInOrder(env, s, l, s');
    OrderGrows(s, s');
  }

  /** A write is of the same round, which keeps what it read. */
  lemma RoundTimelyKept(env: Env, s: Sys, l: Label, s': Sys)
    requires TraceInv(env, s) && RoundInv(env, s) && WindowsInOrder(s) && RoundTimely(env, s)
    requires Next(env, s, l, s') && Timely(env, s, l, s')
    ensures RoundTimely(env, s')
  {
    NextAppends(env, s, l, s');
    if !l.BeginRound? && s'.ctl.Busy? {
      assert s.ctl.Busy? && s'.ctl == s.ctl.(held := s'.ctl.held, next := s'.ctl.next);
      assert RoundReports(env, s') == RoundReports(env, s);
    }
  }

  lemma {:induction false} AlwaysInOrder(env: Env, ss: seq<Sys>, ls: seq<Label>, i: nat)
    requires Behavior(env, ss, ls) && AllTimely(env, ss, ls) && i < |ss|
    ensures WindowsInOrder(ss[i]) && RoundTimely(env, ss[i])
  {
    if i > 0 {
      AlwaysInv(env, ss, ls, i - 1);
      AlwaysInOrder(env, ss, ls, i - 1);
      InOrderStep(env, ss, ls, i - 1);
    }
  }

  lemma InOrderStep(env: Env, ss: seq<Sys>, ls: seq<Label>, k: nat)
    requires Behavior(env, ss, ls) && AllTimely(env, ss, ls) && k < |ls|
    requires Inv(env, ss[k]) && WindowsInOrder(ss[k]) && RoundTimely(env, ss[k])
    ensures WindowsInOrder(ss[k + 1]) && RoundTimely(env, ss[k + 1])
  {
    assert Timely(env, ss[k], ls[k], ss[k + 1]);
    WindowsKept(env, ss[k], ls[k], ss[k + 1]);
    RoundTimelyKept(env, ss[k], ls[k], ss[k + 1]);
  }

  lemma {:induction false} ChainInOrder(s: Sys, v: nat, u: nat)
    requires WindowsInOrder(s) && v <= u < |s.store.log|
    requires forall k :: v <= k <= u ==> s.store.log[k].status.verifyingSince.Some?
    ensures NoRewind(s.store.log[v].status, s.store.log[u].status)
  {
    if v < u {
      ChainInOrder(s, v, u - 1);
      assert NoRewind(s.store.log[u - 1].status, s.store.log[u].status);
    }
  }

  /**
    In every run of the system in which no run is recorded before it ended: over stored versions that are
    all Verifying, verifyingSince never moves back, and it is never ahead of the clock. Stale reads, crashes,
    the other controller and people may come between.
   */
  lemma WindowNeverMovesBack(env: Env, ss: seq<Sys>, ls: seq<Label>, i: nat, v: nat, u: nat)
    requires Behavior(env, ss, ls) && AllTimely(env, ss, ls) && i < |ss| && v <= u < |ss[i].store.log|
    requires forall k :: v <= k <= u ==> ss[i].store.log[k].status.state == Verifying
    ensures var was, st := ss[i].store.log[v].status, ss[i].store.log[u].status;
            && was.verifyingSince.Some? && st.verifyingSince.Some?
            && was.verifyingSince.value <= st.verifyingSince.value <= ss[i].now
  {
    AlwaysInv(env, ss, ls, i);
    AlwaysInOrder(env, ss, ls, i);
    forall k | v <= k <= u ensures ss[i].store.log[k].status.verifyingSince.Some? {
      assert Windowed(ss[i].store.log[k].status);
    }
    ChainInOrder(ss[i], v, u);
  }
}
