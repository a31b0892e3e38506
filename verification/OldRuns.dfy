/**
  Which settle window a verify run counts in. A run of a pod created before the window is recorded in it
  whenever the pod is found done; and a check can start early for a window that is over.
 */
module OldRuns {
  import opened Options
  import opened Clock
  import opened Incidents
  import opened CheckPods
  import opened Storage
  import opened Reconcile
  import opened Lifecycle
  import opened System
  import opened Rounds
  import opened SystemInvariants
  import opened SystemTheorems
  import Machine

  // ----- when an old run is recorded -----

  /** The round in progress decided to be in window w, and checks it. */
  predicate InWindow(env: Env, s: Sys, w: Time) {
    && s.ctl.Busy? && s.ctl.base < |s.store.log|
    && Decided(s).verifyingSince == Some(w) && Machine.CurrentScript(Decided(s)) == Verify
  }

  /** It lists p: an undeleted verify pod, done, and created before w. */
  predicate OldPod(env: Env, s: Sys, w: Time, p: Pod)
    requires s.ctl.Busy?
  {
    && p in s.ctl.order && !p.deleting && p.script == Verify && p.created < w
    && ResultOf(p, env.cfg.checkTimeout, s.ctl.at).done
  }

  /** It reports the run of a pod created before w. */
  predicate ReportsOldRun(env: Env, s: Sys, w: Time)
    requires s.ctl.Busy? && s.ctl.base < |s.store.log|
  {
    exists p :: p in s.ctl.order && !p.deleting && p.created < w
                && (p.name, ResultOf(p, env.cfg.checkTimeout, s.ctl.at).result) in RoundReports(env, s)
  }

  /** What a round makes of an old pod's run: what it would of any other. */
  lemma OldRunCounts(env: Env, s: Sys, w: Time, p: Pod)
    requires RoundInv(env, s) && InWindow(env, s, w) && OldPod(env, s, w, p)
    ensures ReportsOldRun(env, s, w)
    ensures var r, st := ResultOf(p, env.cfg.checkTimeout, s.ctl.at).result, s.ctl.found.status;
            && ResultOfScript(st, Verify).Some? && ResultOfScript(st, Verify).value.exit == r.exit
            && (st.state == Resolved <==> r.exit == Some(0))
            && (st.state == Open <==> r.exit == Some(1) && r.at - w >= env.cfg.settleWindow)
  {
    RoundOfOne(env, s, p);
    ExitExactly(p, env.cfg.checkTimeout, s.ctl.at);
    assert (p.name, ResultOf(p, env.cfg.checkTimeout, s.ctl.at).result) in RoundReports(env, s);
  }

  /**
    In every run of the system, a round in window w reports a run of a pod created before w exactly when it
    lists such a verify pod, done: nothing compares the run with the window. Its exit 0 resolves the
    incident, and its exit 1 moves it back to Open as any other would.
   */
  lemma OldRunRecordedExactly(env: Env, ss: seq<Sys>, ls: seq<Label>, i: nat, w: Time)
    requires Behavior(env, ss, ls) && i < |ss| && InWindow(env, ss[i], w)
    ensures ReportsOldRun(env, ss[i], w) <==> exists p :: OldPod(env, ss[i], w, p)
    ensures forall p :: OldPod(env, ss[i], w, p) ==>
              var r, st := ResultOf(p, env.cfg.checkTimeout, ss[i].ctl.at).result, ss[i].ctl.found.status;
              && ResultOfScript(st, Verify).Some? && ResultOfScript(st, Verify).value.exit == r.exit
              && (st.state == Resolved <==> r.exit == Some(0))
              && (st.state == Open <==> r.exit == Some(1) && r.at - w >= env.cfg.settleWindow)
  {
    AlwaysInv(env, ss, ls, i);
    forall p | OldPod(env, ss[i], w, p)
      ensures var r, st := ResultOf(p, env.cfg.checkTimeout, ss[i].ctl.at).result, ss[i].ctl.found.status;
              && ResultOfScript(st, Verify).Some? && ResultOfScript(st, Verify).value.exit == r.exit
              && (st.state == Resolved <==> r.exit == Some(0))
              && (st.state == Open <==> r.exit == Some(1) && r.at - w >= env.cfg.settleWindow)
      ensures ReportsOldRun(env, ss[i], w)
    {
      OldRunCounts(env, ss[i], w, p);
    }
    if ReportsOldRun(env, ss[i], w) {
      NoOldPodNoReport(env, ss[i], w);
    }
  }

  lemma NoOldPodNoReport(env: Env, s: Sys, w: Time)
    requires RoundInv(env, s) && InWindow(env, s, w) && ReportsOldRun(env, s, w)
    ensures exists p :: OldPod(env, s, w, p)
  {
    var p :| p in s.ctl.order && !p.deleting && p.created < w
             && (p.name, ResultOf(p, env.cfg.checkTimeout, s.ctl.at).result) in RoundReports(env, s);
    if q :| q in s.ctl.order && FinishedCurrent(env, s, q) {
      var j :| 0 <= j < |s.ctl.order| && s.ctl.order[j] == p;
      var k :| 0 <= k < |s.ctl.order| && s.ctl.order[k] == q;
      assert OldPod(env, s, w, p);
    } else {
      RoundOfNone(env, s);
    }
  }

  // ----- when a check starts early -----

  /** A check started less than a poll interval into the newest window is for another one: its round read an older version. */
  lemma EarlyStartIsForAnotherWindow(env: Env, ss: seq<Sys>, ls: seq<Label>, i: nat, w: Time)
    requires Behavior(env, ss, ls) && Paced(env.cfg) && i < |ls|
    requires (ls[i].WriteDone? || ls[i].WriteLost?) && ss[i].ctl.Busy? && Starts(env, ss[i], ss[i + 1])
    requires Newest(ss[i].store).status.verifyingSince == Some(w) && w > ZERO && ss[i].now < w + env.cfg.pollInterval
    ensures ss[i].ctl.found.status.verifyingSince != Some(w)
    ensures ss[i].ctl.base < |ss[i].store.log| - 1
  {
    AlwaysInv(env, ss, ls, i);
    ChecksArePaced(env, ss, ls, i);
    ConsumedIsDirty(env, ss[i]);
  }
}
