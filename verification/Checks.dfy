/**
  Which checks the system runs: only scripts with a source, one after the other while there is one, and no
  pod past its time.
 */
module Checks {
  import opened Options
  import opened Clock
  import opened Incidents
  import opened CheckPods
  import opened Storage
  import opened Reconcile
  import opened Lifecycle
  import opened System
  import opened Rounds
  import opened SystemInvariants
  import opened SystemTheorems
  import Machine

  // ----- only scripts with a source -----

  /**
    In every run of the system, a round keeps as live only a pod whose script has a source in the status it
    observed, and starts a check only for such a script.
   */
  lemma ChecksHaveASource(env: Env, ss: seq<Sys>, ls: seq<Label>, i: nat)
    requires Behavior(env, ss, ls) && i < |ss| && ss[i].ctl.Busy?
    ensures var found := ss[i].ctl.found;
            && (found.plan.live.Some? ==> Machine.ScriptBody(found.status, found.plan.live.value.script) != "")
            && forall w :: w in RoundWrites(env, ss[i].ctl) && w.StartCheck? ==> Machine.ScriptBody(found.status, w.script) != ""
  {
    AlwaysInv(env, ss, ls, i);
    var c := ss[i].ctl;
    Machine.CurrentScriptExactly(c.found.status);
    if c.found.plan.live.Some? {
      LivePodIsCurrent(env, ss, ls, i);
      AlwaysListsChecks(ss[i].ctl);
      LiveIsListed(env, ss[i]);
    }
    ConsumedIsDirty(env, ss[i]);
    forall k | 0 <= k < |RoundWrites(env, c)| && RoundWrites(env, c)[k].StartCheck?
      ensures Machine.ScriptBody(c.found.status, RoundWrites(env, c)[k].script) != ""
    {
      WriteAt(env, c, k);
    }
  }

  lemma AlwaysListsChecks(c: Controller)
    requires c.Busy? && CheckScripts(c.order)
    ensures forall p :: p in c.order ==> p.script == Precondition || p.script == Verify
  {
  }

  lemma LiveIsListed(env: Env, s: Sys)
    requires RoundInv(env, s) && s.ctl.Busy? && s.ctl.found.plan.live.Some?
    ensures s.ctl.found.plan.live.value in s.ctl.order && !s.ctl.found.plan.live.value.deleting
  {
    var read := s.store.log[s.ctl.base];
    FoldPartition(env.cfg, Begin(read.status, read.spec, s.ctl.lastRun, s.ctl.at), s.ctl.order, s.ctl.at);
  }

  lemma OnlyStartsAdd(env: Env, s: Sys, lost: bool, s': Sys, n: PodName)
    requires TraceInv(env, s) && RoundInv(env, s) && WriteStep(env, s, lost, s')
    requires n in s'.store.pods && n !in s.store.pods
    ensures Starts(env, s, s')
  {
    WriteCases(env, s, lost, s');
  }

  lemma StartedPod(env: Env, s: Sys, s': Sys, n: PodName)
    requires s.ctl.Busy? && Starts(env, s, s') && n in s'.store.pods && n !in s.store.pods
    ensures Machine.ScriptBody(s.ctl.found.status, s'.store.pods[n].script) != ""
    ensures s'.store.pods[n].phase == Pending && s'.store.pods[n].created == Rfc3339Copy(s.now)
  {
    Machine.CurrentScriptExactly(s.ctl.found.status);
  }

  lemma OnlyWritesAdd(env: Env, s: Sys, l: Label, s': Sys, n: PodName)
    requires s.store.log != [] && Next(env, s, l, s') && n in s'.store.pods && n !in s.store.pods
    ensures l.WriteDone? || l.WriteLost?
  {
  }

  /** A pod a step adds has a script with a source in the status of its round. */
  lemma NewPodsHaveASource(env: Env, ss: seq<Sys>, ls: seq<Label>, i: nat, n: PodName)
    requires Behavior(env, ss, ls) && i < |ls| && n in ss[i + 1].store.pods && n !in ss[i].store.pods
    ensures ss[i].ctl.Busy? && Machine.ScriptBody(ss[i].ctl.found.status, ss[i + 1].store.pods[n].script) != ""
    ensures ss[i + 1].store.pods[n].phase == Pending && ss[i + 1].store.pods[n].created == Rfc3339Copy(ss[i].now)
  {
    AlwaysInv(env, ss, ls, i);
    OnlyWritesAdd(env, ss[i], ls[i], ss[i + 1], n);
    OnlyStartsAdd(env, ss[i], ls[i].WriteLost?, ss[i + 1], n);
    StartedPod(env, ss[i], ss[i + 1], n);
  }

  // ----- no pod past its time -----

  /**
    No round keeps a pod that has not finished a minute past the timeout after its creation: it is to be
    deleted; and the live one is short of that instant.
   */
  lemma NoPodOutlivesItsTime(env: Env, ss: seq<Sys>, ls: seq<Label>, i: nat)
    requires Behavior(env, ss, ls) && i < |ss| && ss[i].ctl.Busy?
    ensures var c := ss[i].ctl;
            && (forall p :: p in c.order && !p.deleting && c.at >= p.created + env.cfg.checkTimeout + MINUTE ==> p in c.found.plan.stale)
            && (c.found.plan.live.Some? ==>
                  var p := c.found.plan.live.value;
                  p.phase != Succeeded && p.phase != Failed && c.at < p.created + env.cfg.checkTimeout + MINUTE)
  {
    AlwaysInv(env, ss, ls, i);
    var c := ss[i].ctl;
    var read := ss[i].store.log[c.base];
    var a := Begin(read.status, read.spec, c.lastRun, c.at);
    FoldPartition(env.cfg, a, c.order, c.at);
    LiveIsFirst(env.cfg, a, c.order, c.at);
    forall p | p in c.order ensures
      (c.at >= p.created + env.cfg.checkTimeout + MINUTE ==> ResultOf(p, env.cfg.checkTimeout, c.at).done)
      && (p.phase == Succeeded || p.phase == Failed ==> ResultOf(p, env.cfg.checkTimeout, c.at).done)
    {
      GivenUpExactly(p, env.cfg.checkTimeout, c.at);
    }
    if c.found.plan.live.Some? {
      var k :| 0 <= k < |c.order| && c.found.plan.live == Some(c.order[k]) && Candidate(env.cfg, a, c.order, c.at, k);
      assert c.order[k] in c.order;
    }
  }

  // ----- one check after the other -----

  /** The system's clock starts after 1970, and so does every round. */
  lemma {:induction false} AlwaysAfterEpoch(env: Env, ss: seq<Sys>, ls: seq<Label>, i: nat)
    requires Behavior(env, ss, ls) && i < |ss|
    ensures ss[i].now > ZERO && (ss[i].ctl.Busy? ==> ss[i].ctl.at > ZERO)
  {
    if i > 0 {
      AlwaysAfterEpoch(env, ss, ls, i - 1);
      assert Next(env, ss[i - 1], ls[i - 1], ss[(i - 1) + 1]);
    }
  }

  /** What the incident of a status is checked with: an unflagged precondition while Open, a verify while Verifying. */
  predicate Checkable(st: Status, s: Script) {
    && st.howToFix.Some?
    && (|| (s == Precondition && st.state == Open && !st.reproduced.Passed? && st.howToFix.value.precondition != "")
        || (s == Verify && st.state == Verifying && st.howToFix.value.verify != ""))
  }

  /** A poll interval has passed since the end of every run this process reported, and since the start of the window. */
  predicate Waited(env: Env, s: Sys)
    requires s.ctl.Busy?
  {
    && (forall x :: x in s.reported ==> s.ctl.at >= x.1.at + env.cfg.pollInterval)
    && (s.ctl.found.status.verifyingSince.Some? ==> s.ctl.at >= s.ctl.found.status.verifyingSince.value + env.cfg.pollInterval)
  }

  /**
    In every run of the system, a round that leaves the incident with a script to check, keeps no pod of it, and
    comes a poll interval after the last run and the start of the window, starts that script.
   */
  lemma ChecksGoOn(env: Env, ss: seq<Sys>, ls: seq<Label>, i: nat, s: Script)
    requires Behavior(env, ss, ls) && i < |ss| && ss[i].ctl.Busy?
    requires Checkable(ss[i].ctl.found.status, s) && ss[i].ctl.found.plan.live == None && Waited(env, ss[i])
    ensures exists n :: StartCheck(n, s) in RoundWrites(env, ss[i].ctl)
  {
    AlwaysInv(env, ss, ls, i);
    AlwaysRemembers(env, ss, ls, i);
    AlwaysAfterEpoch(env, ss, ls, i);
    LastEndIsLatest(ss[i].reported);
    var c := ss[i].ctl;
    var k := |RoundWrites(env, c)| - 1;
    Machine.CurrentScriptExactly(c.found.status);
    ConsumedIsDirty(env, ss[i]);
    DueWhenWaited(env, ss[i], s);
    WriteAt(env, c, k);
    assert RoundWrites(env, c)[k] == StartCheck(CheckName(env.uid, s, c.found.plan.from), s);
  }

  lemma DueWhenWaited(env: Env, s: Sys, script: Script)
    requires RoundInv(env, s) && MemoryInv(s) && s.ctl.Busy? && s.ctl.at > ZERO
    requires LastEnd(s.reported) == ZERO || exists x :: x in s.reported && x.1.at == LastEnd(s.reported)
    requires Machine.CurrentScript(s.ctl.found.status) == script != NoScript
    requires s.ctl.found.plan.live == None && Waited(env, s)
    ensures s.ctl.found.plan.due
  {
  }
}
