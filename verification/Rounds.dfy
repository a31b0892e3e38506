/** What one reconcile makes of the pods it visits. */
module Rounds {
  import opened Options
  import opened Clock
  import opened Incidents
  import opened CheckPods
  import opened Reconcile
  import opened Lifecycle
  import opened System
  import Machine

  predicate CheckScripts(pods: seq<Pod>) {
    forall i :: 0 <= i < |pods| ==> pods[i].script == Precondition || pods[i].script == Verify
  }

  lemma VisitEvent(cfg: Config, a: Seen, pod: Pod, now: Time)
    requires pod.script == Precondition || pod.script == Verify
    ensures var e := Check(ResultOf(pod, cfg.checkTimeout, now).result, now);
            if GivesResult(cfg, a.status, pod, now)
            then Enabled(a.status, e) && Visit(cfg, a, pod, now).status == Step(cfg, a.status, e)
            else Visit(cfg, a, pod, now).status == a.status
  {
    ExitExactly(pod, cfg.checkTimeout, now);
  }

  /** The fold over the pods is a legal run of events. */
  lemma {:induction false} FoldRuns(cfg: Config, a: Seen, pods: seq<Pod>, now: Time)
    requires CheckScripts(pods)
    ensures Legal(cfg, a.status, FoldEvents(cfg, a, pods, now))
    ensures Run(cfg, a.status, FoldEvents(cfg, a, pods, now)) == Fold(cfg, a, pods, now).status
    decreases |pods|
  {
    if pods != [] {
      var next := Visit(cfg, a, pods[0], now);
      var rest := FoldEvents(cfg, next, pods[1..], now);
      VisitEvent(cfg, a, pods[0], now);
      assert CheckScripts(pods[1..]);
      FoldRuns(cfg, next, pods[1..], now);
      if GivesResult(cfg, a.status, pods[0], now) {
        var e := Check(ResultOf(pods[0], cfg.checkTimeout, now).result, now);
        assert Butlast([e]) == [];
        RunConcat(cfg, a.status, [e], rest);
      } else {
        assert FoldEvents(cfg, a, pods, now) == rest;
      }
    }
  }

  /** A reconcile computes the status its events run to. */
  lemma RoundRuns(cfg: Config, st: Status, spec: Spec, lastRun: Time, order: seq<Pod>, now: Time)
    requires CheckScripts(order)
    ensures Legal(cfg, st, RoundEvents(cfg, st, spec, lastRun, order, now))
    ensures Run(cfg, st, RoundEvents(cfg, st, spec, lastRun, order, now))
            == Observe(cfg, st, spec, lastRun, order, now).status
  {
    var decide, a := Decide(spec, now), Begin(st, spec, lastRun, now);
    assert Butlast([decide]) == [];
    FoldRuns(cfg, a, order, now);
    RunConcat(cfg, st, [decide], FoldEvents(cfg, a, order, now));
  }

  /** Exactly the undeleted pods visited end up stale or live, and what was stale or live stays so. */
  lemma {:induction false} FoldPartition(cfg: Config, a: Seen, pods: seq<Pod>, now: Time)
    ensures var end := Fold(cfg, a, pods, now);
            && a.stale <= end.stale
            && (a.live.Some? ==> end.live == a.live)
            && (forall p :: p in pods && !p.deleting ==> p in end.stale || end.live == Some(p))
            && (forall p :: p in end.stale ==> p in a.stale || (p in pods && !p.deleting))
            && (end.live.Some? ==> end.live == a.live || (end.live.value in pods && !end.live.value.deleting))
    decreases |pods|
  {
    if pods != [] {
      var next := Visit(cfg, a, pods[0], now);
      FoldPartition(cfg, next, pods[1..], now);
      assert forall p :: p in pods <==> p == pods[0] || p in pods[1..];
      if !pods[0].deleting && next.live != Some(pods[0]) {
        assert next.stale == a.stale + [pods[0]];
        assert next.stale[|a.stale|] == pods[0];
      }
    }
  }

  predicate DistinctPods(pods: seq<Pod>) {
    forall i, j :: 0 <= i < j < |pods| ==> pods[i] != pods[j]
  }

  /** No pod is both live and stale. */
  lemma {:induction false} LiveIsNotStale(cfg: Config, a: Seen, pods: seq<Pod>, now: Time)
    requires DistinctPods(pods) && (a.live.Some? ==> a.live.value !in a.stale)
    requires forall p :: p in pods ==> p !in a.stale && a.live != Some(p)
    ensures var end := Fold(cfg, a, pods, now);
            end.live.Some? ==> end.live.value !in end.stale
    decreases |pods|
  {
    if pods != [] {
      var next := Visit(cfg, a, pods[0], now);
      forall p | p in pods[1..] ensures p in pods && p != pods[0] {
        var j :| 0 <= j < |pods[1..]| && pods[1..][j] == p;
        assert pods[j + 1] == p;
      }
      assert pods[0] in pods;
      LiveIsNotStale(cfg, next, pods[1..], now);
    }
  }

  /** When it is visited, pod i still runs and its script is the current one. */
  predicate Candidate(cfg: Config, a: Seen, pods: seq<Pod>, now: Time, i: nat)
    requires i < |pods|
  {
    && !pods[i].deleting && !ResultOf(pods[i], cfg.checkTimeout, now).done
    && pods[i].script == Machine.CurrentScript(Fold(cfg, a, pods[..i], now).status)
  }

  /** The first candidate becomes live; without one none does. */
  lemma {:induction false} LiveIsFirst(cfg: Config, a: Seen, pods: seq<Pod>, now: Time)
    requires a.live.None?
    ensures var end := Fold(cfg, a, pods, now);
            if end.live.None? then forall i :: 0 <= i < |pods| ==> !Candidate(cfg, a, pods, now, i)
            else exists i :: 0 <= i < |pods| && end.live == Some(pods[i]) && Candidate(cfg, a, pods, now, i)
                             && forall j :: 0 <= j < i ==> !Candidate(cfg, a, pods, now, j)
    decreases |pods|
  {
    if pods != [] {
      var next, rest := Visit(cfg, a, pods[0], now), pods[1..];
      assert Candidate(cfg, a, pods, now, 0) <==> next.live.Some?;
      if next.live.Some? {
        FoldPartition(cfg, next, rest, now);
      } else {
        forall i | 0 <= i < |rest| ensures Candidate(cfg, next, rest, now, i) <==> Candidate(cfg, a, pods, now, i + 1) {
          assert pods[..i + 1][1..] == rest[..i];
        }
        assert forall j :: 0 < j < |pods| ==> (Candidate(cfg, next, rest, now, j - 1) <==> Candidate(cfg, a, pods, now, j));
        LiveIsFirst(cfg, next, rest, now);
        var end := Fold(cfg, a, pods, now);
        if end.live.Some? {
          var i :| 0 <= i < |rest| && end.live == Some(rest[i]) && Candidate(cfg, next, rest, now, i)
                   && forall j :: 0 <= j < i ==> !Candidate(cfg, next, rest, now, j);
          assert pods[i + 1] == rest[i];
        }
      }
    }
  }

  lemma RecordKeeps(cfg: Config, st: Status, r: RunResult, now: Time)
    requires r.script == Precondition || r.script == Verify
    requires r.script == Machine.CurrentScript(st)
    ensures ResultOfScript(Machine.Record(st, cfg, r, now).status, Apply) == ResultOfScript(st, Apply)
    ensures Machine.Record(st, cfg, r, now).status.state != Closed && st.state != Closed
  {
  }

  /** Checks leave the apply result alone, and close nothing. */
  lemma {:induction false} FoldKeeps(cfg: Config, a: Seen, pods: seq<Pod>, now: Time)
    requires CheckScripts(pods)
    ensures var end := Fold(cfg, a, pods, now);
            && ResultOfScript(end.status, Apply) == ResultOfScript(a.status, Apply)
            && (end.status.state == Closed <==> a.status.state == Closed)
    decreases |pods|
  {
    if pods != [] {
      if GivesResult(cfg, a.status, pods[0], now) {
        ExitExactly(pods[0], cfg.checkTimeout, now);
        RecordKeeps(cfg, a.status, ResultOf(pods[0], cfg.checkTimeout, now).result, now);
      }
      assert CheckScripts(pods[1..]);
      FoldKeeps(cfg, Visit(cfg, a, pods[0], now), pods[1..], now);
    }
  }

  predicate OneUndeleted(pods: seq<Pod>) {
    forall i, j :: 0 <= i < |pods| && 0 <= j < |pods| && !pods[i].deleting && !pods[j].deleting ==> i == j
  }

  /** Pods being deleted are skipped. */
  lemma {:induction false} FoldSkips(cfg: Config, a: Seen, pods: seq<Pod>, now: Time)
    requires forall i :: 0 <= i < |pods| ==> pods[i].deleting
    ensures Fold(cfg, a, pods, now) == a
    decreases |pods|
  {
    if pods != [] {
      FoldSkips(cfg, a, pods[1..], now);
    }
  }

  /** When one pod is not being deleted, the fold visits it alone. */
  lemma {:induction false} FoldOne(cfg: Config, a: Seen, pods: seq<Pod>, k: nat, now: Time)
    requires k < |pods| && !pods[k].deleting && OneUndeleted(pods)
    ensures Fold(cfg, a, pods, now) == Visit(cfg, a, pods[k], now)
    decreases |pods|
  {
    if k == 0 {
      forall i | 0 <= i < |pods[1..]| ensures pods[1..][i].deleting {
        assert pods[1..][i] == pods[i + 1];
      }
      FoldSkips(cfg, Visit(cfg, a, pods[0], now), pods[1..], now);
    } else {
      assert pods[0].deleting;
      FoldOne(cfg, a, pods[1..], k - 1, now);
    }
  }

  /** Then the one pod is all there is to report. */
  lemma {:induction false} FoldReportsOne(cfg: Config, a: Seen, pods: seq<Pod>, k: nat, now: Time)
    requires k < |pods| && !pods[k].deleting && OneUndeleted(pods)
    ensures FoldReports(cfg, a, pods, now) ==
            if GivesResult(cfg, a.status, pods[k], now)
            then [(pods[k].name, ResultOf(pods[k], cfg.checkTimeout, now).result)] else []
    decreases |pods|
  {
    if k == 0 {
      forall i | 0 <= i < |pods[1..]| ensures pods[1..][i].deleting {
        assert pods[1..][i] == pods[i + 1];
      }
      FoldReportsNone(cfg, Visit(cfg, a, pods[0], now), pods[1..], now);
    } else {
      assert pods[0].deleting;
      FoldReportsOne(cfg, a, pods[1..], k - 1, now);
    }
  }

  lemma {:induction false} FoldReportsNone(cfg: Config, a: Seen, pods: seq<Pod>, now: Time)
    requires forall i :: 0 <= i < |pods| ==> pods[i].deleting
    ensures FoldReports(cfg, a, pods, now) == []
    decreases |pods|
  {
    if pods != [] {
      FoldReportsNone(cfg, a, pods[1..], now);
    }
  }

  /** A report names a visited pod and its result. */
  predicate ReportOf(cfg: Config, pods: seq<Pod>, now: Time, report: (PodName, RunResult)) {
    exists p :: p in pods && p.name == report.0 && ResultOf(p, cfg.checkTimeout, now) == Outcome(report.1, true)
  }

  /** The last run in memory is past every run the fold reports. */
  lemma {:induction false} FoldReportsSeen(cfg: Config, a: Seen, pods: seq<Pod>, now: Time)
    ensures a.lastRun <= Fold(cfg, a, pods, now).lastRun
    ensures forall x :: x in FoldReports(cfg, a, pods, now) ==>
              x.1.at <= Fold(cfg, a, pods, now).lastRun && ReportOf(cfg, pods, now, x)
    decreases |pods|
  {
    if pods != [] {
      var next := Visit(cfg, a, pods[0], now);
      FoldReportsSeen(cfg, next, pods[1..], now);
      forall x | x in FoldReports(cfg, a, pods, now)
        ensures x.1.at <= Fold(cfg, a, pods, now).lastRun && ReportOf(cfg, pods, now, x)
      {
        if x in FoldReports(cfg, next, pods[1..], now) {
          var p :| p in pods[1..] && p.name == x.0 && ResultOf(p, cfg.checkTimeout, now) == Outcome(x.1, true);
          assert p in pods;
        } else {
          assert pods[0] in pods;
        }
      }
    }
  }

  // ----- what a round announces -----

  /** The changes of state among cs, in order, lead from one state to the other. */
  predicate Leads(cs: seq<Machine.Change>, from: State, to: State)
    decreases cs
  {
    if cs == [] then from == to
    else if cs[0].StateChanged? then cs[0].from == from != cs[0].to && Leads(cs[1..], cs[0].to, to)
    else Leads(cs[1..], from, to)
  }

  lemma {:induction false} LeadsOn(a: seq<Machine.Change>, b: seq<Machine.Change>, from: State, via: State, to: State)
    requires Leads(a, from, via) && Leads(b, via, to)
    ensures Leads(a + b, from, to)
    decreases a
  {
    if a == [] {
      assert a + b == b;
    } else {
      assert (a + b)[1..] == a[1..] + b;
      LeadsOn(a[1..], b, if a[0].StateChanged? then a[0].to else from, via, to);
    }
  }

  lemma AnnouncedLeads(st: Status, next: Status, cs: seq<Machine.Change>)
    requires Announced(st, next, cs)
    ensures Leads(cs, st.state, next.state)
  {
  }

  lemma {:induction false} FoldLeads(cfg: Config, from: State, a: Seen, pods: seq<Pod>, now: Time)
    requires CheckScripts(pods) && Leads(a.changes, from, a.status.state)
    ensures Leads(Fold(cfg, a, pods, now).changes, from, Fold(cfg, a, pods, now).status.state)
    decreases |pods|
  {
    if pods != [] {
      if GivesResult(cfg, a.status, pods[0], now) {
        var r := ResultOf(pods[0], cfg.checkTimeout, now).result;
        VisitEvent(cfg, a, pods[0], now);
        var rec := Machine.Record(a.status, cfg, r, now);
        RecordAnnounced(cfg, a.status, r, now);
        AnnouncedLeads(a.status, rec.status, rec.changes);
        LeadsOn(a.changes, rec.changes, from, a.status.state, rec.status.state);
      }
      assert CheckScripts(pods[1..]);
      FoldLeads(cfg, from, Visit(cfg, a, pods[0], now), pods[1..], now);
    }
  }

  /** The changes a round announces lead, one after the other, from the state it read to the state it stores. */
  lemma RoundAnnounces(cfg: Config, st: Status, spec: Spec, lastRun: Time, order: seq<Pod>, now: Time)
    requires CheckScripts(order)
    ensures var o := Observe(cfg, st, spec, lastRun, order, now);
            Leads(o.plan.changes, st.state, o.status.state)
  {
    var applied := Machine.ApplySpec(st, spec, now);
    MovesAreAnnounced(cfg, st, spec, RunResult(NoScript, None, now, []), now);
    AnnouncedLeads(st, applied.status, applied.changes);
    FoldLeads(cfg, st.state, Begin(st, spec, lastRun, now), order, now);
  }
}
