/** The Incident reconciler in place: the last runs, the API server, and the external client that meets Reconcile. */
module Reconciler {
  import opened Options
  import opened Clock
  import opened Incidents
  import opened CheckPods
  import opened IncidentObject
  import opened Storage
  import opened Reconcile
  import Machine

  // ----- when each incident's last check ended -----

  /** Held in memory only: a restart starts with an empty map. */
  class LastRuns {
    var at: map<string, Time>

    constructor ()
      ensures at == map[]
    {
      at := map[];
    }

    function Of(uid: string): Time
      reads this
    {
      if uid in at then at[uid] else ZERO
    }

    method Seen(uid: string, t: Time)
      modifies this
      ensures Of(uid) == if t > old(Of(uid)) then t else old(Of(uid))
      ensures at - {uid} == old(at) - {uid}
    {
      if t > Of(uid) {
        at := at[uid := t];
      }
    }

    method Forget(uid: string)
      modifies this
      ensures at == old(at) - {uid}
    {
      at := at - {uid};
    }
  }

  lemma InsertSorted(before: seq<Pod>, pod: Pod, after: seq<Pod>)
    requires SortedByCreation(before + after)
    requires before != [] ==> before[|before| - 1].created <= pod.created
    requires forall p :: p in after ==> pod.created <= p.created
    ensures SortedByCreation(before + [pod] + after)
  {
    var r, without := before + [pod] + after, before + after;
    var n := |before|;
    forall i, j | 0 <= i < j < |r| ensures r[i].created <= r[j].created {
      if i < n {
        assert without[i] == r[i] && without[i].created <= without[n - 1].created;
        assert j < n ==> r[j] == without[j];
        assert j == n ==> r[j] == pod && without[n - 1] == before[n - 1];
        assert j > n ==> r[j] == without[j - 1];
      } else if i == n {
        assert r[j] == after[j - n - 1] && r[j] in after;
      } else {
        assert r[i] == without[i - 1] && r[j] == without[j - 1];
      }
    }
  }

  /** Inserting pod at k, after the pods no later than it, keeps the order and the rest. */
  lemma InsertedAt(order: seq<Pod>, k: nat, pod: Pod)
    requires SortedByCreation(order) && k <= |order|
    requires k > 0 ==> order[k - 1].created <= pod.created
    requires forall j :: k <= j < |order| ==> pod.created <= order[j].created
    ensures SortedByCreation(order[..k] + [pod] + order[k..])
    ensures multiset(order[..k] + [pod] + order[k..]) == multiset(order) + multiset{pod}
  {
    assert order == order[..k] + order[k..];
    InsertSorted(order[..k], pod, order[k..]);
    assert multiset(order) == multiset(order[..k]) + multiset(order[k..]);
  }

  method Insert(order: seq<Pod>, pod: Pod) returns (r: seq<Pod>)
    requires SortedByCreation(order)
    ensures multiset(r) == multiset(order) + multiset{pod}
    ensures SortedByCreation(r)
  {
    var k := |order|;
    while k > 0 && order[k - 1].created > pod.created
      invariant 0 <= k <= |order|
      invariant forall j :: k <= j < |order| ==> pod.created <= order[j].created
    {
      k := k - 1;
    }
    InsertedAt(order, k, pod);
    r := order[..k] + [pod] + order[k..];
  }

  /** Sorts by creation; pods created in the same second may come in any order. */
  method SortByCreation(pods: seq<Pod>) returns (order: seq<Pod>)
    ensures multiset(order) == multiset(pods)
    ensures SortedByCreation(order)
  {
    order := [];
    for i := 0 to |pods|
      invariant multiset(order) == multiset(pods[..i])
      invariant SortedByCreation(order)
    {
      assert pods[..i + 1] == pods[..i] + [pods[i]];
      order := Insert(order, pods[i]);
    }
    assert pods[..|pods|] == pods;
  }

  // ----- the API server's end of the writes -----

  /** calls is how many more requests reach the server before the connection, or the controller, is gone. */
  class ApiServer {
    var log: seq<Entry>
    var pods: map<PodName, Pod>
    var calls: nat

    constructor (log: seq<Entry>, pods: map<PodName, Pod>, calls: nat)
      requires log != []
      ensures Contents() == Store(log, pods) && this.calls == calls
    {
      this.log, this.pods, this.calls := log, pods, calls;
    }

    function Contents(): Store
      reads this
    {
      Store(log, pods)
    }

    method UpdateStatus(inc: Incident) returns (ok: bool)
      requires log != []
      modifies this, inc`version
      ensures var w := Perform(old(Contents()), old(inc.version), inc.GetStatus(), PersistStatus, ZERO);
              if old(calls) > 0 && w.Some?
              then ok && calls == old(calls) - 1 && Written(Contents(), inc.version) == w.value
              else !ok && Written(Contents(), inc.version) == Written(old(Contents()), old(inc.version))
    {
      if calls == 0 || inc.version + 1 != |log| {
        return false;
      }
      calls := calls - 1;
      log := log + [Entry(log[|log| - 1].spec, inc.GetStatus(), CheckStatus)];
      inc.version := inc.version + 1;
      ok := true;
    }

    /** An update of the whole object: the status subresource keeps its status. */
    method Update(inc: Incident) returns (ok: bool)
      requires log != []
      requires IsNewest(Contents(), inc.version) ==> inc.GetSpec() == Newest(Contents()).spec.(applied := false)
      modifies this, inc`version
      ensures var w := Perform(old(Contents()), old(inc.version), inc.GetStatus(), ResetApplied, ZERO);
              if old(calls) > 0 && w.Some?
              then ok && calls == old(calls) - 1 && Written(Contents(), inc.version) == w.value
              else !ok && Written(Contents(), inc.version) == Written(old(Contents()), old(inc.version))
    {
      if calls == 0 || inc.version + 1 != |log| {
        return false;
      }
      calls := calls - 1;
      log := log + [Entry(inc.GetSpec(), log[|log| - 1].status, CheckReset)];
      inc.version := inc.version + 1;
      ok := true;
    }

    /** A pod that is gone already is as good as deleted. */
    method DeletePod(name: PodName) returns (ok: bool)
      modifies this
      ensures log == old(log)
      ensures if old(calls) > 0 then ok && calls == old(calls) - 1 && pods == Terminating(old(pods), name)
              else !ok && Contents() == old(Contents())
    {
      if calls == 0 {
        return false;
      }
      calls := calls - 1;
      pods := Terminating(pods, name);
      ok := true;
    }

    method CreatePod(pod: Pod) returns (ok: bool)
      modifies this
      ensures log == old(log)
      ensures if old(calls) > 0
              then ok && calls == old(calls) - 1
                   && pods == if pod.name in old(pods) then old(pods) else old(pods)[pod.name := pod]
              else !ok && Contents() == old(Contents())
    {
      if calls == 0 {
        return false;
      }
      calls := calls - 1;
      if pod.name !in pods {
        pods := pods[pod.name := pod];
      }
      ok := true;
    }
  }

  // ----- the external client of one reconcile -----

  /** What Observe answers the runtime. */
  datatype Observation = Observation(resourceExists: bool, upToDate: bool)

  class External {
    const kube: ApiServer
    const cfg: Config
    const runs: LastRuns
    var plan: Plan

    constructor (kube: ApiServer, cfg: Config, runs: LastRuns)
      ensures this.kube == kube && this.cfg == cfg && this.runs == runs && plan == EMPTY_PLAN
    {
      this.kube, this.cfg, this.runs, plan := kube, cfg, runs, EMPTY_PLAN;
    }

    /** configMaps is how many ConfigMaps of the incident's checks were listed with its pods. */
    method Observe(inc: Incident, pods: seq<Pod>, configMaps: nat, deleted: bool, now: Time)
      returns (o: Observation, ghost order: seq<Pod>)
      modifies this`plan, inc, runs
      ensures inc.GetSpec() == old(inc.GetSpec()) && inc.version == old(inc.version)
      ensures deleted ==> inc.GetStatus() == old(inc.GetStatus()) && runs.at == old(runs.at) - {inc.uid}
      ensures deleted ==> o.resourceExists == (pods != [] || configMaps > 0)
      ensures !deleted ==> multiset(order) == multiset(pods) && SortedByCreation(order)
      ensures !deleted ==>
                Observed(inc.GetStatus(), runs.Of(inc.uid), plan) ==
                Reconcile.Observe(cfg, old(inc.GetStatus()), old(inc.GetSpec()), old(runs.Of(inc.uid)), order, now)
      ensures !deleted ==>
                o == Observation(true, Writes(inc.uid, inc.GetStatus(), plan) == [])
                && (plan.consumeApplied ==> plan.dirty)
    {
      if deleted {
        runs.Forget(inc.uid);
        order := [];
        return Observation(pods != [] || configMaps > 0, false), order;
      }
      var before := inc.GetStatus();
      var changes, consumed := inc.ApplySpec(now);
      plan := EMPTY_PLAN.(changes := changes, consumeApplied := consumed);
      var sorted := SortByCreation(pods);
      order := sorted;

      ghost var start := Seen(inc.GetStatus(), runs.Of(inc.uid), None, [], changes);
      for i := 0 to |sorted|
        invariant inc.GetSpec() == old(inc.GetSpec()) && inc.version == old(inc.version)
        invariant plan == EMPTY_PLAN.(
                            changes := plan.changes, consumeApplied := consumed, stale := plan.stale, live := plan.live)
        invariant Fold(cfg, Seen(inc.GetStatus(), runs.Of(inc.uid), plan.live, plan.stale, plan.changes), sorted[i..], now)
                  == Fold(cfg, start, sorted, now)
      {
        var pod := sorted[i];
        assert sorted[i..][0] == pod && sorted[i..][1..] == sorted[i + 1..];
        if pod.deleting {
          continue;
        }
        var r, done := ReadResult(pod, cfg.checkTimeout, now);
        ExitExactly(pod, cfg.checkTimeout, now);
        var current := Machine.CurrentScript(inc.GetStatus());
        if !done && r.script == current && plan.live.None? {
          plan := plan.(live := Some(pod));
        } else if !done {
          plan := plan.(stale := plan.stale + [pod]);
        } else {
          if r.script == current {
            var more := inc.Record(cfg, r, now);
            plan := plan.(changes := plan.changes + more);
            runs.Seen(inc.uid, r.at);
          }
          plan := plan.(stale := plan.stale + [pod]);
        }
      }
      var st, lastRun := inc.GetStatus(), runs.Of(inc.uid);
      plan := plan.(dirty := consumed || before != st);
      plan := plan.(due := plan.live.None? && Machine.CheckDue(st, cfg, lastRun, now),
                    from := Machine.CheckFrom(st, lastRun));
      o := Observation(true, !(plan.dirty || |plan.stale| > 0 || plan.due));
    }

    method PersistPlan(inc: Incident, ghost now: Time) returns (ok: bool)
      requires kube.log != [] && inc.version < |kube.log|
      requires inc.GetSpec() == kube.log[inc.version].spec
      requires plan.consumeApplied ==> plan.dirty
      modifies kube, inc`version, inc`applied
      ensures (Written(kube.Contents(), inc.version), ok) ==
              PerformAll(old(kube.Contents()), old(inc.version), old(inc.GetStatus()), StatusWrites(plan), now, old(kube.calls))
      ensures kube.log != [] && (ok ==> kube.calls == old(kube.calls) - |StatusWrites(plan)|)
    {
      ghost var ws := StatusWrites(plan);
      assert plan.dirty ==> ws[0] == PersistStatus && ws[1..] == if plan.consumeApplied then [ResetApplied] else [];
      if plan.dirty {
        ok := kube.UpdateStatus(inc);
        if !ok {
          return;
        }
      }
      if plan.consumeApplied {
        ghost var rest := [ResetApplied];
        assert rest[0] == ResetApplied && rest[1..] == [];
        assert PerformAll(kube.Contents(), inc.version, inc.GetStatus(), rest, now, kube.calls)
            == PerformAll(old(kube.Contents()), old(inc.version), inc.GetStatus(), ws, now, old(kube.calls));
        inc.applied := false;
        ok := kube.Update(inc);
        return;
      }
      ok := true;
    }

    method DeleteStale(ghost held: nat, ghost st: Status, ghost now: Time) returns (ok: bool)
      requires kube.log != []
      modifies kube
      ensures (Written(kube.Contents(), held), ok) ==
              PerformAll(old(kube.Contents()), held, st, DeleteWrites(plan.stale), now, old(kube.calls))
      ensures kube.log != [] && (ok ==> kube.calls == old(kube.calls) - |plan.stale|)
    {
      ghost var ws := DeleteWrites(plan.stale);
      for i := 0 to |plan.stale|
        invariant kube.log != [] && kube.calls == old(kube.calls) - i
        invariant PerformAll(kube.Contents(), held, st, ws[i..], now, kube.calls)
                  == PerformAll(old(kube.Contents()), held, st, ws, now, old(kube.calls))
      {
        assert ws[i..][0] == Storage.DeletePod(plan.stale[i].name) && ws[i..][1..] == ws[i + 1..];
        ok := kube.DeletePod(plan.stale[i].name);
        if !ok {
          return;
        }
      }
      ok := true;
    }

    /** Carries the plan out; any write may be the last that reaches the API server. */
    method Update(inc: Incident, now: Time) returns (ok: bool)
      requires kube.log != [] && inc.version < |kube.log|
      requires inc.GetSpec() == kube.log[inc.version].spec
      requires plan.consumeApplied ==> plan.dirty
      modifies kube, inc`version, inc`applied
      ensures (Written(kube.Contents(), inc.version), ok) ==
              PerformAll(old(kube.Contents()), old(inc.version), old(inc.GetStatus()),
                         Writes(inc.uid, old(inc.GetStatus()), plan), now, old(kube.calls))
    {
      ghost var st, before, held, calls := inc.GetStatus(), kube.Contents(), inc.version, kube.calls;
      ghost var tail := DeleteWrites(plan.stale) + StartWrites(inc.uid, st, plan);
      PerformAllConcat(before, held, st, StatusWrites(plan), tail, now, calls);
      ok := PersistPlan(inc, now);
      if !ok {
        return;
      }
      PerformAllConcat(kube.Contents(), inc.version, st, DeleteWrites(plan.stale), StartWrites(inc.uid, st, plan), now, kube.calls);
      ok := DeleteStale(inc.version, st, now);
      if !ok {
        return;
      }
      if plan.due {
        var script := Machine.CurrentScript(inc.GetStatus());
        ok := kube.CreatePod(NewPod(CheckName(inc.uid, script, plan.from), script, now));
      }
    }
  }
}
