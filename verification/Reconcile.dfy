/** What one reconcile of an Incident decides: Observe folds the check pods into a plan of ordered writes. */
module Reconcile {
  import opened Options
  import opened Clock
  import opened Incidents
  import opened CheckPods
  import opened Storage
  import Machine

  /** What Observe found for Update to act on. */
  datatype Plan = Plan(
    changes: seq<Machine.Change>, dirty: bool, due: bool, from: Time, consumeApplied: bool,
    stale: seq<Pod>, live: Option<Pod>)

  const EMPTY_PLAN := Plan([], false, false, ZERO, false, [], None)

  datatype Observed = Observed(status: Status, lastRun: Time, plan: Plan)

  /** What the pods seen so far make of the status. */
  datatype Seen = Seen(status: Status, lastRun: Time, live: Option<Pod>, stale: seq<Pod>, changes: seq<Machine.Change>)

  function Later(t: Time, u: Time): Time {
    if u > t then u else t
  }

  /** Whether pod, met with status st, gives a result to record. */
  predicate GivesResult(cfg: Config, st: Status, pod: Pod, now: Time) {
    && !pod.deleting
    && ResultOf(pod, cfg.checkTimeout, now).done
    && pod.script == Machine.CurrentScript(st)
  }

  function Visit(cfg: Config, a: Seen, pod: Pod, now: Time): Seen {
    var o := ResultOf(pod, cfg.checkTimeout, now);
    if pod.deleting then a
    else if !o.done && pod.script == Machine.CurrentScript(a.status) && a.live.None? then a.(live := Some(pod))
    else if GivesResult(cfg, a.status, pod, now) then
      var rec := Machine.Record(a.status, cfg, o.result, now);
      a.(status := rec.status, changes := a.changes + rec.changes, lastRun := Later(a.lastRun, o.result.at),
         stale := a.stale + [pod])
    else a.(stale := a.stale + [pod])
  }

  function Fold(cfg: Config, a: Seen, pods: seq<Pod>, now: Time): Seen
    decreases |pods|
  {
    if pods == [] then a else Fold(cfg, Visit(cfg, a, pods[0], now), pods[1..], now)
  }

  /** What a reconcile at now makes of an incident whose pods it visits in the given order. */
  function Observe(cfg: Config, st: Status, spec: Spec, lastRun: Time, order: seq<Pod>, now: Time): Observed {
    var applied := Machine.ApplySpec(st, spec, now);
    var seen := Fold(cfg, Seen(applied.status, lastRun, None, [], applied.changes), order, now);
    var dirty := applied.consumed || seen.status != st;
    var due := seen.live.None? && Machine.CheckDue(seen.status, cfg, seen.lastRun, now);
    var from := Machine.CheckFrom(seen.status, seen.lastRun);
    Observed(seen.status, seen.lastRun, Plan(seen.changes, dirty, due, from, applied.consumed, seen.stale, seen.live))
  }

  function DeleteWrites(pods: seq<Pod>): seq<Write> {
    seq(|pods|, i requires 0 <= i < |pods| => DeletePod(pods[i].name))
  }

  function StatusWrites(plan: Plan): seq<Write> {
    (if plan.dirty then [PersistStatus] else []) + (if plan.consumeApplied then [ResetApplied] else [])
  }

  function StartWrites(uid: string, st: Status, plan: Plan): seq<Write> {
    var script := Machine.CurrentScript(st);
    if plan.due then [StartCheck(CheckName(uid, script, plan.from), script)] else []
  }

  /** The writes of a plan, in order: the status goes first, the next check last. */
  function Writes(uid: string, st: Status, plan: Plan): seq<Write> {
    StatusWrites(plan) + (DeleteWrites(plan.stale) + StartWrites(uid, st, plan))
  }

  predicate SortedByCreation(pods: seq<Pod>) {
    forall i, j :: 0 <= i < j < |pods| ==> pods[i].created <= pods[j].created
  }
}
