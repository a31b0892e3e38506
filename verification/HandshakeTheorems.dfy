/** What holds over every run of the create handshake and the updates, whatever version of the request is read. */
module HandshakeTheorems {
  import opened Options
  import opened Clock
  import opened Incidents
  import opened CheckPods
  import opened Requests
  import opened Handshake

  /** Over any run, whatever is read, fails or restarts, a request's pod is created at most once. */
  lemma PodCreatedAtMostOnce(env: Env, ss: seq<Sys>, ls: seq<Label>, i: nat)
    requires Behavior(env, ss, ls) && i < |ss|
    ensures ss[i].creations <= 1
  {
    AlwaysInv(env, ss, ls, i);
  }

  /** A run's exit is stored only after the run was recorded on its incident; so is every success. */
  lemma RecordedBeforeStored(env: Env, ss: seq<Sys>, ls: seq<Label>, i: nat, v: nat)
    requires Behavior(env, ss, ls) && i < |ss| && v < |ss[i].log|
    ensures ss[i].log[v].status.exitCode.Some? || ss[i].log[v].status.phase == RunSucceeded ==> ss[i].recorded
  {
    AlwaysInv(env, ss, ls, i);
  }

  lemma RankAt(env: Env, ss: seq<Sys>, ls: seq<Label>, k: nat)
    requires Behavior(env, ss, ls) && k < |ls|
    ensures ss[k + 1].log != [] && Rank(Newest(ss[k]).status.phase) <= Rank(Newest(ss[k + 1]).status.phase)
  {
    AlwaysInv(env, ss, ls, k);
    StatusStep(env, ss[k], ls[k], ss[k + 1]);
    if Patches(ss[k]) {
      WriteAt(ss[k].ctl.plan, ss[k].ctl.next);
    }
  }

  lemma {:induction false} RankChain(ranks: seq<nat>, i: nat, j: nat)
    requires i <= j < |ranks| && forall k :: 0 <= k < |ranks| - 1 ==> ranks[k] <= ranks[k + 1]
    ensures ranks[i] <= ranks[j]
  {
    if i < j {
      RankChain(ranks, i, j - 1);
      assert ranks[j - 1] <= ranks[(j - 1) + 1];
    }
  }

  /** A phase never goes back: not to none, and not from a terminal one to Running. */
  lemma PhasesNeverGoBack(env: Env, ss: seq<Sys>, ls: seq<Label>, i: nat, j: nat)
    requires Behavior(env, ss, ls) && i <= j < |ss|
    ensures ss[i].log != [] && ss[j].log != []
    ensures Rank(Newest(ss[i]).status.phase) <= Rank(Newest(ss[j]).status.phase)
  {
    forall k | 0 <= k < |ss| ensures ss[k].log != [] {
      AlwaysInv(env, ss, ls, k);
    }
    var ranks := seq(|ss|, k requires 0 <= k < |ss| => Rank(Newest(ss[k]).status.phase));
    forall k | 0 <= k < |ss| - 1 ensures ranks[k] <= ranks[k + 1] {
      RankAt(env, ss, ls, k);
    }
    RankChain(ranks, i, j);
  }

  /**
    The update, which read a phase that is not final, has something else to store than the terminal phase
    stored: the pod was gone, and what that means differs; or the pod, given up as overdue, exited 0 after all.
   */
  predicate Overwrites(env: Env, s: Sys)
    requires s.ctl.Updating? && s.log != []
  {
    && !Terminal(s.ctl.read.phase)
    && match s.ctl.found
       case None => Newest(s).status.phase != (if s.ctl.read.phase == PodRunning then RunFailed else Refused)
       case Some(p) => Newest(s).status.phase == RunFailed && ExitedZero(env, p, s.ctl.at)
  }

  /** A stored terminal phase changes exactly at the patch of a reconcile that read an older version and overwrites it. */
  lemma TerminalOverwrittenExactly(env: Env, ss: seq<Sys>, ls: seq<Label>, i: nat)
    requires Behavior(env, ss, ls) && i < |ls| && Terminal(Newest(ss[i]).status.phase)
    ensures ss[i + 1].log != []
    ensures Newest(ss[i + 1]).status.phase != Newest(ss[i]).status.phase <==>
              Writing(ls[i]) && Patches(ss[i]) && Overwrites(env, ss[i])
  {
    AlwaysInv(env, ss, ls, i);
    StatusStep(env, ss[i], ls[i], ss[i + 1]);
    if Patches(ss[i]) {
      WriteAt(ss[i].ctl.plan, ss[i].ctl.next);
    }
  }

  /** So a success is overwritten exactly by a reconcile that read the request unfinished and found its pod gone. */
  lemma SuccessOverwrittenExactly(env: Env, ss: seq<Sys>, ls: seq<Label>, i: nat)
    requires Behavior(env, ss, ls) && i < |ls| && Newest(ss[i]).status.phase == RunSucceeded
    ensures ss[i + 1].log != []
    ensures Newest(ss[i + 1]).status.phase != RunSucceeded <==>
              Writing(ls[i]) && Patches(ss[i])
              && !Terminal(ss[i].ctl.read.phase) && ss[i].ctl.found == None
  {
    TerminalOverwrittenExactly(env, ss, ls, i);
  }

  /** A patch refuses a request exactly when its reconcile read no phase and found no pod, whether or not one was ever created. */
  lemma RefusedExactly(env: Env, ss: seq<Sys>, ls: seq<Label>, i: nat)
    requires Behavior(env, ss, ls) && i < |ls| && Writing(ls[i]) && Patches(ss[i])
    ensures ss[i + 1].log != []
    ensures Newest(ss[i + 1]).status.phase == Refused <==>
              ss[i].ctl.read.phase == NoPhase && ss[i].ctl.found == None
  {
    AlwaysInv(env, ss, ls, i);
    StatusStep(env, ss[i], ls[i], ss[i + 1]);
    WriteAt(ss[i].ctl.plan, ss[i].ctl.next);
  }

  predicate RefusedUnstarted(s: Sys) {
    s.log != [] && Newest(s).status.phase == Refused && s.creations == 0
  }

  lemma RefusedStep(env: Env, s: Sys, l: Label, s': Sys)
    requires Inv(env, s) && RefusedUnstarted(s) && Next(env, s, l, s')
    ensures RefusedUnstarted(s')
  {
    StatusStep(env, s, l, s');
    if Patches(s) {
      WriteAt(s.ctl.plan, s.ctl.next);
    }
    assert s'.creations == s.creations by {
      assert !(s.ctl.Creating? && s.ctl.stage == CreatePod);
    }
  }

  /** What every step of a run keeps holds from then on. */
  lemma {:induction false} FromThenOn(holds: seq<bool>, i: nat, j: nat)
    requires i <= j < |holds| && holds[i] && forall k :: 0 <= k < |holds| - 1 && holds[k] ==> holds[k + 1]
    ensures holds[j]
  {
    if i < j {
      FromThenOn(holds, i, j - 1);
      assert holds[j - 1] ==> holds[(j - 1) + 1];
    }
  }

  lemma RefusedAt(env: Env, ss: seq<Sys>, ls: seq<Label>, k: nat)
    requires Behavior(env, ss, ls) && k < |ls| && RefusedUnstarted(ss[k])
    ensures RefusedUnstarted(ss[k + 1])
  {
    AlwaysInv(env, ss, ls, k);
    RefusedStep(env, ss[k], ls[k], ss[k + 1]);
  }

  /** A request refused before it got a pod stays refused and never gets one, however the run goes on. */
  lemma RefusedForGood(env: Env, ss: seq<Sys>, ls: seq<Label>, i: nat, j: nat)
    requires Behavior(env, ss, ls) && i <= j < |ss| && RefusedUnstarted(ss[i])
    ensures RefusedUnstarted(ss[j]) && ss[j].pod == None
  {
    var holds := seq(|ss|, k requires 0 <= k < |ss| => RefusedUnstarted(ss[k]));
    forall k | 0 <= k < |holds| - 1 && holds[k] ensures holds[k + 1] {
      RefusedAt(env, ss, ls, k);
    }
    FromThenOn(holds, i, j);
    AlwaysInv(env, ss, ls, j);
    NoPodUnstarted(env, ss[j]);
  }

  lemma NoPodUnstarted(env: Env, s: Sys)
    requires Inv(env, s) && s.creations == 0
    ensures s.pod == None
  {
  }

  // ----- what goes through -----

  /** After every write of an update: the run is recorded, the status patched, the pod marked, the request marked. */
  function Updated(s: Sys): Sys
    requires s.ctl.Updating? && s.log != []
  {
    var plan, req := s.ctl.plan, Newest(s);
    var patched := if plan.dirty then [req.(status := Patched(req.status, s.ctl.read, s.ctl.status))] else [];
    var last := if plan.dirty then patched[0] else req;
    var gone := if plan.expired then [last.(deleted := true)] else [];
    s.(recorded := s.recorded || plan.run.Some?,
       log := if s.present then s.log + patched + gone else s.log,
       pod := if plan.pod.Some? && s.pod.Some? then Some(s.pod.value.(deleting := true)) else s.pod,
       ctl := Idle)
  }

  /** States that proceed one after the other. */
  predicate Proceeds(env: Env, ss: seq<Sys>) {
    |ss| > 0 && forall i :: 0 <= i < |ss| - 1 ==> ss[i].log != [] && ProceedStep(env, ss[i], ss[i + 1])
  }

  lemma ProceedsOn(env: Env, ss: seq<Sys>, s': Sys)
    requires Proceeds(env, ss) && ss[|ss| - 1].log != [] && ProceedStep(env, ss[|ss| - 1], s')
    ensures Proceeds(env, ss + [s'])
  {
  }

  /** One write on, or the state as it is when there is none of that kind. */
  lemma WriteOn(env: Env, ss: seq<Sys>, w: Write) returns (ss': seq<Sys>)
    requires Proceeds(env, ss) && ss[|ss| - 1].log != [] && ss[|ss| - 1].ctl.Updating?
    requires ss[|ss| - 1].ctl.next < |Writes(ss[|ss| - 1].ctl.plan)| && Writes(ss[|ss| - 1].ctl.plan)[ss[|ss| - 1].ctl.next] == w
    ensures Proceeds(env, ss') && ss'[0] == ss[0]
    ensures var s, s' := ss[|ss| - 1], ss'[|ss'| - 1]; UpdateStep(s, s')
  {
    var s := ss[|ss| - 1];
    var next := s.ctl.(next := s.ctl.next + 1);
    var s' := match w
      case RecordRun => s.(recorded := true, ctl := next)
      case PatchStatus => Append(s, Newest(s).(status := Patched(Newest(s).status, s.ctl.read, s.ctl.status))).(ctl := next)
      case DeletePod => s.(pod := Handshake.Terminated(s.pod), ctl := next)
      case DeleteRequest => Append(s, Newest(s).(deleted := true)).(ctl := next);
    ProceedsOn(env, ss, s');
    ss' := ss + [s'];
  }

  /** Which write is at which place. */
  lemma WritePlaces(plan: ApplyPlan)
    ensures var a := if plan.run.Some? then 1 else 0;
            var b := a + if plan.dirty then 1 else 0;
            var c := b + if plan.pod.Some? then 1 else 0;
            && |Writes(plan)| == c + (if plan.expired then 1 else 0)
            && (plan.run.Some? ==> Writes(plan)[0] == RecordRun) && (plan.dirty ==> Writes(plan)[a] == PatchStatus)
            && (plan.pod.Some? ==> Writes(plan)[b] == DeletePod) && (plan.expired ==> Writes(plan)[c] == DeleteRequest)
  {
  }

  /** The status writes go through. */
  lemma StatusGoesThrough(env: Env, s: Sys) returns (ss: seq<Sys>)
    requires s.log != [] && s.ctl.Updating? && s.ctl.next == 0
    ensures Proceeds(env, ss) && ss[0] == s
    ensures var plan, req := s.ctl.plan, Newest(s);
            var n := (if plan.run.Some? then 1 else 0) + if plan.dirty then 1 else 0;
            ss[|ss| - 1] == s.(
              recorded := s.recorded || plan.run.Some?,
              log := if s.present && plan.dirty then s.log + [req.(status := Patched(req.status, s.ctl.read, s.ctl.status))] else s.log,
              ctl := s.ctl.(next := n))
  {
    WritePlaces(s.ctl.plan);
    ss := [s];
    if s.ctl.plan.run.Some? {
      ss := WriteOn(env, ss, RecordRun);
    }
    if s.ctl.plan.dirty {
      ss := WriteOn(env, ss, PatchStatus);
    }
  }

  /** So do the deletes that follow. */
  lemma DeletesGoThrough(env: Env, before: seq<Sys>) returns (ss: seq<Sys>)
    requires Proceeds(env, before) && before[|before| - 1].log != [] && before[|before| - 1].ctl.Updating?
    requires var c := before[|before| - 1].ctl;
             c.next == (if c.plan.run.Some? then 1 else 0) + if c.plan.dirty then 1 else 0
    ensures Proceeds(env, ss) && ss[0] == before[0]
    ensures var m := before[|before| - 1];
            ss[|ss| - 1] == m.(
              pod := if m.ctl.plan.pod.Some? then Handshake.Terminated(m.pod) else m.pod,
              log := if m.present && m.ctl.plan.expired then m.log + [Newest(m).(deleted := true)] else m.log,
              ctl := Idle)
  {
    var m := before[|before| - 1];
    WritePlaces(m.ctl.plan);
    ss := before;
    if m.ctl.plan.pod.Some? {
      ss := WriteOn(env, ss, DeletePod);
    }
    if m.ctl.plan.expired {
      ss := WriteOn(env, ss, DeleteRequest);
    }
    var end := ss[|ss| - 1].(ctl := Idle);
    ProceedsOn(env, ss, end);
    ss := ss + [end];
  }

  /** An update whose writes all go through leaves exactly that. */
  lemma UpdateGoesThrough(env: Env, s: Sys) returns (ss: seq<Sys>)
    requires s.log != [] && s.ctl.Updating? && s.ctl.next == 0
    ensures Proceeds(env, ss) && ss[0] == s && ss[|ss| - 1] == Updated(s)
  {
    var half := StatusGoesThrough(env, s);
    ss := DeletesGoThrough(env, half);
    assert ss[|ss| - 1].log == Updated(s).log;
  }
}
