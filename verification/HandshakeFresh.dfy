/** What holds besides when every reconcile reads the newest version of the request. */
module HandshakeFresh {
  import opened Options
  import opened Clock
  import opened Incidents
  import opened CheckPods
  import opened Requests
  import opened Handshake

  /** Every reconcile reads the newest version. */
  predicate Fresh(ss: seq<Sys>, ls: seq<Label>)
    requires |ss| == |ls| + 1
  {
    forall i :: 0 <= i < |ls| && ls[i].Look? ==> ls[i].version + 1 == |ss[i].log|
  }

  /** Then a patch finds what its reconcile read, and only a request without a pod is refused. */
  predicate FreshInv(s: Sys)
    requires s.log != []
  {
    && (PatchToCome(s) ==> s.ctl.read == Newest(s).status)
    && (PatchToCome(s) && s.present && s.ctl.status.phase == Refused ==> s.creations == 0)
    && (Newest(s).status.phase == Refused ==> s.creations == 0)
  }

  lemma FreshLook(env: Env, s: Sys, rd: Reads, s': Sys)
    requires Inv(env, s) && FreshInv(s) && LookStep(env, s, |s.log| - 1, rd, s')
    ensures FreshInv(s')
  {
    DirtyExactly(Newest(s).status, rd, env.cfg, s.now);
    if s'.ctl.Updating? {
      assert Writes(s'.ctl.plan)[0..] == Writes(s'.ctl.plan);
    }
  }

  lemma FreshPatch(env: Env, s: Sys, s': Sys)
    requires Inv(env, s) && FreshInv(s) && Patches(s) && UpdateStep(s, s')
    ensures s'.log != [] && FreshInv(s') && Forward(Newest(s).status, Newest(s').status)
  {
    PatchKeeps(env, s, s');
    WriteAt(s.ctl.plan, s.ctl.next);
    assert Newest(s').status == s.ctl.status;
  }

  /** A write that is no patch stores no other status. */
  lemma FreshSideWrite(s: Sys, s': Sys)
    requires s.log != [] && FreshInv(s) && s'.log != [] && Newest(s').status == Newest(s).status
    requires PatchToCome(s') ==> PatchToCome(s) && s'.ctl == s.ctl.(next := s'.ctl.next)
    requires s'.present == s.present && (s'.creations == s.creations || (Newest(s).status.phase == NoPhase && !s'.ctl.Updating?))
    ensures FreshInv(s') && Forward(Newest(s).status, Newest(s').status)
  {
  }

  lemma OnlyCreateCreates(env: Env, s: Sys, s': Sys)
    requires s.log != [] && CreationInv(s) && ProceedStep(env, s, s')
    ensures s'.creations == s.creations || (Newest(s).status.phase == NoPhase && !s'.ctl.Updating?)
  {
  }

  lemma FreshWrite(env: Env, s: Sys, s': Sys)
    requires Inv(env, s) && FreshInv(s) && ProceedStep(env, s, s')
    ensures s'.log != [] && FreshInv(s') && Forward(Newest(s).status, Newest(s').status)
  {
    if Patches(s) {
      FreshPatch(env, s, s');
    } else {
      ProceedKeeps(env, s, s');
      SideWrite(env, s, s');
      OnlyCreateCreates(env, s, s');
      FreshSideWrite(s, s');
    }
  }

  /** Nothing stored but a deletion, and no update begun. */
  lemma FreshElse(s: Sys, s': Sys)
    requires s.log != [] && FreshInv(s) && s'.log != [] && Newest(s').status == Newest(s).status
    requires (s'.ctl == s.ctl && (s'.present ==> s.present)) || !s'.ctl.Updating?
    requires s'.creations == s.creations
    ensures FreshInv(s') && Forward(Newest(s).status, Newest(s').status)
  {
  }

  lemma FreshLost(env: Env, s: Sys, ctl: Controller, s': Sys)
    requires Inv(env, s) && FreshInv(s) && ProceedStep(env, s, s'.(ctl := ctl)) && s'.ctl == AfterFailure(s.ctl)
    ensures s'.log != [] && FreshInv(s') && Forward(Newest(s).status, Newest(s').status)
  {
    FreshWrite(env, s, s'.(ctl := ctl));
  }

  lemma FreshLostStep(env: Env, s: Sys, s': Sys)
    requires Inv(env, s) && FreshInv(s) && Next(env, s, Lost, s')
    ensures s'.log != [] && FreshInv(s') && Forward(Newest(s).status, Newest(s').status)
  {
    var ctl :| ProceedStep(env, s, s'.(ctl := ctl));
    FreshLost(env, s, ctl, s');
  }

  lemma FreshElseStep(env: Env, s: Sys, l: Label, s': Sys)
    requires s.log != [] && FreshInv(s) && Next(env, s, l, s') && !l.Look? && !Writing(l)
    ensures s'.log != [] && FreshInv(s') && Forward(Newest(s).status, Newest(s').status)
  {
    ElseStep(env, s, l, s');
    FreshElse(s, s');
  }

  lemma FreshStep(env: Env, s: Sys, l: Label, s': Sys)
    requires Inv(env, s) && FreshInv(s) && Next(env, s, l, s') && (l.Look? ==> l.version + 1 == |s.log|)
    ensures s'.log != [] && FreshInv(s') && Forward(Newest(s).status, Newest(s').status)
  {
    match l
    case Look(_, rd) => FreshLook(env, s, rd, s');
    case Proceed => FreshWrite(env, s, s');
    case Lost => FreshLostStep(env, s, s');
    case _ => FreshElseStep(env, s, l, s');
  }

  lemma {:induction false} AlwaysFresh(env: Env, ss: seq<Sys>, ls: seq<Label>, i: nat)
    requires Behavior(env, ss, ls) && Fresh(ss, ls) && i < |ss|
    ensures ss[i].log != [] && FreshInv(ss[i])
  {
    if i > 0 {
      AlwaysInv(env, ss, ls, i - 1);
      AlwaysFresh(env, ss, ls, i - 1);
      FreshStep(env, ss[i - 1], ls[i - 1], ss[i]);
    }
  }

  lemma FreshAt(env: Env, ss: seq<Sys>, ls: seq<Label>, k: nat)
    requires Behavior(env, ss, ls) && Fresh(ss, ls) && k < |ls|
    ensures ss[k + 1].log != [] && Forward(Newest(ss[k]).status, Newest(ss[k + 1]).status)
  {
    AlwaysInv(env, ss, ls, k);
    AlwaysFresh(env, ss, ls, k);
    FreshStep(env, ss[k], ls[k], ss[k + 1]);
  }

  lemma {:induction false} ForwardChain(sts: seq<ApplyStatus>, i: nat, j: nat)
    requires i <= j < |sts| && forall k :: 0 <= k < |sts| - 1 ==> Forward(sts[k], sts[k + 1])
    ensures Forward(sts[i], sts[j])
  {
    if i < j {
      ForwardChain(sts, i, j - 1);
      assert Forward(sts[j - 1], sts[(j - 1) + 1]);
    }
  }

  /** With fresh reads phases only move forward, and a terminal status is final. */
  lemma PhasesMoveForward(env: Env, ss: seq<Sys>, ls: seq<Label>, i: nat, j: nat)
    requires Behavior(env, ss, ls) && Fresh(ss, ls) && i <= j < |ss|
    ensures ss[i].log != [] && ss[j].log != [] && Forward(Newest(ss[i]).status, Newest(ss[j]).status)
  {
    forall k | 0 <= k < |ss| ensures ss[k].log != [] {
      AlwaysInv(env, ss, ls, k);
    }
    var sts := seq(|ss|, k requires 0 <= k < |ss| => Newest(ss[k]).status);
    forall k | 0 <= k < |ss| - 1 ensures Forward(sts[k], sts[k + 1]) {
      FreshAt(env, ss, ls, k);
    }
    ForwardChain(sts, i, j);
  }

  /** With fresh reads a request is refused only if its pod was never created. */
  lemma RefusedWithoutARun(env: Env, ss: seq<Sys>, ls: seq<Label>, i: nat)
    requires Behavior(env, ss, ls) && Fresh(ss, ls) && i < |ss|
    ensures ss[i].log != [] && (Newest(ss[i]).status.phase == Refused ==> ss[i].creations == 0)
  {
    AlwaysFresh(env, ss, ls, i);
  }
}
