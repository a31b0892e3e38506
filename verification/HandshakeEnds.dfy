/** What a patch, of any version read, leaves of a request that has finished: its exit, its output and its end. */
module HandshakeEnds {
  import opened Options
  import opened Clock
  import opened Incidents
  import opened CheckPods
  import opened Requests
  import opened Handshake

  predicate Blank(st: ApplyStatus) {
    st.exitCode == None && st.output == [] && st.finishedAt == None
  }

  /** The end of the run, as the update's reconcile found it. */
  function EndFound(env: Env, s: Sys): Time
    requires s.ctl.Updating?
  {
    if s.ctl.found.None? then s.ctl.at else ResultOf(s.ctl.found.value, env.cfg.timeout, s.ctl.at).result.at
  }

  /** What the update is about to store is what its reconcile found. */
  predicate StoresWhatItFound(env: Env, s: Sys)
    requires s.ctl.Updating?
  {
    var c := s.ctl;
    if c.found.None? then
      c.status == c.read.(phase := c.status.phase, finishedAt := Some(Rfc3339Copy(c.at)))
    else if Done(env, c.found.value, c.at) then
      c.status.exitCode == ResultOf(c.found.value, env.cfg.timeout, c.at).result.exit
      && c.status.output == c.log
      && (c.read.phase == PodRunning ==> c.status.script == c.read.script && c.status.startedAt == c.read.startedAt)
      && c.status.finishedAt == Some(Rfc3339Copy(EndFound(env, s)))
    else Blank(c.status)
  }

  /** A request that has not finished has no exit, output or end. */
  predicate EndInv(env: Env, s: Sys) {
    && (forall v :: 0 <= v < |s.log| && !Terminal(s.log[v].status.phase) ==> Blank(s.log[v].status))
    && (PatchToCome(s) ==> Blank(s.ctl.read) && StoresWhatItFound(env, s))
  }

  /** An update that is begun stores what its reconcile found. */
  lemma UpdateFound(env: Env, s: Sys, version: nat, rd: Reads, s': Sys)
    requires LookStep(env, s, version, rd, s') && s'.ctl.Updating? && s'.ctl.plan.dirty
    requires Blank(s.log[version].status) || Terminal(s.log[version].status.phase)
    ensures Blank(s'.ctl.read) && StoresWhatItFound(env, s')
  {
    DirtyExactly(s.log[version].status, rd, env.cfg, s.now);
    DirtyStatus(s.log[version].status, rd, env.cfg, s.now);
  }

  lemma LookEnds(env: Env, s: Sys, version: nat, rd: Reads, s': Sys)
    requires Inv(env, s) && EndInv(env, s) && LookStep(env, s, version, rd, s')
    ensures EndInv(env, s')
  {
    if s'.ctl.Updating? {
      assert Writes(s'.ctl.plan)[0..] == Writes(s'.ctl.plan);
      if s'.ctl.plan.dirty {
        UpdateFound(env, s, version, rd, s');
      }
    }
  }

  /** The patch leaves a status that has not finished blank. */
  lemma PatchEnds(env: Env, s: Sys, s': Sys)
    requires Inv(env, s) && EndInv(env, s) && Patches(s) && UpdateStep(s, s')
    ensures EndInv(env, s')
  {
    PatchKeeps(env, s, s');
    WriteAt(s.ctl.plan, s.ctl.next);
    assert s'.log == s.log + [Newest(s')];
    if !Terminal(Newest(s').status.phase) {
      assert s.ctl.found.Some? && !Done(env, s.ctl.found.value, s.ctl.at);
      assert !Terminal(Newest(s).status.phase);
    }
  }

  /** A write that is not the patch keeps the update as it is, and the statuses. */
  lemma SideWriteEnds(env: Env, s: Sys, s': Sys)
    requires Inv(env, s) && EndInv(env, s) && !Patches(s) && ProceedStep(env, s, s')
    requires s'.log != [] && Newest(s').status == Newest(s).status
    ensures EndInv(env, s')
  {
    SideWrite(env, s, s');
    LogGrows(s, s');
  }

  lemma WriteEnds(env: Env, s: Sys, s': Sys)
    requires Inv(env, s) && EndInv(env, s) && ProceedStep(env, s, s')
    ensures EndInv(env, s')
  {
    if Patches(s) {
      PatchEnds(env, s, s');
    } else {
      ProceedKeeps(env, s, s');
      SideWriteEnds(env, s, s');
    }
  }

  /** A version added holds the status of the one before. */
  lemma LogGrows(s: Sys, s': Sys)
    requires s.log != [] && s'.log != [] && Newest(s').status == Newest(s).status
    requires s'.log == s.log || (|s'.log| == |s.log| + 1 && s'.log[..|s.log|] == s.log)
    ensures forall v :: 0 <= v < |s'.log| ==> exists u :: 0 <= u < |s.log| && s.log[u].status == s'.log[v].status
  {
    forall v | 0 <= v < |s'.log| ensures exists u :: 0 <= u < |s.log| && s.log[u].status == s'.log[v].status {
      if v < |s.log| {
        assert s'.log[v] == s.log[v];
      } else {
        assert s.log[|s.log| - 1].status == s'.log[v].status;
      }
    }
  }

  lemma ElseEnds(env: Env, s: Sys, l: Label, s': Sys)
    requires Inv(env, s) && EndInv(env, s) && Next(env, s, l, s') && !l.Look? && !Writing(l)
    ensures EndInv(env, s')
  {
    ElseStep(env, s, l, s');
    LogGrows(s, s');
    assert PatchToCome(s') ==> PatchToCome(s) && s'.ctl == s.ctl;
  }

  lemma StepEnds(env: Env, s: Sys, l: Label, s': Sys)
    requires Inv(env, s) && EndInv(env, s) && Next(env, s, l, s')
    ensures EndInv(env, s')
  {
    match l
    case Look(version, rd) => LookEnds(env, s, version, rd, s');
    case Proceed => WriteEnds(env, s, s');
    case Lost =>
      var ctl :| ProceedStep(env, s, s'.(ctl := ctl));
      WriteEnds(env, s, s'.(ctl := ctl));
    case _ => ElseEnds(env, s, l, s');
  }

  lemma {:induction false} AlwaysEnds(env: Env, ss: seq<Sys>, ls: seq<Label>, i: nat)
    requires Behavior(env, ss, ls) && i < |ss|
    ensures EndInv(env, ss[i])
  {
    if i > 0 {
      AlwaysInv(env, ss, ls, i - 1);
      AlwaysEnds(env, ss, ls, i - 1);
      StepEnds(env, ss[i - 1], ls[i - 1], ss[i]);
    }
  }

  /**
    What a patch leaves of a finished request. The end is always the one its reconcile found. Without a pod
    nothing else but the phase is replaced; with its pod the exit and the log read are, if there are any.
   */
  lemma FinishedPatched(env: Env, ss: seq<Sys>, ls: seq<Label>, i: nat)
    requires Behavior(env, ss, ls) && i < |ls| && Terminal(Newest(ss[i]).status.phase)
    requires Writing(ls[i]) && Patches(ss[i])
    ensures ss[i + 1].log != []
    ensures var was, st, c := Newest(ss[i]).status, Newest(ss[i + 1]).status, ss[i].ctl;
            && st.finishedAt == Some(Rfc3339Copy(EndFound(env, ss[i])))
            && st.phase == PhaseFrom(c.read.phase, c.found, env.cfg.timeout, c.at)
            && (c.found.None? ==> st == was.(phase := st.phase, finishedAt := st.finishedAt))
            && (c.found.Some? ==>
                  var exit := ResultOf(c.found.value, env.cfg.timeout, c.at).result.exit;
                  && st.exitCode == (if exit.Some? then exit else was.exitCode)
                  && st.output == (if c.log != [] then c.log else was.output)
                  && (c.read.phase == PodRunning ==> st.script == was.script && st.startedAt == was.startedAt))
  {
    AlwaysInv(env, ss, ls, i);
    AlwaysEnds(env, ss, ls, i);
    StatusStep(env, ss[i], ls[i], ss[i + 1]);
    WriteAt(ss[i].ctl.plan, ss[i].ctl.next);
  }

  /**
    The end of a finished request, and with it its TTL, moves at a step exactly when the step is a patch whose
    reconcile found another end: its own time if the pod was gone, else the end of the pod's run.
   */
  lemma EndMovesExactly(env: Env, ss: seq<Sys>, ls: seq<Label>, i: nat)
    requires Behavior(env, ss, ls) && i < |ls| && Terminal(Newest(ss[i]).status.phase)
    ensures ss[i + 1].log != []
    ensures Newest(ss[i + 1]).status.finishedAt != Newest(ss[i]).status.finishedAt <==>
              Writing(ls[i]) && Patches(ss[i])
              && Newest(ss[i]).status.finishedAt != Some(Rfc3339Copy(EndFound(env, ss[i])))
  {
    AlwaysInv(env, ss, ls, i);
    StatusStep(env, ss[i], ls[i], ss[i + 1]);
    if Writing(ls[i]) && Patches(ss[i]) {
      FinishedPatched(env, ss, ls, i);
    }
  }
}
