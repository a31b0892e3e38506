/**
  The two controllers together: one Incident as in System, one IncidentApply as in Handshake, and the
  recording of the request's run on the incident, which is a step of both.
 */
module Recordings {
  import opened Options
  import opened Clock
  import opened Incidents
  import opened CheckPods
  import opened Requests
  import opened Lifecycle
  import Storage
  import System
  import SystemInvariants
  import SystemTheorems
  import Rounds
  import Handshake
  import HandshakeEnds
  import Machine

  datatype Env = Env(inc: System.Env, req: Handshake.Env)

  /** missed: the recording read the incident in a state in which it records nothing. */
  datatype Both = Both(inc: System.Sys, req: Handshake.Sys, missed: bool)

  datatype Label =
    | OfIncident(step: System.Label)
    | OfRequest(of: Handshake.Label)
    | Recording(write: Handshake.Label, read: nat)  // the request's run, on version read of the incident

  predicate Nonempty(b: Both) {
    b.inc.store.log != [] && b.req.log != []
  }

  /** The request's next write is the recording of its run. */
  predicate AtRecording(h: Handshake.Sys) {
    && h.ctl.Updating? && h.ctl.next < |Handshake.Writes(h.ctl.plan)|
    && Handshake.Writes(h.ctl.plan)[h.ctl.next] == Handshake.RecordRun
  }

  /** A recording that changes a version that is no longer the newest fails. */
  predicate RecordingStep(b: Both, read: nat, b': Both)
    requires Nonempty(b)
  {
    && AtRecording(b.req) && b.req.ctl.plan.run.Some? && read < |b.inc.store.log|
    && var run, st := b.req.ctl.plan.run.value, b.inc.store.log[read].status;
       && (Machine.RecordApply(st, run).status != st ==> Storage.IsNewest(b.inc.store, read))
       && System.RecordStep(b.inc, read, run, b'.inc)
       && b'.missed == (b.missed || (st.state != Open && st.state != Verifying))
  }

  ghost predicate Next(env: Env, b: Both, l: Label, b': Both)
    requires Nonempty(b)
  {
    match l
    case OfIncident(k) => System.Next(env.inc, b.inc, k, b'.inc) && b'.req == b.req && b'.missed == b.missed
    case OfRequest(k) =>
      && Handshake.Next(env.req, b.req, k, b'.req) && !(Handshake.Writing(k) && AtRecording(b.req))
      && b'.inc == b.inc && b'.missed == b.missed
    case Recording(k, read) =>
      Handshake.Writing(k) && Handshake.Next(env.req, b.req, k, b'.req) && RecordingStep(b, read, b')
  }

  ghost predicate Behavior(env: Env, bs: seq<Both>, ls: seq<Label>) {
    && |bs| == |ls| + 1
    && System.Init(bs[0].inc) && Handshake.Init(bs[0].req) && !bs[0].missed
    && forall i :: 0 <= i < |ls| ==> Nonempty(bs[i]) && Next(env, bs[i], ls[i], bs[i + 1])
  }

  // ----- what an apply entry comes from -----

  /** An apply run with this exit, ended in this second, is among the events of the incident. */
  ghost predicate Traced(trace: seq<Event>, exit: Option<int>, second: Time) {
    exists r :: ApplyRun(r) in trace && r.exit == exit && Rfc3339Copy(r.at) == second
  }

  ghost predicate EntryTraced(trace: seq<Event>, c: Option<LastCheck>) {
    c.Some? && c.value.exit.Some? ==> Traced(trace, c.value.exit, c.value.since)
  }

  /** Every apply entry with an exit in any version is an apply run of the trace. */
  ghost predicate EntriesTraced(s: System.Sys) {
    forall v :: 0 <= v < |s.store.log| ==> EntryTraced(s.trace, ResultOfScript(s.store.log[v].status, Apply))
  }

  lemma TracedStays(trace: seq<Event>, trace': seq<Event>, exit: Option<int>, second: Time)
    requires trace <= trace' && Traced(trace, exit, second)
    ensures Traced(trace', exit, second)
  {
    var r :| ApplyRun(r) in trace && r.exit == exit && Rfc3339Copy(r.at) == second;
    assert ApplyRun(r) in trace';
  }

  /** A round's status has the apply entry it read, or one without an exit. */
  lemma PersistedEntry(env: System.Env, s: System.Sys, s': System.Sys)
    requires SystemInvariants.TraceInv(env, s) && SystemInvariants.RoundInv(env, s) && s.ctl.Busy? && SystemInvariants.Persists(s, s')
    ensures var c := ResultOfScript(s.ctl.found.status, Apply);
            c == ResultOfScript(Storage.Newest(s.store).status, Apply) || (c.Some? && c.value.exit == None)
  {
    var read := s.store.log[s.ctl.base];
    Rounds.FoldKeeps(env.cfg, System.Begin(read.status, read.spec, s.ctl.lastRun, s.ctl.at), s.ctl.order, s.ctl.at);
  }

  /** The version a step adds, if it adds one. */
  lemma NewestTraced(env: System.Env, s: System.Sys, l: System.Label, s': System.Sys)
    requires SystemInvariants.TraceInv(env, s) && SystemInvariants.RoundInv(env, s) && System.Next(env, s, l, s')
    ensures s'.store.log != []
    ensures var c, was := ResultOfScript(Storage.Newest(s'.store).status, Apply), ResultOfScript(Storage.Newest(s.store).status, Apply);
            c == was || (c.Some? && c.value.exit.Some? ==> Traced(s'.trace, c.value.exit, c.value.since))
  {
    match l
    case WriteDone => WrittenTraced(env, s, false, s');
    case WriteLost => WrittenTraced(env, s, true, s');
    case RecordRun(read, run) => RecordedTraced(s, read, run, s');
    case _ =>
  }

  lemma WrittenTraced(env: System.Env, s: System.Sys, lost: bool, s': System.Sys)
    requires SystemInvariants.TraceInv(env, s) && SystemInvariants.RoundInv(env, s) && System.WriteStep(env, s, lost, s')
    ensures s'.store.log != []
    ensures var c, was := ResultOfScript(Storage.Newest(s'.store).status, Apply), ResultOfScript(Storage.Newest(s.store).status, Apply);
            c == was || (c.Some? && c.value.exit == None)
  {
    SystemInvariants.WriteCases(env, s, lost, s');
    if SystemInvariants.Persists(s, s') {
      PersistedEntry(env, s, s');
    }
  }

  lemma RecordedTraced(s: System.Sys, read: nat, run: RunResult, s': System.Sys)
    requires s.store.log != [] && System.RecordStep(s, read, run, s')
    ensures s'.store.log != []
    ensures s' != s ==> var c := ResultOfScript(Storage.Newest(s'.store).status, Apply);
                        c.Some? && c.value.exit == run.exit && Traced(s'.trace, run.exit, c.value.since)
  {
    if s' != s {
      assert ApplyRun(run) in s'.trace;
    }
  }

  lemma EntriesGrow(s: System.Sys, s': System.Sys)
    requires s.store.log != [] && EntriesTraced(s) && s.trace <= s'.trace && SystemInvariants.Appended(s, s') && s'.store.log != []
    requires var c, was := ResultOfScript(Storage.Newest(s'.store).status, Apply), ResultOfScript(Storage.Newest(s.store).status, Apply);
             c == was || EntryTraced(s'.trace, c)
    ensures EntriesTraced(s')
  {
    forall v | 0 <= v < |s'.store.log| ensures EntryTraced(s'.trace, ResultOfScript(s'.store.log[v].status, Apply)) {
      var u := if v < |s.store.log| then v else |s.store.log| - 1;
      var c := ResultOfScript(s.store.log[u].status, Apply);
      assert EntryTraced(s.trace, c);
      if c.Some? && c.value.exit.Some? {
        TracedStays(s.trace, s'.trace, c.value.exit, c.value.since);
      }
      assert v < |s.store.log| ==> s'.store.log[v] == s.store.log[v];
    }
  }

  lemma EntriesStayTraced(env: System.Env, s: System.Sys, l: System.Label, s': System.Sys)
    requires SystemInvariants.Inv(env, s) && EntriesTraced(s) && System.Next(env, s, l, s')
    ensures EntriesTraced(s') && s.trace <= s'.trace
  {
    SystemInvariants.NextAppends(env, s, l, s');
    SystemTheorems.TraceAppends(env, s, l, s');
    NewestTraced(env, s, l, s');
    EntriesGrow(s, s');
  }

  // ----- a success is in the incident's history -----

  /** A success is among the incident's events, with its end, unless the recording found nothing to record on. */
  ghost predicate Accounted(b: Both, st: ApplyStatus) {
    st.phase == RunSucceeded ==>
      b.missed || (st.finishedAt.Some? && Traced(b.inc.trace, Some(0), st.finishedAt.value))
  }

  predicate RunToRecord(c: Handshake.Controller)
    requires c.Updating?
  {
    && c.next == 0 && c.plan.run.Some? && c.plan.run.value.exit == Some(0)
    && c.status.finishedAt == Some(Rfc3339Copy(c.plan.run.value.at))
  }

  ghost predicate SuccessInv(b: Both) {
    && (forall v :: 0 <= v < |b.req.log| ==> Accounted(b, b.req.log[v].status))
    && (Handshake.PatchToCome(b.req) ==> Accounted(b, b.req.ctl.status) || RunToRecord(b.req.ctl))
  }

  ghost predicate Inv(env: Env, b: Both) {
    && Nonempty(b) && SystemInvariants.Inv(env.inc, b.inc) && EntriesTraced(b.inc)
    && Handshake.Inv(env.req, b.req) && HandshakeEnds.EndInv(env.req, b.req) && SuccessInv(b)
  }

  lemma AccountedStays(b: Both, b': Both, st: ApplyStatus)
    requires Accounted(b, st) && b.inc.trace <= b'.inc.trace && (b.missed ==> b'.missed)
    ensures Accounted(b', st)
  {
    if st.phase == RunSucceeded && !b'.missed {
      TracedStays(b.inc.trace, b'.inc.trace, Some(0), st.finishedAt.value);
    }
  }

  /** The recording accounts for its run: it adds the event, or finds it recorded. */
  lemma RecordingAccounts(env: Env, b: Both, read: nat, b': Both)
    requires Inv(env, b) && RecordingStep(b, read, b')
    ensures b.inc.trace <= b'.inc.trace
    ensures var run := b.req.ctl.plan.run.value;
            run.exit == Some(0) ==> b'.missed || Traced(b'.inc.trace, Some(0), Rfc3339Copy(run.at))
  {
    var run, st := b.req.ctl.plan.run.value, b.inc.store.log[read].status;
    if Machine.RecordApply(st, run).status != st {
      assert ApplyRun(run) in b'.inc.trace;
    } else if st.state == Open || st.state == Verifying {
      var c := ResultOfScript(st, Apply);
      assert c == Some(LastCheck(run.exit, Rfc3339Copy(run.at), []));
      assert EntryTraced(b.inc.trace, c);
    }
  }

  lemma LookAccounts(env: Env, b: Both, version: nat, rd: Reads, b': Both)
    requires Inv(env, b) && Handshake.LookStep(env.req, b.req, version, rd, b'.req) && b'.inc == b.inc && b'.missed == b.missed
    ensures SuccessInv(b')
  {
    DirtyExactly(b.req.log[version].status, rd, env.req.cfg, b.req.now);
    DirtyStatus(b.req.log[version].status, rd, env.req.cfg, b.req.now);
    if b'.req.ctl.Updating? {
      assert Handshake.Writes(b'.req.ctl.plan)[0..] == Handshake.Writes(b'.req.ctl.plan);
    }
  }

  /** A patch comes after the recording, and stores the end it recorded. */
  lemma PatchAccounts(env: Env, b: Both, h: Handshake.Sys)
    requires Inv(env, b) && Handshake.Patches(b.req) && Handshake.UpdateStep(b.req, h)
    ensures SuccessInv(b.(req := h))
  {
    Handshake.PatchKeeps(env.req, b.req, h);
    Handshake.WriteAt(b.req.ctl.plan, b.req.ctl.next);
    assert !RunToRecord(b.req.ctl);
    var st := Handshake.Newest(h).status;
    assert h.log == b.req.log + [Handshake.Newest(h)];
    if st.phase == RunSucceeded {
      assert st.finishedAt == b.req.ctl.status.finishedAt;
    }
  }

  /** Past the recording and the patch, or in a create, no patch is to come. */
  lemma NoPatchAfter(env: Env, h: Handshake.Sys, h': Handshake.Sys)
    requires Handshake.Inv(env.req, h) && !Handshake.Patches(h) && !AtRecording(h) && Handshake.ProceedStep(env.req, h, h')
    ensures !Handshake.PatchToCome(h')
  {
    if h.ctl.Updating? && h.ctl.next < |Handshake.Writes(h.ctl.plan)| {
      Handshake.WriteAt(h.ctl.plan, h.ctl.next);
    }
  }

  /** A write other than the patch and the recording. */
  lemma OtherWriteAccounts(env: Env, b: Both, h: Handshake.Sys)
    requires Inv(env, b) && !Handshake.Patches(b.req) && !AtRecording(b.req) && Handshake.ProceedStep(env.req, b.req, h)
    ensures SuccessInv(b.(req := h))
  {
    Handshake.ProceedKeeps(env.req, b.req, h);
    HandshakeEnds.LogGrows(b.req, h);
    NoPatchAfter(env, b.req, h);
    SameStatuses(b, h);
  }

  lemma SameStatuses(b: Both, h: Handshake.Sys)
    requires SuccessInv(b)
    requires forall v :: 0 <= v < |h.log| ==> exists u :: 0 <= u < |b.req.log| && b.req.log[u].status == h.log[v].status
    ensures forall v :: 0 <= v < |h.log| ==> Accounted(b.(req := h), h.log[v].status)
  {
    forall v | 0 <= v < |h.log| ensures Accounted(b.(req := h), h.log[v].status) {
      var u :| 0 <= u < |b.req.log| && b.req.log[u].status == h.log[v].status;
      assert Accounted(b, b.req.log[u].status);
    }
  }

  lemma WriteAccounts(env: Env, b: Both, h: Handshake.Sys)
    requires Inv(env, b) && !AtRecording(b.req) && Handshake.ProceedStep(env.req, b.req, h)
    ensures SuccessInv(b.(req := h))
  {
    if Handshake.Patches(b.req) {
      PatchAccounts(env, b, h);
    } else {
      OtherWriteAccounts(env, b, h);
    }
  }

  lemma ElseAccounts(env: Env, b: Both, l: Handshake.Label, h: Handshake.Sys)
    requires Inv(env, b) && Handshake.Next(env.req, b.req, l, h) && !l.Look? && !Handshake.Writing(l)
    ensures SuccessInv(b.(req := h))
  {
    Handshake.ElseStep(env.req, b.req, l, h);
    HandshakeEnds.LogGrows(b.req, h);
    SameStatuses(b, h);
    assert Handshake.PatchToCome(h) ==> Handshake.PatchToCome(b.req) && h.ctl == b.req.ctl;
  }

  /** With the reply lost the request's reconcile is over. */
  lemma LostAccounts(b: Both, ctl: Handshake.Controller)
    requires SuccessInv(b) && !ctl.Updating?
    ensures SuccessInv(b.(req := b.req.(ctl := ctl)))
  {
    forall v | 0 <= v < |b.req.log| ensures Accounted(b.(req := b.req.(ctl := ctl)), b.req.log[v].status) {
      assert Accounted(b, b.req.log[v].status);
    }
  }

  lemma RequestAccounts(env: Env, b: Both, k: Handshake.Label, b': Both)
    requires Inv(env, b) && Next(env, b, OfRequest(k), b')
    ensures SuccessInv(b')
  {
    assert b' == b.(req := b'.req);
    match k
    case Look(version, rd) => LookAccounts(env, b, version, rd, b');
    case Proceed => WriteAccounts(env, b, b'.req);
    case Lost =>
      var ctl :| Handshake.ProceedStep(env.req, b.req, b'.req.(ctl := ctl));
      WriteAccounts(env, b, b'.req.(ctl := ctl));
      LostAccounts(b.(req := b'.req.(ctl := ctl)), b'.req.ctl);
    case _ => ElseAccounts(env, b, k, b'.req);
  }

  /** The recording leaves the request's log, and its update, at the patch. */
  lemma RecordingWrites(env: Env, h: Handshake.Sys, k: Handshake.Label, h': Handshake.Sys)
    requires h.log != [] && AtRecording(h) && Handshake.Writing(k) && Handshake.Next(env.req, h, k, h')
    ensures h'.log == h.log
    ensures h'.ctl.Updating? ==> h'.ctl == h.ctl.(next := h.ctl.next + 1)
    ensures h.ctl.next == 0 && h.ctl.plan.run.Some?
  {
    RecordingIsFirst(h.ctl.plan, h.ctl.next);
    if k.Lost? {
      var ctl :| Handshake.ProceedStep(env.req, h, h'.(ctl := ctl));
    }
  }

  /** Only the first write records, and only when there is a run. */
  lemma RecordingIsFirst(plan: ApplyPlan, k: nat)
    requires k < |Handshake.Writes(plan)| && Handshake.Writes(plan)[k] == Handshake.RecordRun
    ensures k == 0 && plan.run.Some?
  {
  }

  lemma RecordingKeeps(env: Env, b: Both, k: Handshake.Label, read: nat, b': Both)
    requires Inv(env, b) && Next(env, b, Recording(k, read), b')
    ensures SuccessInv(b') && EntriesTraced(b'.inc) && SystemInvariants.Inv(env.inc, b'.inc)
  {
    RecordingAccounts(env, b, read, b');
    RecordingWrites(env, b.req, k, b'.req);
    var run := b.req.ctl.plan.run.value;
    EntriesStayTraced(env.inc, b.inc, System.RecordRun(read, run), b'.inc);
    SystemInvariants.NextKeepsInv(env.inc, b.inc, System.RecordRun(read, run), b'.inc);
    forall v | 0 <= v < |b'.req.log| ensures Accounted(b', b'.req.log[v].status) {
      AccountedStays(b, b', b.req.log[v].status);
    }
    if Handshake.PatchToCome(b'.req) && b'.req.ctl.status.phase == RunSucceeded {
      RecordedBeforePatch(env, b, b');
    }
  }

  /** The run at the recording is the one whose success is about to be stored. */
  lemma RecordedBeforePatch(env: Env, b: Both, b': Both)
    requires Inv(env, b) && AtRecording(b.req) && b.req.ctl.plan.run.Some? && b.req.ctl.next == 0
    requires b'.req.ctl == b.req.ctl.(next := 1) && Handshake.PatchToCome(b'.req)
    requires b.inc.trace <= b'.inc.trace && (b.missed ==> b'.missed)
    requires var run := b.req.ctl.plan.run.value;
             run.exit == Some(0) ==> b'.missed || Traced(b'.inc.trace, Some(0), Rfc3339Copy(run.at))
    ensures Accounted(b', b'.req.ctl.status)
  {
    Handshake.WriteAt(b.req.ctl.plan, 0);
    assert Handshake.PatchToCome(b.req);
    if Accounted(b, b.req.ctl.status) {
      AccountedStays(b, b', b.req.ctl.status);
    }
  }

  lemma IncidentKeeps(env: Env, b: Both, k: System.Label, b': Both)
    requires Inv(env, b) && Next(env, b, OfIncident(k), b')
    ensures Inv(env, b')
  {
    SystemInvariants.NextKeepsInv(env.inc, b.inc, k, b'.inc);
    EntriesStayTraced(env.inc, b.inc, k, b'.inc);
    forall v | 0 <= v < |b'.req.log| ensures Accounted(b', b'.req.log[v].status) {
      AccountedStays(b, b', b.req.log[v].status);
    }
    if Handshake.PatchToCome(b'.req) && Accounted(b, b.req.ctl.status) {
      AccountedStays(b, b', b.req.ctl.status);
    }
  }

  lemma NextKeeps(env: Env, b: Both, l: Label, b': Both)
    requires Inv(env, b) && Next(env, b, l, b')
    ensures Inv(env, b')
  {
    match l
    case OfIncident(k) => IncidentKeeps(env, b, k, b');
    case OfRequest(k) =>
      Handshake.NextKeeps(env.req, b.req, k, b'.req);
      HandshakeEnds.StepEnds(env.req, b.req, k, b'.req);
      RequestAccounts(env, b, k, b');
    case Recording(k, read) =>
      Handshake.NextKeeps(env.req, b.req, k, b'.req);
      HandshakeEnds.StepEnds(env.req, b.req, k, b'.req);
      RecordingKeeps(env, b, k, read, b');
  }

  lemma InitKeeps(env: Env, b: Both)
    requires System.Init(b.inc) && Handshake.Init(b.req) && !b.missed
    ensures Inv(env, b)
  {
    SystemInvariants.InitInv(env.inc, b.inc);
    Handshake.InitInv(env.req, b.req);
  }

  lemma InvStep(env: Env, bs: seq<Both>, ls: seq<Label>, k: nat)
    requires Behavior(env, bs, ls) && k < |ls| && Inv(env, bs[k])
    ensures Inv(env, bs[k + 1])
  {
    NextKeeps(env, bs[k], ls[k], bs[k + 1]);
  }

  lemma {:induction false} HoldsOn(env: Env, bs: seq<Both>, i: nat)
    requires i < |bs| && Inv(env, bs[0]) && forall k :: 0 <= k < |bs| - 1 && Inv(env, bs[k]) ==> Inv(env, bs[k + 1])
    ensures Inv(env, bs[i])
  {
    if i > 0 {
      HoldsOn(env, bs, i - 1);
      assert Inv(env, bs[i - 1]) ==> Inv(env, bs[(i - 1) + 1]);
    }
  }

  lemma AlwaysInv(env: Env, bs: seq<Both>, ls: seq<Label>, i: nat)
    requires Behavior(env, bs, ls) && i < |bs|
    ensures Inv(env, bs[i])
  {
    InitKeeps(env, bs[0]);
    forall k | 0 <= k < |bs| - 1 && Inv(env, bs[k]) ensures Inv(env, bs[k + 1]) {
      InvStep(env, bs, ls, k);
    }
    HoldsOn(env, bs, i);
  }

  /**
    Whatever is interleaved, stale or cut short on either side: a stored success of a request is among the
    events of its incident, an apply run with exit 0 that ended in the second the request says, unless the
    recording read the incident neither Open nor Verifying.
   */
  lemma SuccessIsOnTheIncident(env: Env, bs: seq<Both>, ls: seq<Label>, i: nat, v: nat)
    requires Behavior(env, bs, ls) && i < |bs| && v < |bs[i].req.log| && !bs[i].missed
    requires bs[i].req.log[v].status.phase == RunSucceeded
    ensures var st := bs[i].req.log[v].status;
            st.finishedAt.Some?
            && exists r :: ApplyRun(r) in bs[i].inc.trace && r.exit == Some(0) && Rfc3339Copy(r.at) == st.finishedAt.value
  {
    AlwaysInv(env, bs, ls, i);
    assert Accounted(bs[i], bs[i].req.log[v].status);
  }
}
