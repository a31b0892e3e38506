/**
  Crash-safe replay. Pods whose deletion failed are read again: recording any rest of a list of
  finished runs a second time changes nothing.
 */
module Replay {
  import opened Options
  import opened Clock
  import opened Incidents
  import opened CheckPods
  import opened Reconcile
  import Lifecycle
  import Machine
  import Output

  /** record, under the guard that the run's script is the current one. */
  function RecordIf(cfg: Config, st: Status, r: RunResult, now: Time): Status {
    if r.script == Machine.CurrentScript(st) then Machine.Record(st, cfg, r, now).status else st
  }

  function RecordAll(cfg: Config, st: Status, rs: seq<RunResult>, now: Time): Status
    decreases rs
  {
    if rs == [] then st else RecordAll(cfg, RecordIf(cfg, st, rs[0], now), rs[1..], now)
  }

  // ----- one lastChecks entry -----

  function EntryStep(c: Option<LastCheck>, r: RunResult): Option<LastCheck> {
    if c.Some? && c.value.exit == r.exit then c
    else Some(LastCheck(r.exit, Rfc3339Copy(r.at), Output.Kept(r.exit, r.output)))
  }

  function EntryAll(c: Option<LastCheck>, rs: seq<RunResult>): Option<LastCheck>
    decreases rs
  {
    if rs == [] then c else EntryAll(EntryStep(c, rs[0]), rs[1..])
  }

  predicate SameExit(rs: seq<RunResult>) {
    forall i :: 0 <= i < |rs| ==> rs[i].exit == rs[0].exit
  }

  lemma {:induction false} EntryAllSame(c: Option<LastCheck>, rs: seq<RunResult>)
    requires rs != [] && SameExit(rs)
    ensures EntryAll(c, rs) == EntryStep(c, rs[0])
    decreases rs
  {
    if |rs| > 1 {
      assert rs[1..][0].exit == rs[0].exit;
      EntryAllSame(EntryStep(c, rs[0]), rs[1..]);
    }
  }

  /** Once two exits differ, nothing of the entry before them is left. */
  lemma {:induction false} EntryAllForgets(c: Option<LastCheck>, d: Option<LastCheck>, rs: seq<RunResult>)
    requires !SameExit(rs)
    ensures EntryAll(c, rs) == EntryAll(d, rs)
    decreases rs
  {
    var rest := rs[1..];
    if SameExit(rest) {
      var i :| 0 <= i < |rs| && rs[i].exit != rs[0].exit;
      assert rest[i - 1].exit == rest[0].exit;
      EntryAllSame(EntryStep(c, rs[0]), rest);
      EntryAllSame(EntryStep(d, rs[0]), rest);
    } else {
      EntryAllForgets(EntryStep(c, rs[0]), EntryStep(d, rs[0]), rest);
    }
  }

  lemma EntryAllTwice(c: Option<LastCheck>, rs: seq<RunResult>)
    ensures EntryAll(EntryAll(c, rs), rs) == EntryAll(c, rs)
  {
    if rs != [] {
      if SameExit(rs) {
        EntryAllSame(c, rs);
        EntryAllSame(EntryAll(c, rs), rs);
      } else {
        EntryAllForgets(EntryAll(c, rs), c, rs);
      }
    }
  }

  lemma {:induction false} EntryAllConcat(c: Option<LastCheck>, a: seq<RunResult>, b: seq<RunResult>)
    ensures EntryAll(c, a + b) == EntryAll(EntryAll(c, a), b)
    decreases a
  {
    if a == [] {
      assert a + b == b;
    } else {
      assert (a + b)[1..] == a[1..] + b;
      EntryAllConcat(EntryStep(c, a[0]), a[1..], b);
    }
  }

  // ----- the whole status -----

  predicate OfScript(rs: seq<RunResult>, s: Script) {
    forall i :: 0 <= i < |rs| ==> rs[i].script == s
  }

  /** Recording r in st sets only r's lastChecks entry. */
  predicate Quiet(cfg: Config, st: Status, r: RunResult) {
    || !Output.Known(r.exit)
    || (r.exit == Some(1) && r.script == Precondition && Machine.HasVerdict(st))
    || (r.exit == Some(1) && r.script == Verify && st.verifyingSince.Some?
        && r.at - st.verifyingSince.value < cfg.settleWindow)
  }

  function WithEntry(st: Status, s: Script, c: Option<LastCheck>): Status {
    var lc := if st.lastChecks.None? then LastChecks(None, None, None) else st.lastChecks.value;
    st.(lastChecks := Some(WithSlot(lc, s, c)))
  }

  lemma QuietStep(cfg: Config, st: Status, r: RunResult, now: Time)
    requires r.script == Precondition || r.script == Verify
    requires r.script == Machine.CurrentScript(st) && Quiet(cfg, st, r)
    ensures RecordIf(cfg, st, r, now) == WithEntry(st, r.script, EntryStep(ResultOfScript(st, r.script), r))
  {
  }

  lemma {:induction false} QuietAll(cfg: Config, st: Status, s: Script, rs: seq<RunResult>, now: Time)
    requires s == Precondition || s == Verify
    requires s == Machine.CurrentScript(st) && OfScript(rs, s) && st.lastChecks.Some?
    requires forall i :: 0 <= i < |rs| ==> Quiet(cfg, st, rs[i])
    ensures RecordAll(cfg, st, rs, now) == WithEntry(st, s, EntryAll(ResultOfScript(st, s), rs))
    decreases rs
  {
    if rs != [] {
      var next := RecordIf(cfg, st, rs[0], now);
      QuietStep(cfg, st, rs[0], now);
      assert Machine.CurrentScript(next) == s;
      forall i | 0 <= i < |rs[1..]| ensures Quiet(cfg, next, rs[1..][i]) && rs[1..][i].script == s {
        assert rs[1..][i] == rs[i + 1] && Quiet(cfg, st, rs[i + 1]);
      }
      QuietAll(cfg, next, s, rs[1..], now);
    }
  }

  /** The window that run r starts in a status without one has passed when r ends. */
  predicate PastItsOwnWindow(cfg: Config, r: RunResult) {
    r.exit == Some(1) && r.at - Rfc3339Copy(r.at) >= cfg.settleWindow
  }

  /**
    In st, Verifying without a window, run i of rs starts one, is itself past it, and the other runs move
    nothing: those before are unknown, those after unknown or inside the window.
   */
  predicate Reopens(cfg: Config, st: Status, rs: seq<RunResult>, i: int) {
    && 0 <= i < |rs| && rs[i].script == Verify == Machine.CurrentScript(st) && st.verifyingSince.None?
    && PastItsOwnWindow(cfg, rs[i])
    && (forall j :: 0 <= j < i ==> !Output.Known(rs[j].exit))
    && (forall j :: i < j < |rs| ==>
          !Output.Known(rs[j].exit) || (rs[j].exit == Some(1) && rs[j].at - Rfc3339Copy(rs[i].at) < cfg.settleWindow))
  }

  /** A run that leaves its script current was recorded quietly, up to the window and the verdict it may have set itself. */
  lemma RecordStaysCurrent(cfg: Config, st: Status, r: RunResult, now: Time)
    requires r.script == Precondition || r.script == Verify
    requires Machine.CurrentScript(RecordIf(cfg, st, r, now)) == r.script
    ensures var next := RecordIf(cfg, st, r, now);
            && Machine.CurrentScript(st) == r.script
            && (if r.script == Verify && r.exit == Some(1) && st.verifyingSince.None?
                then next.verifyingSince == Some(Rfc3339Copy(r.at))
                else Quiet(cfg, next, r) && next.verifyingSince == st.verifyingSince)
            && next.lastChecks.Some?
            && ResultOfScript(next, r.script) == EntryStep(ResultOfScript(st, r.script), r)
            && (Machine.HasVerdict(st) ==> Machine.HasVerdict(next))
  {
  }

  /** What the rest of a list says of its runs, said of them in the whole list. */
  lemma FirstPassStep(cfg: Config, st: Status, s: Script, rs: seq<RunResult>, end: Status, now: Time, i: nat)
    requires s == Precondition || s == Verify
    requires OfScript(rs, s) && i < |rs| && Machine.CurrentScript(RecordIf(cfg, st, rs[0], now)) == s
    requires var next, rest := RecordIf(cfg, st, rs[0], now), rs[1..];
             && (forall j :: 0 <= j < |rest| ==> Quiet(cfg, end, rest[j]) || Reopens(cfg, next, rest, j))
             && (Machine.HasVerdict(next) ==> Machine.HasVerdict(end))
             && (next.verifyingSince.Some? ==> end.verifyingSince == next.verifyingSince)
    ensures Quiet(cfg, end, rs[i]) || Reopens(cfg, st, rs, i)
  {
    var next, rest := RecordIf(cfg, st, rs[0], now), rs[1..];
    RecordStaysCurrent(cfg, st, rs[0], now);
    assert forall j :: 0 < j < |rs| ==> rs[j] == rest[j - 1];
    if i > 0 && Reopens(cfg, next, rest, i - 1) {
      assert Reopens(cfg, st, rs, i);
    }
  }

  lemma {:induction false} FirstPass(cfg: Config, st: Status, s: Script, rs: seq<RunResult>, now: Time)
    requires s == Precondition || s == Verify
    requires OfScript(rs, s) && Machine.CurrentScript(RecordAll(cfg, st, rs, now)) == s
    ensures var end := RecordAll(cfg, st, rs, now);
            && Machine.CurrentScript(st) == s
            && (forall i :: 0 <= i < |rs| ==> Quiet(cfg, end, rs[i]) || Reopens(cfg, st, rs, i))
            && (rs != [] || st.lastChecks.Some? ==> end.lastChecks.Some?)
            && ResultOfScript(end, s) == EntryAll(ResultOfScript(st, s), rs)
            && (Machine.HasVerdict(st) ==> Machine.HasVerdict(end))
            && (st.verifyingSince.Some? ==> end.verifyingSince == st.verifyingSince)
    decreases rs
  {
    if rs != [] {
      var end := RecordAll(cfg, st, rs, now);
      FirstPass(cfg, RecordIf(cfg, st, rs[0], now), s, rs[1..], now);
      RecordStaysCurrent(cfg, st, rs[0], now);
      forall i | 0 <= i < |rs| ensures Quiet(cfg, end, rs[i]) || Reopens(cfg, st, rs, i) {
        FirstPassStep(cfg, st, s, rs, end, now, i);
      }
    }
  }

  lemma {:induction false} NotCurrent(cfg: Config, st: Status, s: Script, rs: seq<RunResult>, now: Time)
    requires OfScript(rs, s) && Machine.CurrentScript(st) != s
    ensures RecordAll(cfg, st, rs, now) == st
    decreases rs
  {
    if rs != [] {
      NotCurrent(cfg, st, s, rs[1..], now);
    }
  }

  /** A status without a window ends in the one such a run starts. */
  lemma {:induction false} ReopensFirstPass(cfg: Config, st: Status, rs: seq<RunResult>, i: nat, now: Time)
    requires OfScript(rs, Verify) && Reopens(cfg, st, rs, i)
    ensures var end := RecordAll(cfg, st, rs, now);
            Machine.CurrentScript(end) == Verify && end.verifyingSince == Some(Rfc3339Copy(rs[i].at))
    decreases rs
  {
    var next, rest := RecordIf(cfg, st, rs[0], now), rs[1..];
    assert forall j :: 0 < j < |rs| ==> rs[j] == rest[j - 1];
    if i == 0 {
      QuietAll(cfg, next, Verify, rest, now);
    } else {
      ReopensFirstPass(cfg, next, rest, i - 1, now);
    }
  }

  /** The first run past the window moves the incident back to Open, where it stays. */
  lemma {:induction false} MovesToOpen(cfg: Config, st: Status, rs: seq<RunResult>, m: nat, now: Time)
    requires OfScript(rs, Verify) && m < |rs| && Machine.CurrentScript(st) == Verify && st.verifyingSince.Some?
    requires rs[m].exit == Some(1) && rs[m].at - st.verifyingSince.value >= cfg.settleWindow
    requires forall j :: 0 <= j < m ==> !Output.Known(rs[j].exit)
    ensures RecordAll(cfg, st, rs, now).state == Open
    decreases rs
  {
    var next, rest := RecordIf(cfg, st, rs[0], now), rs[1..];
    assert forall j :: 0 < j < |rs| ==> rs[j] == rest[j - 1];
    if m == 0 {
      NotCurrent(cfg, next, Verify, rest, now);
    } else {
      MovesToOpen(cfg, next, rest, m - 1, now);
    }
  }

  /** When no run of the rest reopens, and the script is still current, the rest is quiet and was recorded. */
  lemma QuietRest(cfg: Config, st: Status, s: Script, rs: seq<RunResult>, k: nat, now: Time, later: Time)
    requires s == Precondition || s == Verify
    requires OfScript(rs, s) && k < |rs| && Machine.CurrentScript(RecordAll(cfg, st, rs, now)) == s
    requires forall i :: k <= i < |rs| ==> !Reopens(cfg, st, rs, i)
    ensures var end := RecordAll(cfg, st, rs, now);
            RecordAll(cfg, end, rs[k..], later) == end
  {
    var end, rest := RecordAll(cfg, st, rs, now), rs[k..];
    FirstPass(cfg, st, s, rs, now);
    assert forall j :: 0 <= j < |rest| ==> rest[j] == rs[k + j];
    QuietAll(cfg, end, s, rest, later);
    assert rs == rs[..k] + rest;
    EntryAllConcat(ResultOfScript(st, s), rs[..k], rest);
    EntryAllTwice(EntryAll(ResultOfScript(st, s), rs[..k]), rest);
  }

  /**
    Recording any rest of the runs of one script again, at any later time, changes the status exactly
    when one of them started a window it is itself past.
   */
  lemma RecordRestAgainExactly(cfg: Config, st: Status, s: Script, rs: seq<RunResult>, k: nat, now: Time, later: Time)
    requires s == Precondition || s == Verify
    requires OfScript(rs, s) && k <= |rs|
    ensures var end := RecordAll(cfg, st, rs, now);
            RecordAll(cfg, end, rs[k..], later) != end <==> exists i :: k <= i < |rs| && Reopens(cfg, st, rs, i)
  {
    var end, rest := RecordAll(cfg, st, rs, now), rs[k..];
    if i :| k <= i < |rs| && Reopens(cfg, st, rs, i) {
      assert forall j :: 0 <= j < |rest| ==> rest[j] == rs[k + j];
      ReopensFirstPass(cfg, st, rs, i, now);
      MovesToOpen(cfg, end, rest, i - k, later);
    } else if Machine.CurrentScript(end) != s {
      assert forall j :: 0 <= j < |rest| ==> rest[j] == rs[k + j];
      NotCurrent(cfg, end, s, rest, later);
    } else if k < |rs| {
      QuietRest(cfg, st, s, rs, k, now, later);
    }
  }

  // ----- at the level of Observe -----

  /** Undeleted pods of script s with a result at now. */
  predicate FinishedRuns(cfg: Config, pods: seq<Pod>, s: Script, now: Time) {
    forall i :: 0 <= i < |pods| ==>
      !pods[i].deleting && pods[i].script == s && ResultOf(pods[i], cfg.checkTimeout, now).done
  }

  function Results(cfg: Config, pods: seq<Pod>, now: Time): seq<RunResult> {
    seq(|pods|, i requires 0 <= i < |pods| => ResultOf(pods[i], cfg.checkTimeout, now).result)
  }

  lemma {:induction false} FoldRecords(cfg: Config, a: Seen, pods: seq<Pod>, s: Script, now: Time)
    requires FinishedRuns(cfg, pods, s, now)
    ensures OfScript(Results(cfg, pods, now), s)
    ensures Fold(cfg, a, pods, now).status == RecordAll(cfg, a.status, Results(cfg, pods, now), now)
    decreases |pods|
  {
    forall i | 0 <= i < |pods| ensures Results(cfg, pods, now)[i].script == s {
      ExitExactly(pods[i], cfg.checkTimeout, now);
    }
    if pods != [] {
      assert FinishedRuns(cfg, pods[1..], s, now);
      FoldRecords(cfg, Visit(cfg, a, pods[0], now), pods[1..], s, now);
      assert Results(cfg, pods, now)[1..] == Results(cfg, pods[1..], now);
    }
  }

  lemma ObserveRecords(cfg: Config, st: Status, spec: Spec, run: Time, pods: seq<Pod>, s: Script, now: Time)
    requires FinishedRuns(cfg, pods, s, now)
    ensures OfScript(Results(cfg, pods, now), s)
    ensures var o := Observe(cfg, st, spec, run, pods, now);
            var applied := Machine.ApplySpec(st, spec, now);
            && o.status == RecordAll(cfg, applied.status, Results(cfg, pods, now), now)
            && (o.plan.dirty <==> applied.consumed || o.status != st)
  {
    var applied := Machine.ApplySpec(st, spec, now);
    FoldRecords(cfg, Seen(applied.status, run, None, [], applied.changes), pods, s, now);
  }

  lemma RestResults(cfg: Config, pods: seq<Pod>, s: Script, k: nat, now: Time, later: Time)
    requires FinishedRuns(cfg, pods, s, now) && k <= |pods| && now <= later
    ensures FinishedRuns(cfg, pods[k..], s, later)
    ensures Results(cfg, pods[k..], later) == Results(cfg, pods, now)[k..]
  {
    var rest := pods[k..];
    forall i | 0 <= i < |rest|
      ensures ResultOf(rest[i], cfg.checkTimeout, later) == ResultOf(pods[k + i], cfg.checkTimeout, now)
      ensures !rest[i].deleting && rest[i].script == s && ResultOf(rest[i], cfg.checkTimeout, later).done
    {
      assert rest[i] == pods[k + i];
      ResultIsStable(pods[k + i], cfg.checkTimeout, now, later);
    }
  }

  /** With no apply pending, the human decisions act on what a reconcile left no second time. */
  lemma DecisionsSettle(cfg: Config, st: Status, spec: Spec, rs: seq<RunResult>, s: Script, now: Time, later: Time)
    requires !spec.applied && OfScript(rs, s) && s != NoScript
    ensures var end := RecordAll(cfg, Machine.ApplySpec(st, spec, now).status, rs, now);
            Machine.ApplySpec(end, spec, later) == Machine.Applied(end, [], false)
  {
    var applied := Machine.ApplySpec(st, spec, now).status;
    if spec.closed {
      NotCurrent(cfg, applied, s, rs, now);
    }
  }

  /**
    After a reconcile recorded a list of finished pods of one script, a reconcile at any later time
    finds any suffix of the list, what a delete loop that failed part-way leaves. It changes the status,
    and writes one, exactly when a run of the suffix started a window it is itself past.
   */
  lemma ReplayExactly(cfg: Config, st: Status, spec: Spec, run: Time, run': Time,
                      pods: seq<Pod>, s: Script, k: nat, now: Time, later: Time)
    requires s == Precondition || s == Verify
    requires FinishedRuns(cfg, pods, s, now) && k <= |pods| && now <= later
    requires !spec.applied
    ensures var first := Observe(cfg, st, spec, run, pods, now);
            var again := Observe(cfg, first.status, spec, run', pods[k..], later);
            && (again.plan.dirty <==> again.status != first.status)
            && (again.status != first.status <==>
                  exists i :: k <= i < |pods|
                    && Reopens(cfg, Machine.ApplySpec(st, spec, now).status, Results(cfg, pods, now), i))
  {
    var first, rs := Observe(cfg, st, spec, run, pods, now).status, Results(cfg, pods, now);
    ObserveRecords(cfg, st, spec, run, pods, s, now);
    RestResults(cfg, pods, s, k, now, later);
    ObserveRecords(cfg, first, spec, run', pods[k..], s, later);
    DecisionsSettle(cfg, st, spec, rs, s, now, later);
    RecordRestAgainExactly(cfg, Machine.ApplySpec(st, spec, now).status, s, rs, k, now, later);
  }

  /** So for a status that has its window while Verifying, as every stored one does, a replay changes nothing, whatever the settle window. */
  lemma ReplayChangesNothing(cfg: Config, st: Status, spec: Spec, run: Time, run': Time,
                             pods: seq<Pod>, s: Script, k: nat, now: Time, later: Time)
    requires Lifecycle.Windowed(st) && (s == Precondition || s == Verify)
    requires FinishedRuns(cfg, pods, s, now) && k <= |pods| && now <= later
    requires !spec.applied
    ensures var first := Observe(cfg, st, spec, run, pods, now);
            var again := Observe(cfg, first.status, spec, run', pods[k..], later);
            again.status == first.status && !again.plan.dirty
  {
    ReplayExactly(cfg, st, spec, run, run', pods, s, k, now, later);
  }

  // ----- which settle windows a status without its window needs -----

  /** Some pod, observed twice by an incident that is Verifying without a window, changes its status twice. */
  ghost predicate SomeReplayMoves(cfg: Config) {
    exists st: Status, pod: Pod, now: Time, later: Time ::
      && ValidStatus(st) && Sane(pod) && FinishedRuns(cfg, [pod], Verify, now) && now <= later
      && var first := Observe(cfg, st, Spec(false, false), ZERO, [pod], now);
         Observe(cfg, first.status, Spec(false, false), ZERO, [pod], later).status != first.status
  }

  /** A run with an exit ended on a whole second, or a whole second and the timeout later. */
  lemma {:induction false} EndOfSaneContainers(pod: Pod, r: RunResult, cs: seq<Container>)
    requires Sane(pod) && forall c :: c in cs ==> c in pod.containers
    ensures var at := ReadContainers(pod.reason, r, cs).at;
            at == r.at || WholeSecond(at)
    decreases cs
  {
    if cs != [] {
      assert cs[0] in pod.containers;
      EndOfSaneContainers(pod, ReadContainer(pod.reason, r, cs[0]), cs[1..]);
    }
  }

  lemma FractionOfRun(cfg: Config, pod: Pod, now: Time)
    requires Sane(pod) && ResultOf(pod, cfg.checkTimeout, now).done
    ensures var r := ResultOf(pod, cfg.checkTimeout, now).result;
            r.exit.Some? ==> r.at - Rfc3339Copy(r.at) <= cfg.checkTimeout % SECOND
  {
    ExitExactly(pod, cfg.checkTimeout, now);
    if Finished(pod.phase) && pod.reason != DEADLINE_EXCEEDED {
      var at := if pod.startTime.Some? then pod.startTime.value + cfg.checkTimeout else Overdue(pod, cfg.checkTimeout);
      EndOfSaneContainers(pod, RunResult(pod.script, None, at, []), pod.containers);
    }
  }

  const WINDOWLESS := BLANK.(state := Verifying, howToFix := Some(HowToFix("p", "a", "v")))

  /** A pod whose check exited 1, the kubelet not saying when. */
  const UNDATED := Pod(
    CheckPodName("u", Verify, 0), Verify, 100 * SECOND, false, Failed, "", Some(100 * SECOND),
    [Container(CONTAINER_NAME, Some(Terminated(1, ZERO, [])))])

  lemma UndatedResult(cfg: Config, now: Time)
    ensures Sane(UNDATED)
    ensures ResultOf(UNDATED, cfg.checkTimeout, now)
            == Outcome(RunResult(Verify, Some(1), 100 * SECOND + cfg.checkTimeout, []), true)
  {
    assert |DEADLINE_EXCEEDED| > |UNDATED.reason|;
    EndOfRun(UNDATED, cfg.checkTimeout, now, 0);
    assert GivesExit(UNDATED.containers[0]);
    ExitExactly(UNDATED, cfg.checkTimeout, now);
  }

  /**
    An incident that is Verifying without a window, which no controller here stores, is moved by a replay
    exactly for settle windows within the fraction of a second of the timeout: a whole-second timeout and
    a positive settle window rule it out.
   */
  lemma ReplayNeedsExactly(cfg: Config)
    ensures SomeReplayMoves(cfg) <==> cfg.settleWindow <= cfg.checkTimeout % SECOND
  {
    if cfg.settleWindow <= cfg.checkTimeout % SECOND {
      UndatedResult(cfg, ZERO);
      ReplayExactly(cfg, WINDOWLESS, Spec(false, false), ZERO, ZERO, [UNDATED], Verify, 0, ZERO, ZERO);
      assert [UNDATED][0..] == [UNDATED];
      assert Reopens(cfg, WINDOWLESS, Results(cfg, [UNDATED], ZERO), 0);
      assert FinishedRuns(cfg, [UNDATED], Verify, ZERO) && ValidStatus(WINDOWLESS);
    }
    if SomeReplayMoves(cfg) {
      var st, pod, now, later :|
        && ValidStatus(st) && Sane(pod) && FinishedRuns(cfg, [pod], Verify, now) && now <= later
        && var first := Observe(cfg, st, Spec(false, false), ZERO, [pod], now);
           Observe(cfg, first.status, Spec(false, false), ZERO, [pod], later).status != first.status;
      assert [pod][0].script == Verify && [pod][0..] == [pod];
      ReplayExactly(cfg, st, Spec(false, false), ZERO, ZERO, [pod], Verify, 0, now, later);
      FractionOfRun(cfg, pod, now);
    }
  }
}
