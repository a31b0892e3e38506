/**
  Everything that can happen to an Incident's status, one event at a time, and what holds over every
  sequence of events: the validation rules and the settle window.
 */
module Lifecycle {
  import opened Options
  import opened Clock
  import opened Incidents
  import Machine
  import Output

  /**
    Decide is applySpec, Check is record of a run of the current script, ApplyRun is recordApply.
    Analyze and Analyzed are the writer's: the first status write or a reanalysis, and its end.
   */
  datatype Event =
    | Decide(spec: Spec, now: Time)
    | Check(result: RunResult, now: Time)
    | ApplyRun(result: RunResult)
    | Analyze
    | Analyzed(fix: Option<HowToFix>)

  predicate Enabled(st: Status, e: Event) {
    match e
    case Decide(_, _) => true
    case Check(r, _) => r.script != NoScript && r.script == Machine.CurrentScript(st) && ValidExit(r.exit)
    case ApplyRun(r) => r.script == Apply && ValidExit(r.exit)
    case Analyze => st.state == Unset || st.state == Open || st.state == Verifying
    case Analyzed(_) => st.state == Analyzing
  }

  function Step(cfg: Config, st: Status, e: Event): Status {
    match e
    case Decide(spec, now) => Machine.ApplySpec(st, spec, now).status
    case Check(r, now) => Machine.Record(st, cfg, r, now).status
    case ApplyRun(r) => Machine.RecordApply(st, r).status
    case Analyze => BLANK.(state := Analyzing)
    case Analyzed(fix) => st.(state := Open, howToFix := fix)
  }

  function Butlast<T>(s: seq<T>): seq<T>
    requires s != []
  {
    s[..|s| - 1]
  }

  function Last<T>(s: seq<T>): T
    requires s != []
  {
    s[|s| - 1]
  }

  function Run(cfg: Config, st: Status, es: seq<Event>): Status {
    if es == [] then st else Step(cfg, Run(cfg, st, Butlast(es)), Last(es))
  }

  predicate Legal(cfg: Config, st: Status, es: seq<Event>) {
    es == [] || (Legal(cfg, st, Butlast(es)) && Enabled(Run(cfg, st, Butlast(es)), Last(es)))
  }

  lemma {:induction false} RunConcat(cfg: Config, st: Status, a: seq<Event>, b: seq<Event>)
    ensures Run(cfg, st, a + b) == Run(cfg, Run(cfg, st, a), b)
    ensures Legal(cfg, st, a + b) <==> Legal(cfg, st, a) && Legal(cfg, Run(cfg, st, a), b)
  {
    if b == [] {
      assert a + b == a;
    } else {
      RunConcat(cfg, st, a, Butlast(b));
      assert Butlast(a + b) == a + Butlast(b);
    }
  }

  // ----- the validation rules over whole runs -----

  lemma WithSlotValid(lc: LastChecks, s: Script, c: LastCheck)
    requires ValidLastChecks(Some(lc)) && ValidLastCheck(Some(c))
    ensures ValidLastChecks(Some(WithSlot(lc, s, Some(c))))
  {
  }

  lemma WithLastCheckValid(st: Status, s: Script, exit: Option<int>, output: seq<Output.byte>, at: Time)
    requires ValidLastChecks(st.lastChecks)
    requires ValidExit(exit)
    ensures ValidLastChecks(Machine.WithLastCheck(st, s, exit, output, at).lastChecks)
  {
    Output.KeptIsBounded(exit, output);
    var lc := if st.lastChecks.None? then LastChecks(None, None, None) else st.lastChecks.value;
    WithSlotValid(lc, s, LastCheck(exit, Rfc3339Copy(at), if s == Apply then [] else Output.Kept(exit, output)));
  }

  lemma SlotsStayValid(st: Status, to: State, at: Time)
    requires ValidLastChecks(st.lastChecks)
    ensures ValidLastChecks(Machine.SetState(st, to, at).lastChecks)
    ensures ValidLastChecks(Machine.EnterVerifying(st, at).lastChecks)
  {
  }

  lemma DecideValid(st: Status, spec: Spec, now: Time)
    requires ValidStatus(st)
    ensures ValidStatus(Machine.ApplySpec(st, spec, now).status)
  {
    var seen := Machine.WithLastCheck(st, Apply, None, [], now);
    WithLastCheckValid(st, Apply, None, [], now);
    SlotsStayValid(seen, Verifying, now);
    SlotsStayValid(st, Closed, now);
  }

  lemma PreconditionValid(st: Status, cfg: Config, r: RunResult, now: Time)
    requires ValidStatus(st) && Enabled(st, Check(r, now)) && r.script == Precondition
    ensures ValidStatus(Machine.Record(st, cfg, r, now).status)
  {
    WithLastCheckValid(st, Precondition, r.exit, r.output, r.at);
    SlotsStayValid(Machine.WithLastCheck(st, Precondition, r.exit, r.output, r.at), Verifying, r.at);
  }

  lemma VerifyValid(st: Status, cfg: Config, r: RunResult, now: Time)
    requires ValidStatus(st) && Enabled(st, Check(r, now)) && r.script == Verify
    ensures ValidStatus(Machine.Record(st, cfg, r, now).status)
  {
    var seen := Machine.WithLastCheck(st, Verify, r.exit, r.output, r.at);
    WithLastCheckValid(st, Verify, r.exit, r.output, r.at);
    SlotsStayValid(seen, Open, r.at);
    SlotsStayValid(seen.(resolution := Some(Resolution(ByVerify, Rfc3339Copy(r.at)))), Resolved, r.at);
  }

  lemma RecordApplyValid(st: Status, r: RunResult)
    requires ValidStatus(st) && Enabled(st, ApplyRun(r))
    ensures ValidStatus(Machine.RecordApply(st, r).status)
  {
    var seen := Machine.WithLastCheck(st, Apply, r.exit, [], r.at);
    WithLastCheckValid(st, Apply, r.exit, [], r.at);
    SlotsStayValid(seen, Verifying, r.at);
  }

  /** One event keeps every validation rule, and moves a status that is over at most to Closed. */
  lemma StepValid(cfg: Config, st: Status, e: Event)
    requires ValidStatus(st) && Enabled(st, e)
    ensures ValidStatus(Step(cfg, st, e)) && TransitionAllowed(st, Step(cfg, st, e))
  {
    match e
    case Decide(spec, now) => DecideValid(st, spec, now);
    case Check(r, now) =>
      if r.script == Precondition {
        PreconditionValid(st, cfg, r, now);
      } else {
        VerifyValid(st, cfg, r, now);
      }
    case ApplyRun(r) => RecordApplyValid(st, r);
    case Analyze =>
    case Analyzed(_) =>
  }

  /** Over any run of events every status is valid, Resolved only becomes Closed, and Closed is final. */
  lemma {:induction false} RunValid(cfg: Config, st: Status, es: seq<Event>)
    requires ValidStatus(st) && Legal(cfg, st, es)
    ensures ValidStatus(Run(cfg, st, es)) && TransitionAllowed(st, Run(cfg, st, es))
  {
    if es != [] {
      RunValid(cfg, st, Butlast(es));
      StepValid(cfg, Run(cfg, st, Butlast(es)), Last(es));
    }
  }

  // ----- announcements -----

  /** changes announces the step from st to next: one change of state, or the flag, and nothing else. */
  predicate Announced(st: Status, next: Status, changes: seq<Machine.Change>) {
    if st.state != next.state then
      |changes| == 1 && changes[0].StateChanged? && changes[0].from == st.state && changes[0].to == next.state
    else changes == if !st.reproduced.Passed? && next.reproduced.Passed? then [Machine.IncidentFlagged] else []
  }

  lemma RecordAnnounced(cfg: Config, st: Status, r: RunResult, now: Time)
    requires Enabled(st, Check(r, now))
    ensures Announced(st, Machine.Record(st, cfg, r, now).status, Machine.Record(st, cfg, r, now).changes)
  {
  }

  /** Every transition is announced exactly once, and nothing is announced without one. */
  lemma MovesAreAnnounced(cfg: Config, st: Status, spec: Spec, r: RunResult, now: Time)
    ensures Announced(st, Machine.ApplySpec(st, spec, now).status, Machine.ApplySpec(st, spec, now).changes)
    ensures Enabled(st, Check(r, now)) ==>
              Announced(st, Machine.Record(st, cfg, r, now).status, Machine.Record(st, cfg, r, now).changes)
    ensures Announced(st, Machine.RecordApply(st, r).status, Machine.RecordApply(st, r).changes)
  {
    if Enabled(st, Check(r, now)) {
      RecordAnnounced(cfg, st, r, now);
    }
  }

  // ----- the settle window -----

  predicate Windowed(st: Status) {
    st.state == Verifying <==> st.verifyingSince.Some?
  }

  /** The instant at which e, taken in st, starts or restarts the settle window. */
  function WindowStart(st: Status, e: Event): Option<Time> {
    match e
    case Decide(spec, now) =>
      if spec.applied && !spec.closed && (st.state == Open || st.state == Verifying) then Some(now) else None
    case Check(r, _) =>
      if r.script == Precondition && r.exit == Some(0) && Machine.HasVerdict(st) then Some(r.at)
      else if r.script == Verify && r.exit == Some(1) && st.verifyingSince.None? then Some(r.at)
      else None
    case ApplyRun(r) =>
      if r.exit != Some(0) then None
      else if st.state == Open then Some(r.at)
      else if st.state == Verifying && (st.verifyingSince.None? || st.verifyingSince.value < Rfc3339Copy(r.at))
      then Some(r.at)
      else None
    case _ => None
  }

  /** The instant of the last event of es that started or restarted the settle window. */
  function LastWindowStart(cfg: Config, st: Status, es: seq<Event>): Option<Time> {
    if es == [] then None
    else
      var started := WindowStart(Run(cfg, st, Butlast(es)), Last(es));
      if started.Some? then started else LastWindowStart(cfg, st, Butlast(es))
  }

  lemma WindowStep(cfg: Config, st: Status, e: Event)
    requires Enabled(st, e) && Windowed(st)
    ensures var next := Step(cfg, st, e);
            && Windowed(next)
            && (WindowStart(st, e).Some? ==>
                  next.state == Verifying && next.verifyingSince == Some(Rfc3339Copy(WindowStart(st, e).value)))
            && (WindowStart(st, e).None? && next.state == Verifying ==> next.verifyingSince == st.verifyingSince)
  {
  }

  lemma {:induction false} RunWindowed(cfg: Config, st: Status, es: seq<Event>)
    requires Windowed(st) && Legal(cfg, st, es)
    ensures Windowed(Run(cfg, st, es))
  {
    if es != [] {
      RunWindowed(cfg, st, Butlast(es));
      WindowStep(cfg, Run(cfg, st, Butlast(es)), Last(es));
    }
  }

  /** verifyingSince is set exactly while Verifying, to the whole second of the last start of the window. */
  lemma {:induction false} WindowIsLastStart(cfg: Config, es: seq<Event>)
    requires Legal(cfg, BLANK, es)
    ensures var st := Run(cfg, BLANK, es);
            if st.state == Verifying
            then LastWindowStart(cfg, BLANK, es).Some?
                 && st.verifyingSince == Some(Rfc3339Copy(LastWindowStart(cfg, BLANK, es).value))
            else st.verifyingSince == None
  {
    if es != [] {
      WindowIsLastStart(cfg, Butlast(es));
      WindowStep(cfg, Run(cfg, BLANK, Butlast(es)), Last(es));
    }
  }

  /** A Verifying incident moves back to Open on a verify exit 1 at or past the end of the window, and on nothing else. */
  lemma BackToOpenExactly(cfg: Config, st: Status, e: Event)
    requires st.state == Verifying && Enabled(st, e)
    ensures Step(cfg, st, e).state == Open <==>
              && e.Check? && e.result.exit == Some(1)
              && st.verifyingSince.Some? && e.result.at - st.verifyingSince.value >= cfg.settleWindow
  {
  }

  /**
    Settle-window safety over whole runs: the verify run that moves an incident back to Open ended at
    least the settle window after the stored start, so less than a second short of it after the
    instant of the last entry or re-apply.
   */
  lemma SettleWindowSafety(cfg: Config, es: seq<Event>, e: Event)
    requires Legal(cfg, BLANK, es + [e])
    requires Run(cfg, BLANK, es).state == Verifying && Step(cfg, Run(cfg, BLANK, es), e).state == Open
    ensures e.Check? && e.result.script == Verify && e.result.exit == Some(1)
    ensures LastWindowStart(cfg, BLANK, es).Some?
    ensures Run(cfg, BLANK, es).verifyingSince.Some?
    ensures e.result.at >= Run(cfg, BLANK, es).verifyingSince.value + cfg.settleWindow
    ensures e.result.at > LastWindowStart(cfg, BLANK, es).value + cfg.settleWindow - SECOND
  {
    RunConcat(cfg, BLANK, es, [e]);
    assert Butlast([e]) == [];
    WindowIsLastStart(cfg, es);
  }

  /** An unknown result, of a check or an apply run, moves nothing but its own lastChecks entry. */
  lemma UnknownMovesNothing(cfg: Config, st: Status, e: Event)
    requires Enabled(st, e)
    requires (e.Check? && !Output.Known(e.result.exit)) || (e.ApplyRun? && e.result.exit != Some(0))
    ensures Step(cfg, st, e) == st.(lastChecks := Step(cfg, st, e).lastChecks)
    ensures forall s :: s != e.result.script && s != NoScript
              ==> ResultOfScript(Step(cfg, st, e), s) == ResultOfScript(st, s)
  {
  }

  /** Within a stay in Verifying the window moves back only when a human applies at an instant before its start. */
  lemma WindowMovesBackExactly(cfg: Config, st: Status, e: Event)
    requires st.state == Verifying && st.verifyingSince.Some? && Enabled(st, e)
    requires Step(cfg, st, e).state == Verifying
    ensures Step(cfg, st, e).verifyingSince.Some?
    ensures Step(cfg, st, e).verifyingSince.value < st.verifyingSince.value <==>
              && e.Decide? && e.spec.applied && !e.spec.closed && Rfc3339Copy(e.now) < st.verifyingSince.value
  {
  }
}
