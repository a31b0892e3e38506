/** An apply run that is recorded on its incident a second time, whatever happened in between. */
module ApplyRuns {
  import opened Options
  import opened Clock
  import opened Incidents
  import opened Lifecycle
  import opened History
  import Machine

  /** The entry the recording of r leaves. */
  function Own(r: RunResult): LastCheck {
    LastCheck(r.exit, Rfc3339Copy(r.at), [])
  }

  /** r, which exited 0, moves an Open incident, and one whose window is missing or starts before r ended. */
  predicate Moves(st: Status, r: RunResult) {
    && r.exit == Some(0)
    && (|| st.state == Open
        || (st.state == Verifying && (st.verifyingSince.None? || st.verifyingSince.value < Rfc3339Copy(r.at))))
  }

  /** When a recording of r changes an incident: it replaces another entry, or moves it. */
  lemma RecordingChanges(st: Status, r: RunResult)
    ensures Machine.RecordApply(st, r).status != st <==>
              && (st.state == Open || st.state == Verifying)
              && (ResultOfScript(st, Apply) != Some(Own(r)) || Moves(st, r))
    ensures Machine.RecordApply(st, r).status == st ==> Machine.RecordApply(st, r).changes == []
  {
  }

  /**
    Exactly when a second recording of the same apply run changes the incident, after any events at all:
    the incident is Open or Verifying, and the latest apply since is another one (a person's, another
    request's, none since a reanalysis) or the run exited 0 and the incident is Open, or in a window that is
    missing or starts before the run ended.
   */
  lemma RecordAgainExactly(cfg: Config, st: Status, r: RunResult, es: seq<Event>)
    requires st.state == Open || st.state == Verifying
    requires Legal(cfg, Machine.RecordApply(st, r).status, es)
    ensures var once := Machine.RecordApply(st, r).status;
            var later := Run(cfg, once, es);
            Machine.RecordApply(later, r).status != later <==>
              && (later.state == Open || later.state == Verifying)
              && (LatestApply(cfg, once, es) != Some(Own(r)) || Moves(later, r))
  {
    var once := Machine.RecordApply(st, r).status;
    ApplyFromHistory(cfg, once, es);
    RecordingChanges(Run(cfg, once, es), r);
  }

  // ----- no other apply in between -----

  /** No event of es records an apply, and none starts a reanalysis. */
  predicate NoApply(cfg: Config, st: Status, es: seq<Event>) {
    es != [] ==>
      && NoApply(cfg, st, Butlast(es))
      && !Last(es).Analyze? && ApplyOf(Run(cfg, st, Butlast(es)), Last(es)) == None
  }

  predicate AllChecks(es: seq<Event>) {
    forall i :: 0 <= i < |es| ==> es[i].Check?
  }

  /** Check results record no apply. */
  lemma {:induction false} ChecksAreNoApply(cfg: Config, st: Status, es: seq<Event>)
    requires AllChecks(es)
    ensures NoApply(cfg, st, es)
  {
    if es != [] {
      ChecksAreNoApply(cfg, st, Butlast(es));
    }
  }

  /** Whether some event of es moved the incident from Verifying back to Open. */
  predicate WentBackToOpen(cfg: Config, st: Status, es: seq<Event>) {
    es != [] &&
      (|| WentBackToOpen(cfg, st, Butlast(es))
       || (Run(cfg, st, Butlast(es)).state == Verifying && Run(cfg, st, es).state == Open))
  }

  /** r is the recorded apply run of an incident past its analysis. */
  predicate HasApply(st: Status, r: RunResult) {
    ResultOfScript(st, Apply) == Some(Own(r)) && st.state != Unset && st.state != Analyzing
  }

  /** The incident is not Open, and its window does not start before r ended. */
  predicate MovedBy(st: Status, r: RunResult) {
    && st.state != Open
    && (st.state == Verifying ==> st.verifyingSince.Some? && st.verifyingSince.value >= Rfc3339Copy(r.at))
  }

  lemma OneKeepsApply(cfg: Config, st: Status, r: RunResult, e: Event)
    requires Enabled(st, e) && HasApply(st, r) && !e.Analyze? && ApplyOf(st, e) == None
    ensures HasApply(Step(cfg, st, e), r)
    ensures MovedBy(st, r) && (st.state == Verifying ==> Step(cfg, st, e).state != Open) ==> MovedBy(Step(cfg, st, e), r)
  {
    ApplyStep(cfg, st, e);
  }

  /** What events without an apply leave of a recorded run. */
  lemma {:induction false} AllKeepApply(cfg: Config, st: Status, r: RunResult, es: seq<Event>)
    requires NoApply(cfg, st, es) && Legal(cfg, st, es) && HasApply(st, r)
    ensures HasApply(Run(cfg, st, es), r)
    ensures MovedBy(st, r) && !WentBackToOpen(cfg, st, es) ==> MovedBy(Run(cfg, st, es), r)
  {
    if es != [] {
      AllKeepApply(cfg, st, r, Butlast(es));
      OneKeepsApply(cfg, Run(cfg, st, Butlast(es)), r, Last(es));
    }
  }

  /**
    With no other apply and no reanalysis in between, a second recording changes nothing, unless the run
    exited 0 and the incident went back to Open.
   */
  lemma RecordedOnce(cfg: Config, st: Status, r: RunResult, es: seq<Event>)
    requires st.state == Open || st.state == Verifying
    requires Legal(cfg, Machine.RecordApply(st, r).status, es) && NoApply(cfg, Machine.RecordApply(st, r).status, es)
    requires r.exit == Some(0) ==> !WentBackToOpen(cfg, Machine.RecordApply(st, r).status, es)
    ensures var later := Run(cfg, Machine.RecordApply(st, r).status, es);
            Machine.RecordApply(later, r) == Machine.Recorded(later, [])
  {
    var once := Machine.RecordApply(st, r).status;
    AllKeepApply(cfg, once, r, es);
    RecordingChanges(Run(cfg, once, es), r);
  }

  /** After check results alone only a run that exited 0 changes it again, exactly when it moves the incident it finds. */
  lemma RecordAgainAfterChecks(cfg: Config, st: Status, r: RunResult, es: seq<Event>)
    requires st.state == Open || st.state == Verifying
    requires AllChecks(es) && Legal(cfg, Machine.RecordApply(st, r).status, es)
    ensures var later := Run(cfg, Machine.RecordApply(st, r).status, es);
            Machine.RecordApply(later, r).status != later <==> Moves(later, r)
  {
    var once := Machine.RecordApply(st, r).status;
    ChecksAreNoApply(cfg, once, es);
    AllKeepApply(cfg, once, r, es);
    RecordingChanges(Run(cfg, once, es), r);
  }

  // ----- the exceptions happen -----

  const CFG := Config(MINUTE, MINUTE, MINUTE)
  const FIXABLE := BLANK.(state := Open, howToFix := Some(HowToFix("p", "a", "v")))

  lemma RunOne(st: Status, e: Event)
    ensures Run(CFG, st, [e]) == Step(CFG, st, e) && (Legal(CFG, st, [e]) <==> Enabled(st, e))
    ensures WentBackToOpen(CFG, st, [e]) <==> st.state == Verifying && Step(CFG, st, e).state == Open
  {
    assert Butlast([e]) == [] && Last([e]) == e;
  }

  /** A verify exit 1 after the window, and the same run moves the incident again. */
  lemma RecordedTwice()
    ensures exists cfg: Config, st: Status, r: RunResult, es: seq<Event> ::
              && ValidStatus(st) && st.state == Open && r.script == Apply && r.exit == Some(0)
              && AllChecks(es) && Legal(cfg, Machine.RecordApply(st, r).status, es)
              && Run(cfg, Machine.RecordApply(st, r).status, es).state == Open
              && Machine.RecordApply(Run(cfg, Machine.RecordApply(st, r).status, es), r).status.state == Verifying
  {
    var r := RunResult(Apply, Some(0), 100 * SECOND, []);
    var failed := Check(RunResult(Verify, Some(1), 200 * SECOND, []), 200 * SECOND);
    RunOne(Machine.RecordApply(FIXABLE, r).status, failed);
    assert AllChecks([failed]);
  }

  /**
    A person applies between the recordings of a run that failed: the second one replaces the person's newer
    entry with the run's older one, though nothing went back to Open and the window is newer than the run.
   */
  lemma PersonsApplyReplaced()
    ensures exists cfg: Config, st: Status, r: RunResult, es: seq<Event> ::
              var once := Machine.RecordApply(st, r).status;
              var later := Run(cfg, once, es);
              && ValidStatus(st) && st.state == Verifying && r.script == Apply && r.exit == Some(3)
              && Legal(cfg, once, es) && !WentBackToOpen(cfg, once, es)
              && later.verifyingSince.Some? && later.verifyingSince.value > Rfc3339Copy(r.at)
              && ResultOfScript(later, Apply) == Some(LastCheck(None, later.verifyingSince.value, []))
              && ResultOfScript(Machine.RecordApply(later, r).status, Apply) == Some(Own(r))
  {
    var st := FIXABLE.(state := Verifying, verifyingSince := Some(50 * SECOND));
    var r := RunResult(Apply, Some(3), 100 * SECOND, []);
    var once := Machine.RecordApply(st, r).status;
    RunOne(once, Decide(Spec(true, false), 200 * SECOND));
  }
}
