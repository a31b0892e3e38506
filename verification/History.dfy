/**
  The incremental fields of a status, lastChecks and the Reproduced condition, as functions of the
  whole history of events.
 */
module History {
  import opened Options
  import opened Clock
  import opened Incidents
  import opened Lifecycle
  import Machine
  import Output

  // ----- lastChecks of precondition and verify -----

  /** Whether e, taken in st, drops the result of s: it describes a state that has moved on. */
  predicate Drops(cfg: Config, st: Status, e: Event, s: Script) {
    || e.Analyze?
    || (s == Precondition && st.state == Verifying && Step(cfg, st, e).state == Open)
    || (s == Verify && WindowStart(st, e).Some?)
  }

  /** The runs of s recorded by es since its result was last dropped, oldest first. */
  function RunsOf(cfg: Config, es: seq<Event>, s: Script): seq<RunResult> {
    if es == [] then []
    else
      var was, e := Run(cfg, BLANK, Butlast(es)), Last(es);
      if Drops(cfg, was, e, s) then []
      else if e.Check? && e.result.script == s then RunsOf(cfg, Butlast(es), s) + [e.result]
      else RunsOf(cfg, Butlast(es), s)
  }

  /** The first run of the trailing block of runs that gave the same exit. */
  function BlockStart(rs: seq<RunResult>): (b: nat)
    requires rs != []
    ensures b < |rs|
    ensures forall i :: b <= i < |rs| ==> rs[i].exit == rs[|rs| - 1].exit
    ensures b > 0 ==> rs[b - 1].exit != rs[b].exit
  {
    if |rs| == 1 || rs[|rs| - 2].exit != rs[|rs| - 1].exit then |rs| - 1 else BlockStart(Butlast(rs))
  }

  /** The result a history of runs leaves: the last exit, with the time and output of the run that started giving it. */
  function Latest(rs: seq<RunResult>): Option<LastCheck> {
    if rs == [] then None
    else
      var first := rs[BlockStart(rs)];
      Some(LastCheck(Last(rs).exit, Rfc3339Copy(first.at), Output.Kept(first.exit, first.output)))
  }

  /** Recording one more run is one step of Latest. */
  lemma LatestSnoc(rs: seq<RunResult>, r: RunResult)
    ensures Latest(rs + [r]) ==
            if rs != [] && Last(rs).exit == r.exit then Latest(rs)
            else Some(LastCheck(r.exit, Rfc3339Copy(r.at), Output.Kept(r.exit, r.output)))
  {
    assert Butlast(rs + [r]) == rs;
    if rs != [] && Last(rs).exit == r.exit {
      assert BlockStart(rs + [r]) == BlockStart(rs);
      assert (rs + [r])[BlockStart(rs)] == rs[BlockStart(rs)];
    }
  }

  /** What the entry of s is after one event: dropped, recorded, or as it was. */
  predicate EntryAfter(cfg: Config, st: Status, e: Event, s: Script) {
    ResultOfScript(Step(cfg, st, e), s) ==
      if Drops(cfg, st, e, s) then None
      else if e.Check? && e.result.script == s
      then ResultOfScript(Machine.WithLastCheck(st, s, e.result.exit, e.result.output, e.result.at), s)
      else ResultOfScript(st, s)
  }

  lemma CheckSlotStep(cfg: Config, st: Status, e: Event, s: Script)
    requires (s == Precondition || s == Verify) && Enabled(st, e) && Windowed(st) && e.Check?
    ensures EntryAfter(cfg, st, e, s)
  {
  }

  lemma OtherSlotStep(cfg: Config, st: Status, e: Event, s: Script)
    requires (s == Precondition || s == Verify) && Enabled(st, e) && Windowed(st) && !e.Check?
    ensures EntryAfter(cfg, st, e, s)
  {
  }

  /** After any history, the lastChecks entry of precondition and verify is the one the history of their runs leaves. */
  lemma {:induction false} LastChecksFromHistory(cfg: Config, es: seq<Event>, s: Script)
    requires Legal(cfg, BLANK, es) && (s == Precondition || s == Verify)
    ensures ResultOfScript(Run(cfg, BLANK, es), s) == Latest(RunsOf(cfg, es, s))
  {
    if es != [] {
      var was, e := Run(cfg, BLANK, Butlast(es)), Last(es);
      LastChecksFromHistory(cfg, Butlast(es), s);
      WindowIsLastStart(cfg, Butlast(es));
      if !e.Check? {
        OtherSlotStep(cfg, was, e, s);
      } else {
        CheckSlotStep(cfg, was, e, s);
        LatestSnoc(RunsOf(cfg, Butlast(es), s), e.result);
      }
    }
  }

  // ----- lastChecks of apply -----

  /** The result e records as an apply, if it records one in st. */
  function ApplyOf(st: Status, e: Event): Option<LastCheck> {
    if st.state != Open && st.state != Verifying then None
    else
      match e
      case Decide(spec, now) =>
        if spec.applied && !spec.closed then Some(LastCheck(None, Rfc3339Copy(now), [])) else None
      case ApplyRun(r) => Some(LastCheck(r.exit, Rfc3339Copy(r.at), []))
      case _ => None
  }

  /** The latest apply es records from st since the last analysis; what st holds, if es records none. */
  function LatestApply(cfg: Config, st: Status, es: seq<Event>): Option<LastCheck> {
    if es == [] then ResultOfScript(st, Apply)
    else if Last(es).Analyze? then None
    else
      var c := ApplyOf(Run(cfg, st, Butlast(es)), Last(es));
      if c.Some? then c else LatestApply(cfg, st, Butlast(es))
  }

  lemma ApplyStep(cfg: Config, st: Status, e: Event)
    requires Enabled(st, e)
    ensures ResultOfScript(Step(cfg, st, e), Apply) ==
            if e.Analyze? then None
            else if ApplyOf(st, e).Some? then ApplyOf(st, e)
            else ResultOfScript(st, Apply)
  {
  }

  /** After any history, the lastChecks entry of apply is the latest apply event. */
  lemma {:induction false} ApplyFromHistory(cfg: Config, st: Status, es: seq<Event>)
    requires Legal(cfg, st, es)
    ensures ResultOfScript(Run(cfg, st, es), Apply) == LatestApply(cfg, st, es)
  {
    if es != [] {
      ApplyFromHistory(cfg, st, Butlast(es));
      ApplyStep(cfg, Run(cfg, st, Butlast(es)), Last(es));
    }
  }

  // ----- the Reproduced condition -----

  /** The first precondition run of es with a verdict since the last analysis, and when it was recorded. */
  function FirstVerdict(es: seq<Event>): Option<(bool, Time)> {
    if es == [] || Last(es).Analyze? then None
    else
      var was, e := FirstVerdict(Butlast(es)), Last(es);
      if was.Some? then was
      else if e.Check? && e.result.script == Precondition && Output.Known(e.result.exit)
      then Some((e.result.exit == Some(1), Rfc3339Copy(e.now)))
      else None
  }

  lemma ReproducedStep(cfg: Config, st: Status, e: Event)
    requires Enabled(st, e)
    ensures Step(cfg, st, e).reproduced ==
            if e.Analyze? then NoVerdict
            else if e.Check? && e.result.script == Precondition && Output.Known(e.result.exit) && st.reproduced.NoVerdict?
            then (if e.result.exit == Some(1) then Holds(Rfc3339Copy(e.now)) else Passed(Rfc3339Copy(e.now)))
            else st.reproduced
  {
  }

  /** Between analyses Reproduced is written once: by the first precondition verdict. */
  lemma {:induction false} ReproducedFromHistory(cfg: Config, es: seq<Event>)
    requires Legal(cfg, BLANK, es)
    ensures Run(cfg, BLANK, es).reproduced ==
            match FirstVerdict(es)
            case None => NoVerdict
            case Some(v) => if v.0 then Holds(v.1) else Passed(v.1)
  {
    if es != [] {
      ReproducedFromHistory(cfg, Butlast(es));
      ReproducedStep(cfg, Run(cfg, BLANK, Butlast(es)), Last(es));
    }
  }

  /** Event i records a precondition run that exited 1, and no analysis comes after it. */
  predicate HeldFirst(es: seq<Event>, i: nat)
    requires i < |es|
  {
    && es[i].Check? && es[i].result.script == Precondition && es[i].result.exit == Some(1)
    && forall j :: i < j < |es| ==> !es[j].Analyze?
  }

  lemma {:induction false} FirstVerdictHeld(es: seq<Event>)
    requires FirstVerdict(es).Some? && FirstVerdict(es).value.0
    ensures exists i :: 0 <= i < |es| && HeldFirst(es, i)
  {
    if FirstVerdict(Butlast(es)).Some? {
      FirstVerdictHeld(Butlast(es));
      var i :| 0 <= i < |es| - 1 && HeldFirst(Butlast(es), i);
      assert HeldFirst(es, i);
    } else {
      assert HeldFirst(es, |es| - 1);
    }
  }

  /** A precondition exit 0 moves an incident to Verifying only after a recorded precondition exit 1. */
  lemma PreconditionMovesOnlyReproduced(cfg: Config, es: seq<Event>, e: Event)
    requires Legal(cfg, BLANK, es) && Enabled(Run(cfg, BLANK, es), e)
    requires e.Check? && e.result.script == Precondition
    requires Step(cfg, Run(cfg, BLANK, es), e).state == Verifying
    ensures e.result.exit == Some(0)
    ensures exists i :: 0 <= i < |es| && HeldFirst(es, i)
  {
    ReproducedFromHistory(cfg, es);
    FirstVerdictHeld(es);
  }

  /** A flagged Open incident runs no precondition, and only a human decision, an apply exit 0 or a reanalysis moves it. */
  lemma FlaggedWaitsForAHuman(cfg: Config, st: Status, e: Event)
    requires st.state == Open && st.reproduced.Passed? && Enabled(st, e)
    ensures Machine.CurrentScript(st) == NoScript && !e.Check?
    ensures Step(cfg, st, e).state != Open <==>
              || (e.Decide? && (e.spec.applied || e.spec.closed))
              || (e.ApplyRun? && e.result.exit == Some(0))
              || e.Analyze?
  {
  }

  // ----- the state and the resolution -----

  /** The state after one event, for every state and event. */
  lemma StateExactly(cfg: Config, st: Status, e: Event)
    requires Enabled(st, e) && Windowed(st)
    ensures Step(cfg, st, e).state ==
            match e
            case Decide(spec, _) =>
              if spec.closed then Closed else if spec.applied && st.state == Open then Verifying else st.state
            case Check(r, _) =>
              if r.script == Precondition && r.exit == Some(0) && (st.reproduced.Holds? || st.reproduced.Passed?) then Verifying
              else if r.script == Verify && r.exit == Some(0) then Resolved
              else if r.script == Verify && r.exit == Some(1) && r.at - st.verifyingSince.value >= cfg.settleWindow then Open
              else st.state
            case ApplyRun(r) => if r.exit == Some(0) && st.state == Open then Verifying else st.state
            case Analyze => Analyzing
            case Analyzed(_) => Open
    ensures !e.Analyze? && !e.Analyzed? ==> Step(cfg, st, e).howToFix == st.howToFix
  {
  }

  /** Who resolved or closed the incident in event e, and in which second: the run's end, or the decision's time. */
  function ResolvedBy(st: Status, e: Event): Option<Resolution> {
    match e
    case Decide(spec, now) =>
      if spec.closed && st.state != Closed then Some(Resolution(ByUser, Rfc3339Copy(now))) else None
    case Check(r, _) =>
      if r.script == Verify && r.exit == Some(0) then Some(Resolution(ByVerify, Rfc3339Copy(r.at))) else None
    case _ => None
  }

  /** The latest resolution of es. */
  function LatestResolution(cfg: Config, es: seq<Event>): Option<Resolution> {
    if es == [] then None
    else
      var c := ResolvedBy(Run(cfg, BLANK, Butlast(es)), Last(es));
      if c.Some? then c else LatestResolution(cfg, Butlast(es))
  }

  lemma ResolutionStep(cfg: Config, st: Status, e: Event)
    requires Enabled(st, e) && ValidStatus(st)
    ensures Step(cfg, st, e).resolution == if ResolvedBy(st, e).Some? then ResolvedBy(st, e) else st.resolution
  {
  }

  /** After any history the resolution is the latest one: a user's closing decision at its second, or a verify exit 0 at the second it ended. */
  lemma {:induction false} ResolutionFromHistory(cfg: Config, es: seq<Event>)
    requires Legal(cfg, BLANK, es)
    ensures Run(cfg, BLANK, es).resolution == LatestResolution(cfg, es)
  {
    if es != [] {
      ResolutionFromHistory(cfg, Butlast(es));
      RunValid(cfg, BLANK, Butlast(es));
      ResolutionStep(cfg, Run(cfg, BLANK, Butlast(es)), Last(es));
    }
  }
}
