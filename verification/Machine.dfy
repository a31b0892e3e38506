/**
  The state machine of an Incident as functions from status to status. IncidentObject holds the
  methods that update an Incident in place and meet these functions.
 */
module Machine {
  import opened Options
  import opened Clock
  import opened Incidents
  import Output

  /** A change worth an event. */
  datatype Change = StateChanged(from: State, to: State, why: string) | IncidentFlagged

  datatype Applied = Applied(status: Status, changes: seq<Change>, consumed: bool)

  datatype Recorded = Recorded(status: Status, changes: seq<Change>)

  // ----- what a status says -----

  /** Whether the first precondition run exited 0. */
  predicate Flagged(st: Status) {
    st.reproduced.Passed?
  }

  /** Whether the first precondition run has a verdict. */
  predicate HasVerdict(st: Status) {
    !st.reproduced.NoVerdict?
  }

  /** The script the incident runs in its current state, or NoScript. */
  function CurrentScript(st: Status): Script {
    match st.howToFix
    case None => NoScript
    case Some(h) =>
      if st.state == Open && h.precondition != "" && !Flagged(st) then Precondition
      else if st.state == Verifying && h.verify != "" then Verify
      else NoScript
  }

  /** The source of a script; no other script than precondition and verify is a check. */
  function ScriptBody(st: Status, s: Script): string {
    match st.howToFix
    case None => ""
    case Some(h) =>
      match s
      case Precondition => h.precondition
      case Verify => h.verify
      case _ => ""
  }

  /** Which script is current: in Open an unflagged precondition, in Verifying a verify, if it has a source. */
  lemma CurrentScriptExactly(st: Status)
    ensures CurrentScript(st) == Precondition <==>
              st.state == Open && !st.reproduced.Passed? && st.howToFix.Some? && st.howToFix.value.precondition != ""
    ensures CurrentScript(st) == Verify <==> st.state == Verifying && st.howToFix.Some? && st.howToFix.value.verify != ""
    ensures CurrentScript(st) != Apply
    ensures CurrentScript(st) != NoScript ==> ScriptBody(st, CurrentScript(st)) != ""
  {
  }

  /** When the wait for the next check started. */
  function CheckFrom(st: Status, lastRun: Time): Time {
    if st.verifyingSince.Some? && st.verifyingSince.value > lastRun then st.verifyingSince.value else lastRun
  }

  /** When the next check may start. */
  function NextCheckAt(st: Status, lastRun: Time, poll: Duration): Time {
    var from := CheckFrom(st, lastRun);
    if from == ZERO then from else from + poll
  }

  predicate CheckDue(st: Status, cfg: Config, lastRun: Time, now: Time) {
    CurrentScript(st) != NoScript && now >= NextCheckAt(st, lastRun, cfg.pollInterval)
  }

  // ----- the transitions -----

  function WithLastCheck(st: Status, s: Script, exit: Option<int>, output: seq<Output.byte>, at: Time): Status {
    var lc := if st.lastChecks.None? then LastChecks(None, None, None) else st.lastChecks.value;
    var was := Slot(lc, s);
    if s != Apply && was.Some? && was.value.exit == exit then
      st.(lastChecks := Some(lc))
    else
      var kept := if s == Apply then [] else Output.Kept(exit, output);
      st.(lastChecks := Some(WithSlot(lc, s, Some(LastCheck(exit, Rfc3339Copy(at), kept)))))
  }

  function WithoutLastCheck(st: Status, s: Script): Status {
    if st.lastChecks.None? then st
    else st.(lastChecks := Some(WithSlot(st.lastChecks.value, s, None)))
  }

  function EnterVerifying(st: Status, at: Time): Status {
    WithoutLastCheck(st.(verifyingSince := Some(Rfc3339Copy(at))), Verify)
  }

  function SetState(st: Status, to: State, at: Time): Status {
    var moved := st.(state := to);
    match to
    case Verifying => EnterVerifying(moved, at)
    case Open => WithoutLastCheck(moved, Precondition).(verifyingSince := None)
    case _ => moved.(verifyingSince := None)
  }

  /** The human decisions in spec, applied to the status. */
  function ApplySpec(st: Status, spec: Spec, now: Time): Applied {
    if spec.closed then
      if st.state == Closed then Applied(st, [], false)
      else
        var closed := SetState(st, Closed, now).(resolution := Some(Resolution(ByUser, Rfc3339Copy(now))));
        Applied(closed, [StateChanged(st.state, Closed, "spec.closed")], false)
    else if !spec.applied then Applied(st, [], false)
    else if st.state == Open then
      var applied := SetState(WithLastCheck(st, Apply, None, [], now), Verifying, now);
      Applied(applied, [StateChanged(Open, Verifying, "spec.applied")], true)
    else if st.state == Verifying then
      Applied(EnterVerifying(WithLastCheck(st, Apply, None, [], now), now), [], true)
    else Applied(st, [], false)
  }

  /** A finished run of the current script, recorded with the transition it causes. */
  function Record(st: Status, cfg: Config, r: RunResult, now: Time): Recorded {
    var seen := WithLastCheck(st, r.script, r.exit, r.output, r.at);
    if !Output.Known(r.exit) then Recorded(seen, [])
    else
      var holds := r.exit == Some(1);
      match r.script
      case Precondition =>
        if !HasVerdict(seen) then
          if holds then Recorded(seen.(reproduced := Holds(Rfc3339Copy(now))), [])
          else Recorded(seen.(reproduced := Passed(Rfc3339Copy(now))), [IncidentFlagged])
        else if !holds then
          Recorded(SetState(seen, Verifying, r.at), [StateChanged(seen.state, Verifying, "precondition exited 0")])
        else Recorded(seen, [])
      case Verify =>
        if !holds then
          var resolved := seen.(resolution := Some(Resolution(ByVerify, Rfc3339Copy(r.at))));
          Recorded(SetState(resolved, Resolved, r.at), [StateChanged(seen.state, Resolved, "verify exited 0")])
        else (
          match seen.verifyingSince
          case None => Recorded(seen.(verifyingSince := Some(Rfc3339Copy(r.at))), [])
          case Some(v) =>
            if r.at - v >= cfg.settleWindow then
              Recorded(SetState(seen, Open, r.at),
                       [StateChanged(seen.state, Open, "verify exited 1 after the settle window")])
            else Recorded(seen, [])
        )
      case _ => Recorded(seen, [])
  }

  /** A finished IncidentApply run, recorded on its incident. */
  function RecordApply(st: Status, r: RunResult): Recorded {
    if st.state != Open && st.state != Verifying then Recorded(st, [])
    else
      var seen := WithLastCheck(st, Apply, r.exit, [], r.at);
      if r.exit != Some(0) then Recorded(seen, [])
      else if st.state == Open then
        Recorded(SetState(seen, Verifying, r.at), [StateChanged(Open, Verifying, "apply exited 0")])
      else if seen.verifyingSince.None? || seen.verifyingSince.value < Rfc3339Copy(r.at) then
        Recorded(EnterVerifying(seen, r.at), [])
      else Recorded(seen, [])
  }
}
