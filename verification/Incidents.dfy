/** The Incident resource: its spec, its status, and the rules the API server validates a status against. */
module Incidents {
  import opened Options
  import opened Clock
  import Output

  datatype State = Unset | Analyzing | Open | Verifying | Resolved | Closed

  /** NoScript is the empty script name. */
  datatype Script = NoScript | Precondition | Apply | Verify

  datatype ResolvedBy = ByVerify | ByUser

  datatype Resolution = Resolution(resolver: ResolvedBy, at: Time)

  /** The latest result of a script. exit is None for a run that gave no exit code. */
  datatype LastCheck = LastCheck(exit: Option<int>, since: Time, output: seq<Output.byte>)

  datatype LastChecks = LastChecks(
    precondition: Option<LastCheck>, apply: Option<LastCheck>, verify: Option<LastCheck>)

  datatype HowToFix = HowToFix(precondition: string, apply: string, verify: string)

  /** The Reproduced condition: absent until the first precondition verdict, then True or False. */
  datatype Reproduced = NoVerdict | Holds(at: Time) | Passed(at: Time)

  datatype Spec = Spec(applied: bool, closed: bool)

  datatype Status = Status(
    state: State,
    howToFix: Option<HowToFix>,
    lastChecks: Option<LastChecks>,
    verifyingSince: Option<Time>,
    resolution: Option<Resolution>,
    reproduced: Reproduced)

  /** The check cadence and its limits. */
  datatype Config = Config(pollInterval: Duration, settleWindow: Duration, checkTimeout: Duration)

  /** One finished run of a script. */
  datatype RunResult = RunResult(script: Script, exit: Option<int>, at: Time, output: seq<Output.byte>)

  /** The status of an Incident nobody has written to. */
  const BLANK: Status := Status(Unset, None, None, None, None, NoVerdict)

  /** The lastChecks entry of s. The scripts that are neither precondition nor apply share verify's. */
  function Slot(lc: LastChecks, s: Script): Option<LastCheck> {
    match s
    case Precondition => lc.precondition
    case Apply => lc.apply
    case _ => lc.verify
  }

  function WithSlot(lc: LastChecks, s: Script, c: Option<LastCheck>): (r: LastChecks)
    ensures Slot(r, s) == c
    ensures forall t :: Slot(r, t) == c || Slot(r, t) == Slot(lc, t)
  {
    match s
    case Precondition => lc.(precondition := c)
    case Apply => lc.(apply := c)
    case _ => lc.(verify := c)
  }

  /** The recorded result of s, if there is one. */
  function ResultOfScript(st: Status, s: Script): Option<LastCheck> {
    match st.lastChecks
    case None => None
    case Some(lc) => Slot(lc, s)
  }

  /** Each script has its own field. */
  lemma OwnField(lc: LastChecks, s: Script, c: Option<LastCheck>)
    ensures Slot(lc, Precondition) == lc.precondition && Slot(lc, Apply) == lc.apply && Slot(lc, Verify) == lc.verify
    ensures WithSlot(lc, Precondition, c) == LastChecks(c, lc.apply, lc.verify)
    ensures WithSlot(lc, Apply, c) == LastChecks(lc.precondition, c, lc.verify)
    ensures WithSlot(lc, Verify, c) == LastChecks(lc.precondition, lc.apply, c)
  {
  }

  predicate Over(s: State) {
    s == Resolved || s == Closed
  }

  // ----- validation -----

  predicate ValidExit(exit: Option<int>) {
    exit.Some? ==> 0 <= exit.value <= 255
  }

  predicate ValidLastCheck(c: Option<LastCheck>) {
    c.Some? ==>
      && ValidExit(c.value.exit)
      && |c.value.output| <= Output.MAX_OUTPUT
      && (Output.Known(c.value.exit) ==> c.value.output == [])
      && WholeSecond(c.value.since)
  }

  predicate ValidLastChecks(lc: Option<LastChecks>) {
    lc.Some? ==> ValidLastCheck(lc.value.precondition) && ValidLastCheck(lc.value.apply) && ValidLastCheck(lc.value.verify)
  }

  /** resolution is set exactly when state is Resolved or Closed. */
  predicate ResolutionWithState(st: Status) {
    st.resolution.Some? <==> Over(st.state)
  }

  /** Resolved goes with by verify, Closed with by user. */
  predicate ResolutionByMatches(st: Status) {
    st.resolution.Some? ==> (st.resolution.value.resolver == ByVerify <==> st.state == Resolved)
  }

  /** Resolved can only become Closed, and Closed is final. */
  predicate TransitionAllowed(was: Status, st: Status) {
    Over(was.state) ==> st.state == was.state || st.state == Closed
  }

  /** The validation rules over one status, with what the field descriptions promise. */
  predicate ValidStatus(st: Status) {
    && ResolutionWithState(st)
    && ResolutionByMatches(st)
    && (st.verifyingSince.Some? ==> st.state == Verifying && WholeSecond(st.verifyingSince.value))
    && ValidLastChecks(st.lastChecks)
  }
}
