/** The Incident a reconcile holds in memory, updated in place by the state machine. */
module IncidentObject {
  import opened Options
  import opened Clock
  import opened Incidents
  import Machine
  import Output

  class Incident {
    const uid: string
    var version: nat
    var applied: bool
    var closed: bool
    var state: State
    var howToFix: Option<HowToFix>
    var lastChecks: Option<LastChecks>
    var verifyingSince: Option<Time>
    var resolution: Option<Resolution>
    var reproduced: Reproduced

    constructor (uid: string, version: nat, spec: Spec, st: Status)
      ensures this.uid == uid && this.version == version && GetSpec() == spec && GetStatus() == st
    {
      this.uid, this.version := uid, version;
      applied, closed := spec.applied, spec.closed;
      state, howToFix, lastChecks := st.state, st.howToFix, st.lastChecks;
      verifyingSince, resolution, reproduced := st.verifyingSince, st.resolution, st.reproduced;
    }

    function GetSpec(): Spec
      reads this
    {
      Spec(applied, closed)
    }

    function GetStatus(): Status
      reads this
    {
      Status(state, howToFix, lastChecks, verifyingSince, resolution, reproduced)
    }

    method SetLastCheck(s: Script, exit: Option<int>, output: seq<Output.byte>, at: Time)
      modifies this`lastChecks
      ensures GetStatus() == Machine.WithLastCheck(old(GetStatus()), s, exit, output, at)
    {
      if lastChecks.None? {
        lastChecks := Some(LastChecks(None, None, None));
      }
      var was := Slot(lastChecks.value, s);
      if s != Apply && was.Some? && was.value.exit == exit {
        return;
      }
      var c := LastCheck(exit, Rfc3339Copy(at), []);
      if s != Apply {
        var kept := Output.OutputOf(exit, output);
        c := c.(output := kept);
      }
      lastChecks := Some(WithSlot(lastChecks.value, s, Some(c)));
    }

    method ClearLastCheck(s: Script)
      modifies this`lastChecks
      ensures GetStatus() == Machine.WithoutLastCheck(old(GetStatus()), s)
    {
      if lastChecks.Some? {
        lastChecks := Some(WithSlot(lastChecks.value, s, None));
      }
    }

    method EnterVerifying(at: Time)
      modifies this`lastChecks, this`verifyingSince
      ensures GetStatus() == Machine.EnterVerifying(old(GetStatus()), at)
    {
      verifyingSince := Some(Rfc3339Copy(at));
      ClearLastCheck(Verify);
    }

    method SetState(to: State, why: string, at: Time) returns (c: Machine.Change)
      modifies this`state, this`lastChecks, this`verifyingSince
      ensures GetStatus() == Machine.SetState(old(GetStatus()), to, at)
      ensures c == Machine.StateChanged(old(state), to, why)
    {
      c := Machine.StateChanged(state, to, why);
      state := to;
      if to == Verifying {
        EnterVerifying(at);
      } else if to == Open {
        ClearLastCheck(Precondition);
      }
      if to != Verifying {
        verifyingSince := None;
      }
    }

    method ApplySpec(now: Time) returns (changes: seq<Machine.Change>, consumed: bool)
      modifies this`state, this`lastChecks, this`verifyingSince, this`resolution
      ensures Machine.Applied(GetStatus(), changes, consumed) == Machine.ApplySpec(old(GetStatus()), GetSpec(), now)
    {
      changes, consumed := [], false;
      if closed {
        if state != Closed {
          var c := SetState(Closed, "spec.closed", now);
          resolution := Some(Resolution(ByUser, Rfc3339Copy(now)));
          changes := [c];
        }
        return;
      }
      if !applied {
        return;
      }
      match state {
        case Open =>
          SetLastCheck(Apply, None, [], now);
          var c := SetState(Verifying, "spec.applied", now);
          changes, consumed := [c], true;
        case Verifying =>
          SetLastCheck(Apply, None, [], now);
          EnterVerifying(now);
          consumed := true;
        case _ =>
      }
    }

    method Record(cfg: Config, r: RunResult, now: Time) returns (changes: seq<Machine.Change>)
      modifies this`state, this`lastChecks, this`verifyingSince, this`resolution, this`reproduced
      ensures Machine.Recorded(GetStatus(), changes) == Machine.Record(old(GetStatus()), cfg, r, now)
    {
      changes := [];
      SetLastCheck(r.script, r.exit, r.output, r.at);
      if !Output.Known(r.exit) {
        return;
      }
      var holds := r.exit.value == 1;
      match r.script {
        case Precondition =>
          if reproduced.NoVerdict? {
            if holds {
              reproduced := Holds(Rfc3339Copy(now));
              return;
            }
            reproduced := Passed(Rfc3339Copy(now));
            return [Machine.IncidentFlagged];
          }
          if !holds {
            var c := SetState(Verifying, "precondition exited 0", r.at);
            return [c];
          }
        case Verify =>
          if !holds {
            resolution := Some(Resolution(ByVerify, Rfc3339Copy(r.at)));
            var c := SetState(Resolved, "verify exited 0", r.at);
            return [c];
          }
          if verifyingSince.None? {
            verifyingSince := Some(Rfc3339Copy(r.at));
            return;
          }
          if r.at - verifyingSince.value >= cfg.settleWindow {
            var c := SetState(Open, "verify exited 1 after the settle window", r.at);
            return [c];
          }
        case _ =>
      }
    }

    method RecordApply(r: RunResult) returns (changes: seq<Machine.Change>, changed: bool)
      modifies this`state, this`lastChecks, this`verifyingSince
      ensures Machine.Recorded(GetStatus(), changes) == Machine.RecordApply(old(GetStatus()), r)
      ensures changed <==> GetStatus() != old(GetStatus())
    {
      changes := [];
      if state != Open && state != Verifying {
        return [], false;
      }
      var before, was := GetStatus(), state;
      SetLastCheck(Apply, r.exit, [], r.at);
      if r.exit == Some(0) {
        if was == Open {
          var c := SetState(Verifying, "apply exited 0", r.at);
          changes := changes + [c];
        } else if verifyingSince.None? || verifyingSince.value < Rfc3339Copy(r.at) {
          EnterVerifying(r.at);
        }
      }
      changed := before != GetStatus();
    }
  }
}
