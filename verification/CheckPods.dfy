/** The pods that run the scripts: their names, and the result a pod's status gives. */
module CheckPods {
  import opened Options
  import opened Clock
  import opened Incidents
  import opened Output

  /** How long past its timeout a pod that has not finished counts as timed out. */
  const PENDING_GRACE: Duration := 60_000_000_000

  const CONTAINER_NAME := "check"
  const DEADLINE_EXCEEDED := "DeadlineExceeded"
  const STOPPED := "the check was stopped at its deadline"

  datatype Phase = Pending | Running | Succeeded | Failed | UnknownPhase

  /** finishedAt is ZERO when the kubelet did not set it. */
  datatype Terminated = Terminated(exitCode: int, finishedAt: Time, message: seq<byte>)

  datatype Container = Container(name: string, terminated: Option<Terminated>)

  datatype PodName = CheckPodName(uid: string, script: Script, seqNo: int) | ApplyPodName(uid: string)

  /** deleting is whether the pod has a deletion timestamp; script is its script label. */
  datatype Pod = Pod(
    name: PodName, script: Script, created: Time, deleting: bool,
    phase: Phase, reason: string, startTime: Option<Time>, containers: seq<Container>)

  /** What a pod gives: a result, final when done. */
  datatype Outcome = Outcome(result: RunResult, done: bool)

  // ----- names -----

  function WithoutDashes(s: string): string {
    if s == [] then [] else (if s[0] == '-' then [] else [s[0]]) + WithoutDashes(s[1..])
  }

  /** The pod of the run of s that became due a poll interval after from. */
  function CheckName(uid: string, s: Script, from: Time): PodName {
    var plain := WithoutDashes(uid);
    CheckPodName(if |plain| > 12 then plain[..12] else plain, s, if from == ZERO then 0 else Unix(from))
  }

  /** The pod of an IncidentApply's one run. */
  function ApplyName(uid: string): PodName {
    ApplyPodName(WithoutDashes(uid))
  }

  /** Dashes and only dashes go. */
  lemma {:induction false} WithoutDashesParts(a: string, b: string)
    ensures WithoutDashes(a + b) == WithoutDashes(a) + WithoutDashes(b)
    decreases a
  {
    if a == [] {
      assert a + b == b;
    } else {
      assert (a + b)[0] == a[0] && (a + b)[1..] == a[1..] + b;
      WithoutDashesParts(a[1..], b);
      assert WithoutDashes(a) == (if a[0] == '-' then [] else [a[0]]) + WithoutDashes(a[1..]);
    }
  }

  lemma {:induction false} OnlyDashesGo(a: string)
    ensures '-' !in WithoutDashes(a) && WithoutDashes("-") == ""
    ensures '-' !in a ==> WithoutDashes(a) == a
    decreases a
  {
    assert "-"[1..] == "";
    if a != [] {
      OnlyDashesGo(a[1..]);
    }
  }

  /** The part of an incident's uid that its pods' names carry. */
  function NamePart(uid: string): string {
    if |WithoutDashes(uid)| > 12 then WithoutDashes(uid)[..12] else WithoutDashes(uid)
  }

  /** Two check names are equal exactly for the same script, the same part of the uid, and the same second, or none. */
  lemma SameNameExactly(uid: string, s: Script, from: Time, uid': string, s': Script, from': Time)
    requires (from != ZERO ==> Unix(from) > 0) && (from' != ZERO ==> Unix(from') > 0)
    ensures CheckName(uid, s, from) == CheckName(uid', s', from') <==>
              && NamePart(uid) == NamePart(uid') && s == s'
              && ((from == ZERO && from' == ZERO) || (from != ZERO && from' != ZERO && Rfc3339Copy(from) == Rfc3339Copy(from')))
  {
  }

  /** The apply pods of two requests have the same name exactly when their uids do, up to dashes; no check pod has it. */
  lemma SameApplyNameExactly(uid: string, uid': string, s: Script, from: Time)
    ensures ApplyName(uid) == ApplyName(uid') <==> WithoutDashes(uid) == WithoutDashes(uid')
    ensures ApplyName(uid) != CheckName(uid', s, from)
  {
  }

  /** A pod as its creation leaves it; the API server stamps whole seconds. */
  function NewPod(name: PodName, s: Script, now: Time): Pod {
    Pod(name, s, Rfc3339Copy(now), false, Pending, "", None, [])
  }

  // ----- results -----

  function Ascii(s: string): seq<byte> {
    seq(|s|, i requires 0 <= i < |s| => if s[i] < 128 as char then s[i] as int as byte else 63)
  }

  predicate Finished(phase: Phase) {
    phase == Succeeded || phase == Failed
  }

  function Overdue(pod: Pod, timeout: Duration): Time {
    pod.created + timeout + PENDING_GRACE
  }

  predicate GivesExit(c: Container) {
    c.name == CONTAINER_NAME && c.terminated.Some? && 0 <= c.terminated.value.exitCode <= 255
  }

  function ReadContainer(reason: string, r: RunResult, c: Container): RunResult {
    if c.name != CONTAINER_NAME || c.terminated.None? then r
    else
      var t := c.terminated.value;
      var ended := if t.finishedAt == ZERO then r else r.(at := t.finishedAt);
      if reason != DEADLINE_EXCEEDED && GivesExit(c) then ended.(exit := Some(t.exitCode), output := t.message) else ended
  }

  function ReadContainers(reason: string, r: RunResult, cs: seq<Container>): RunResult
    decreases cs
  {
    if cs == [] then r else ReadContainers(reason, ReadContainer(reason, r, cs[0]), cs[1..])
  }

  function ResultOf(pod: Pod, timeout: Duration, now: Time): Outcome {
    if !Finished(pod.phase) then
      if now < Overdue(pod, timeout) then Outcome(RunResult(pod.script, None, ZERO, []), false)
      else
        Outcome(RunResult(pod.script, None, Overdue(pod, timeout), Ascii("the check did not finish in time")), true)
    else
      var text := if pod.reason == DEADLINE_EXCEEDED then Ascii(STOPPED) else [];
      var at := if pod.startTime.Some? then pod.startTime.value + timeout else Overdue(pod, timeout);
      Outcome(ReadContainers(pod.reason, RunResult(pod.script, None, at, text), pod.containers), true)
  }

  method ReadResult(pod: Pod, timeout: Duration, now: Time) returns (r: RunResult, done: bool)
    ensures Outcome(r, done) == ResultOf(pod, timeout, now)
  {
    r := RunResult(pod.script, None, ZERO, []);
    var overdue := pod.created + timeout + PENDING_GRACE;
    if pod.phase != Succeeded && pod.phase != Failed {
      if now < overdue {
        return r, false;
      }
      return r.(at := overdue, output := Ascii("the check did not finish in time")), true;
    }
    if pod.reason == DEADLINE_EXCEEDED {
      r := r.(output := Ascii(STOPPED));
    }
    r := r.(at := overdue);
    if pod.startTime.Some? {
      r := r.(at := pod.startTime.value + timeout);
    }
    for i := 0 to |pod.containers|
      invariant ReadContainers(pod.reason, r, pod.containers[i..]) == ResultOf(pod, timeout, now).result
    {
      var c := pod.containers[i];
      if c.name != CONTAINER_NAME || c.terminated.None? {
        continue;
      }
      var t := c.terminated.value;
      if t.finishedAt != ZERO {
        r := r.(at := t.finishedAt);
      }
      if pod.reason != DEADLINE_EXCEEDED && 0 <= t.exitCode <= 255 {
        r := r.(exit := Some(t.exitCode), output := t.message);
      }
    }
    done := true;
  }

  /** A result once given is given again at every later instant: result times are deterministic. */
  lemma ResultIsStable(pod: Pod, timeout: Duration, now: Time, later: Time)
    requires ResultOf(pod, timeout, now).done && now <= later
    ensures ResultOf(pod, timeout, later) == ResultOf(pod, timeout, now)
  {
  }

  lemma {:induction false} ExitOfContainers(reason: string, r: RunResult, cs: seq<Container>)
    ensures var s := ReadContainers(reason, r, cs);
            && s.script == r.script
            && (ValidExit(r.exit) ==> ValidExit(s.exit))
            && (s.exit.Some? <==> r.exit.Some? || (reason != DEADLINE_EXCEEDED && exists c :: c in cs && GivesExit(c)))
    decreases cs
  {
    if cs != [] {
      ExitOfContainers(reason, ReadContainer(reason, r, cs[0]), cs[1..]);
      assert forall c :: c in cs <==> c == cs[0] || c in cs[1..];
    }
  }

  /** A run has an exit code exactly when its pod finished, not on its deadline, with a check container that exited 0 to 255. */
  lemma ExitExactly(pod: Pod, timeout: Duration, now: Time)
    ensures var o := ResultOf(pod, timeout, now);
            && o.result.script == pod.script
            && ValidExit(o.result.exit)
            && (o.result.exit.Some? <==>
                  && Finished(pod.phase) && pod.reason != DEADLINE_EXCEEDED
                  && exists c :: c in pod.containers && GivesExit(c))
  {
    var at := if pod.startTime.Some? then pod.startTime.value + timeout else Overdue(pod, timeout);
    var text := if pod.reason == DEADLINE_EXCEEDED then Ascii(STOPPED) else [];
    ExitOfContainers(pod.reason, RunResult(pod.script, None, at, text), pod.containers);
  }

  /**
    A pod that has not finished gives a result exactly from its creation plus the timeout plus a minute on,
    dated then, without an exit; one that has finished always gives one.
   */
  lemma GivenUpExactly(pod: Pod, timeout: Duration, now: Time)
    ensures var o := ResultOf(pod, timeout, now);
            if pod.phase == Succeeded || pod.phase == Failed then o.done
            else
              && (o.done <==> now >= pod.created + timeout + MINUTE)
              && (o.done ==> o.result.at == pod.created + timeout + MINUTE && o.result.exit == None
                             && o.result.output == Ascii("the check did not finish in time"))
  {
  }

  /** The kubelet says when container c ended. */
  predicate GivesTime(c: Container) {
    c.name == CONTAINER_NAME && c.terminated.Some? && c.terminated.value.finishedAt != ZERO
  }

  lemma {:induction false} LastContainer(reason: string, r: RunResult, cs: seq<Container>, k: nat)
    requires k <= |cs|
    ensures (k < |cs| && GivesTime(cs[k]) && forall j :: k < j < |cs| ==> !GivesTime(cs[j])) ==>
              ReadContainers(reason, r, cs).at == cs[k].terminated.value.finishedAt
    ensures (forall c :: c in cs ==> !GivesTime(c)) ==> ReadContainers(reason, r, cs).at == r.at
    ensures (reason != DEADLINE_EXCEEDED && k < |cs| && GivesExit(cs[k]) && forall j :: k < j < |cs| ==> !GivesExit(cs[j])) ==>
              ReadContainers(reason, r, cs).exit == Some(cs[k].terminated.value.exitCode)
              && ReadContainers(reason, r, cs).output == cs[k].terminated.value.message
    ensures reason == DEADLINE_EXCEEDED || (forall c :: c in cs ==> !GivesExit(c)) ==>
              ReadContainers(reason, r, cs).exit == r.exit && ReadContainers(reason, r, cs).output == r.output
    decreases cs
  {
    if cs != [] {
      var next := ReadContainer(reason, r, cs[0]);
      assert cs[0] in cs && forall j :: 0 < j < |cs| ==> cs[j] == cs[1..][j - 1] && cs[j] in cs[1..];
      assert forall c :: c in cs[1..] ==> c in cs;
      LastContainer(reason, next, cs[1..], if k > 0 then k - 1 else 0);
      if k == 0 {
        assert forall c :: c in cs[1..] ==> exists j :: 0 < j < |cs| && cs[j] == c;
      }
    }
  }

  /**
    A run ends when its container did; failing that, a timeout after its start, or after its creation
    and grace. So does one stopped at its deadline, which has neither exit nor message.
   */
  lemma EndOfRun(pod: Pod, timeout: Duration, now: Time, k: nat)
    requires Finished(pod.phase) && k <= |pod.containers|
    ensures var r := ResultOf(pod, timeout, now).result;
            && ((forall c :: c in pod.containers ==> !GivesTime(c)) ==>
                  r.at == if pod.startTime.Some? then pod.startTime.value + timeout else Overdue(pod, timeout))
            && ((k < |pod.containers| && GivesTime(pod.containers[k])
                 && forall j :: k < j < |pod.containers| ==> !GivesTime(pod.containers[j])) ==>
                  r.at == pod.containers[k].terminated.value.finishedAt)
            && (if pod.reason == DEADLINE_EXCEEDED then r.exit == None && r.output == Ascii(STOPPED)
                else
                  (k < |pod.containers| && GivesExit(pod.containers[k])
                   && forall j :: k < j < |pod.containers| ==> !GivesExit(pod.containers[j])) ==>
                    r.exit == Some(pod.containers[k].terminated.value.exitCode)
                    && r.output == pod.containers[k].terminated.value.message)
  {
    var at := if pod.startTime.Some? then pod.startTime.value + timeout else Overdue(pod, timeout);
    var text := if pod.reason == DEADLINE_EXCEEDED then Ascii(STOPPED) else [];
    LastContainer(pod.reason, RunResult(pod.script, None, at, text), pod.containers, k);
  }

  // ----- what is assumed of the kubelet's clock -----

  predicate SaneTime(pod: Pod, t: Time) {
    WholeSecond(t) && pod.created <= t
  }

  /** No time of the pod is before its creation, and every one is a whole second. */
  predicate Sane(pod: Pod) {
    && WholeSecond(pod.created)
    && (pod.startTime.Some? ==> SaneTime(pod, pod.startTime.value))
    && forall c :: c in pod.containers && c.terminated.Some? && c.terminated.value.finishedAt != ZERO
                   ==> SaneTime(pod, c.terminated.value.finishedAt)
  }

  lemma {:induction false} ContainersNotBefore(pod: Pod, r: RunResult, cs: seq<Container>)
    requires Sane(pod) && pod.created <= r.at
    requires forall c :: c in cs ==> c in pod.containers
    ensures pod.created <= ReadContainers(pod.reason, r, cs).at
    decreases cs
  {
    if cs != [] {
      assert cs[0] in pod.containers;
      ContainersNotBefore(pod, ReadContainer(pod.reason, r, cs[0]), cs[1..]);
    }
  }

  lemma ResultNotBeforeCreation(pod: Pod, timeout: Duration, now: Time)
    requires Sane(pod) && timeout >= 0 && ResultOf(pod, timeout, now).done
    ensures pod.created <= ResultOf(pod, timeout, now).result.at
  {
    var at := if pod.startTime.Some? then pod.startTime.value + timeout else Overdue(pod, timeout);
    var text := if pod.reason == DEADLINE_EXCEEDED then Ascii(STOPPED) else [];
    ContainersNotBefore(pod, RunResult(pod.script, None, at, text), pod.containers);
  }
}
