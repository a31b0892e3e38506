/** When the poll-interval hooks wake a finished request and an incident with a check to come. */
module Requeue {
  import opened Options
  import opened Clock
  import opened Incidents
  import opened Requests
  import Machine

  /** The wait of a finished request for its deadline. */
  function Delay(deadline: Time, now: Time): Duration {
    var d := deadline - now;
    if d < SECOND then SECOND else if d > HOUR then HOUR else d
  }

  function ApplyHook(st: ApplyStatus, ttl: Duration, poll: Duration, now: Time): Duration {
    if !Terminal(st.phase) || st.finishedAt.None? then poll else Delay(st.finishedAt.value + ttl, now)
  }

  /** The instant of wake-up n of a request first seen at now and woken each time the hook asks. */
  function WakeAt(st: ApplyStatus, ttl: Duration, poll: Duration, now: Time, n: nat): Time
    decreases n
  {
    if n == 0 then now else WakeAt(st, ttl, poll, now + ApplyHook(st, ttl, poll, now), n - 1)
  }

  /** The hours until the deadline, rounded up, and at least one. */
  function Wakes(remaining: Duration): nat {
    if remaining <= HOUR then 1 else (remaining + HOUR - 1) / HOUR
  }

  /** Each wake-up comes at least a second after the one before, so the time left strictly decreases. */
  lemma {:induction false} WakesAdvance(st: ApplyStatus, ttl: Duration, poll: Duration, now: Time, n: nat)
    requires Terminal(st.phase) && st.finishedAt.Some?
    ensures WakeAt(st, ttl, poll, now, n + 1) >= WakeAt(st, ttl, poll, now, n) + SECOND
    decreases n
  {
    if n > 0 {
      WakesAdvance(st, ttl, poll, now + ApplyHook(st, ttl, poll, now), n - 1);
    }
  }

  /**
    A finished request is first seen expired at wake-up max(1, hours left rounded up): not before its
    TTL has passed, and less than a second after when it was first seen in time.
   */
  lemma {:induction false} FirstSeenExpired(st: ApplyStatus, ttl: Duration, poll: Duration, now: Time)
    requires Terminal(st.phase) && st.finishedAt.Some?
    ensures var deadline := st.finishedAt.value + ttl;
            var n := Wakes(deadline - now);
            && WakeAt(st, ttl, poll, now, n) >= deadline
            && (now < deadline ==> WakeAt(st, ttl, poll, now, n) < deadline + SECOND)
            && (now < deadline ==> forall k :: 0 <= k < n ==> WakeAt(st, ttl, poll, now, k) < deadline)
    decreases st.finishedAt.value + ttl - now
  {
    var deadline := st.finishedAt.value + ttl;
    var next := now + ApplyHook(st, ttl, poll, now);
    if deadline - now > HOUR {
      FirstSeenExpired(st, ttl, poll, next);
      var n := Wakes(deadline - now);
      assert n == Wakes(deadline - next) + 1;
      forall k | 0 < k < n ensures WakeAt(st, ttl, poll, now, k) < deadline {
        assert WakeAt(st, ttl, poll, now, k) == WakeAt(st, ttl, poll, next, k - 1);
      }
    } else {
      assert WakeAt(st, ttl, poll, now, 1) == WakeAt(st, ttl, poll, next, 0) == next;
    }
  }

  /** Wake-ups that may come late, each no sooner than the hook asks after the one before. */
  predicate Woken(st: ApplyStatus, ttl: Duration, poll: Duration, times: seq<Time>) {
    forall k :: 0 <= k < |times| - 1 ==> times[k + 1] >= times[k] + ApplyHook(st, ttl, poll, times[k])
  }

  /** Late wake-ups are no more: the request is past its TTL at the same number, and late by less than a second and the last delay. */
  lemma {:induction false} LateWakesExpire(st: ApplyStatus, ttl: Duration, poll: Duration, times: seq<Time>, k: nat)
    requires Terminal(st.phase) && st.finishedAt.Some? && Woken(st, ttl, poll, times) && k < |times|
    ensures var deadline := st.finishedAt.value + ttl;
            && (k >= Wakes(deadline - times[0]) ==> times[k] >= deadline)
            && (k > 0 && times[k - 1] < deadline ==>
                  times[k] < deadline + SECOND + (times[k] - times[k - 1] - ApplyHook(st, ttl, poll, times[k - 1])))
    decreases k
  {
    var deadline := st.finishedAt.value + ttl;
    if k > 0 {
      var rest := times[1..];
      forall j | 0 <= j < |rest| - 1 ensures rest[j + 1] >= rest[j] + ApplyHook(st, ttl, poll, rest[j]) {
        assert rest[j] == times[j + 1] && rest[j + 1] == times[(j + 1) + 1];
      }
      LateWakesExpire(st, ttl, poll, rest, k - 1);
      if k == 1 && Wakes(deadline - times[0]) <= 1 {
        assert deadline - times[0] <= HOUR;
      }
    }
  }

  /** So a reconcile at that wake-up is the first that deletes the request. */
  lemma DeletedAtThatWake(st: ApplyStatus, rd: Reads, cfg: ApplyConfig, poll: Duration, now: Time, k: nat)
    requires Terminal(st.phase) && st.finishedAt.Some? && !rd.deleted && now < st.finishedAt.value + cfg.ttl
    requires k <= Wakes(st.finishedAt.value + cfg.ttl - now)
    ensures ObserveRequest(st, rd, cfg, WakeAt(st, cfg.ttl, poll, now, k)).plan.expired
            <==> k == Wakes(st.finishedAt.value + cfg.ttl - now)
  {
    FirstSeenExpired(st, cfg.ttl, poll, now);
    ExpiredExactly(st, rd, cfg, WakeAt(st, cfg.ttl, poll, now, k));
  }

  // ----- incidents -----

  function CheckHook(st: Status, lastRun: Time, poll: Duration, now: Time): Duration {
    if Machine.CurrentScript(st) == NoScript then poll
    else
      var d := Machine.NextCheckAt(st, lastRun, poll) - now;
      if d <= 0 then poll else if d < SECOND then SECOND else if d > poll then poll else d
  }

  /** A wait that has begun: an incident whose check is not due is woken no earlier than it is due, and less than a second later. */
  lemma WokenWhenDue(st: Status, cfg: Config, lastRun: Time, now: Time)
    requires Machine.CurrentScript(st) != NoScript && !Machine.CheckDue(st, cfg, lastRun, now)
    requires Machine.CheckFrom(st, lastRun) <= now && now > ZERO
    ensures var wake := now + CheckHook(st, lastRun, cfg.pollInterval, now);
            && Machine.CheckDue(st, cfg, lastRun, wake)
            && wake < Machine.NextCheckAt(st, lastRun, cfg.pollInterval) + SECOND
  {
  }

  /** The instant of wake-up n of an incident last seen at now, its check not started by anything else. */
  function CheckWakeAt(st: Status, lastRun: Time, poll: Duration, now: Time, n: nat): Time
    decreases n
  {
    if n == 0 then now else CheckWakeAt(st, lastRun, poll, now + CheckHook(st, lastRun, poll, now), n - 1)
  }

  /** The poll intervals until the check, rounded up, and at least one. */
  function CheckWakes(remaining: Duration, poll: Duration): nat
    requires poll > 0
  {
    if remaining <= poll then 1 else (remaining + poll - 1) / poll
  }

  /**
    Whenever the wait begins, now or later: of the wake-ups the hook asks for, the check is first due at
    number max(1, poll intervals left rounded up), less than a second late.
   */
  lemma {:induction false} FirstSeenDue(st: Status, cfg: Config, lastRun: Time, now: Time)
    requires Machine.CurrentScript(st) != NoScript && !Machine.CheckDue(st, cfg, lastRun, now)
    requires cfg.pollInterval >= SECOND
    ensures var poll, at := cfg.pollInterval, Machine.NextCheckAt(st, lastRun, cfg.pollInterval);
            var n := CheckWakes(at - now, poll);
            && Machine.CheckDue(st, cfg, lastRun, CheckWakeAt(st, lastRun, poll, now, n))
            && CheckWakeAt(st, lastRun, poll, now, n) < at + SECOND
            && forall k :: 0 <= k < n ==> !Machine.CheckDue(st, cfg, lastRun, CheckWakeAt(st, lastRun, poll, now, k))
    decreases Machine.NextCheckAt(st, lastRun, cfg.pollInterval) - now
  {
    var poll, at := cfg.pollInterval, Machine.NextCheckAt(st, lastRun, cfg.pollInterval);
    var next := now + CheckHook(st, lastRun, poll, now);
    if at - now > poll {
      FirstSeenDue(st, cfg, lastRun, next);
      OneFewer(at - now, poll);
      forall k | 0 < k < CheckWakes(at - now, poll)
        ensures !Machine.CheckDue(st, cfg, lastRun, CheckWakeAt(st, lastRun, poll, now, k))
      {
        assert CheckWakeAt(st, lastRun, poll, now, k) == CheckWakeAt(st, lastRun, poll, next, k - 1);
      }
    } else {
      assert CheckWakeAt(st, lastRun, poll, now, 1) == CheckWakeAt(st, lastRun, poll, next, 0) == next;
    }
  }

  lemma OneFewer(remaining: Duration, poll: Duration)
    requires 0 < poll < remaining
    ensures CheckWakes(remaining, poll) == CheckWakes(remaining - poll, poll) + 1
  {
    var q, r := (remaining - 1) / poll, (remaining - 1) % poll;
    assert remaining - 1 == poll * q + r;
    Quotient(remaining + poll - 1, poll, q + 1, r);
    Quotient(remaining - poll + poll - 1, poll, q, r);
    if remaining - poll <= poll {
      Quotient(remaining - 1, poll, 1, remaining - 1 - poll);
    }
  }

  lemma Quotient(a: int, p: int, q: int, r: int)
    requires p > 0 && a == p * q + r && 0 <= r < p
    ensures a / p == q
  {
    var d := a / p - q;
    assert p * d == r - a % p;
    assert d >= 1 ==> p * d >= p;
    assert d <= -1 ==> p * d <= -p;
  }

  /** Outside those waits both hooks pass the poll interval on; within them neither asks for less than a second, or more than it may. */
  lemma HooksExactly(req: ApplyStatus, ttl: Duration, st: Status, lastRun: Time, poll: Duration, now: Time)
    requires poll >= SECOND
    ensures !Terminal(req.phase) || req.finishedAt.None? ==> ApplyHook(req, ttl, poll, now) == poll
    ensures Terminal(req.phase) && req.finishedAt.Some? ==> SECOND <= ApplyHook(req, ttl, poll, now) <= HOUR
    ensures Machine.CurrentScript(st) == NoScript || now >= Machine.NextCheckAt(st, lastRun, poll) ==>
              CheckHook(st, lastRun, poll, now) == poll
    ensures SECOND <= CheckHook(st, lastRun, poll, now) <= poll
  {
  }
}
