/**
  The API server as a versioned store. The log holds every version of one Incident, oldest first: a
  read from a cache may return any of them, and a write of a held version succeeds only when it is
  the newest.
 */
module Storage {
  import opened Options
  import opened Clock
  import opened Incidents
  import opened CheckPods

  /** Who wrote a version. */
  datatype Writer = Creator | Human | Analyst | CheckStatus | CheckReset | ApplyRecorder

  datatype Entry = Entry(spec: Spec, status: Status, author: Writer)

  datatype Store = Store(log: seq<Entry>, pods: map<PodName, Pod>)

  /** A write of the Incident controller. */
  datatype Write = PersistStatus | ResetApplied | DeletePod(name: PodName) | StartCheck(name: PodName, script: Script)

  /** The outcome of writes: the store, and the version the writer now holds. */
  datatype Written = Written(store: Store, held: nat)

  predicate IsNewest(s: Store, held: nat) {
    held + 1 == |s.log|
  }

  function Newest(s: Store): Entry
    requires s.log != []
  {
    s.log[|s.log| - 1]
  }

  function Terminating(pods: map<PodName, Pod>, n: PodName): map<PodName, Pod> {
    if n in pods then pods[n := pods[n].(deleting := true)] else pods
  }

  /** One write of an Incident held at version held with status st; None when the version has moved on. */
  function Perform(s: Store, held: nat, st: Status, w: Write, now: Time): Option<Written>
    requires s.log != []
  {
    match w
    case PersistStatus =>
      if !IsNewest(s, held) then None
      else Some(Written(s.(log := s.log + [Entry(Newest(s).spec, st, CheckStatus)]), held + 1))
    case ResetApplied =>
      if !IsNewest(s, held) then None
      else
        var spec := Newest(s).spec.(applied := false);
        Some(Written(s.(log := s.log + [Entry(spec, Newest(s).status, CheckReset)]), held + 1))
    case DeletePod(n) => Some(Written(s.(pods := Terminating(s.pods, n)), held))
    case StartCheck(n, script) =>
      if n in s.pods then Some(Written(s, held))
      else Some(Written(s.(pods := s.pods[n := NewPod(n, script, now)]), held))
  }

  /** What the writes ws leave when calls of them reach the API server: the first that fails stops them. */
  function PerformAll(s: Store, held: nat, st: Status, ws: seq<Write>, now: Time, calls: nat): (Written, bool)
    requires s.log != []
    decreases |ws|
  {
    if ws == [] then (Written(s, held), true)
    else if calls == 0 then (Written(s, held), false)
    else
      match Perform(s, held, st, ws[0], now)
      case None => (Written(s, held), false)
      case Some(next) => PerformAll(next.store, next.held, st, ws[1..], now, calls - 1)
  }

  lemma {:induction false} PerformAllConcat(s: Store, held: nat, st: Status, a: seq<Write>, b: seq<Write>, now: Time, calls: nat)
    requires s.log != []
    ensures var (w, ok) := PerformAll(s, held, st, a, now, calls);
            && w.store.log != []
            && (ok ==> |a| <= calls)
            && PerformAll(s, held, st, a + b, now, calls) ==
               if ok then PerformAll(w.store, w.held, st, b, now, calls - |a|) else (w, false)
    decreases |a|
  {
    if a == [] {
      assert a + b == b;
    } else {
      assert (a + b)[1..] == a[1..] + b;
      if calls > 0 && Perform(s, held, st, a[0], now).Some? {
        var next := Perform(s, held, st, a[0], now).value;
        PerformAllConcat(next.store, next.held, st, a[1..], b, now, calls - 1);
      }
    }
  }

  /** Writes that do not all go through leave what a prefix of them leaves: up to the first refused, or not reached. */
  lemma {:induction false} StoppedAtAPrefix(s: Store, held: nat, st: Status, ws: seq<Write>, now: Time, calls: nat) returns (n: nat)
    requires s.log != []
    ensures var (w, ok) := PerformAll(s, held, st, ws, now, calls);
            && w.store.log != [] && n <= |ws| && n <= calls
            && PerformAll(s, held, st, ws[..n], now, calls) == (w, true)
            && (ok <==> n == |ws|)
            && (!ok ==> n == calls || Perform(w.store, w.held, st, ws[n], now) == None)
    decreases |ws|
  {
    if ws == [] || calls == 0 || Perform(s, held, st, ws[0], now).None? {
      n := 0;
    } else {
      var next := Perform(s, held, st, ws[0], now).value;
      var m := StoppedAtAPrefix(next.store, next.held, st, ws[1..], now, calls - 1);
      n := m + 1;
      assert ws[..n][1..] == ws[1..][..m];
    }
  }
}
