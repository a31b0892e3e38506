/**
  One Incident as a concurrent system: its reconciler, one write at a time; the IncidentApply
  controller recording runs on it; people and the writer editing it; the kubelet; restarts.
 */
module System {
  import opened Options
  import opened Clock
  import opened Incidents
  import opened CheckPods
  import opened Storage
  import opened Reconcile
  import opened Lifecycle
  import Machine

  datatype Env = Env(cfg: Config, uid: string)

  /**
    Busy is a reconcile after its Observe: it read version base and the pods in order at time at,
    with lastRun in memory; it holds version held, and write number next is the next to go.
   */
  datatype Controller =
    | Idle
    | Busy(base: nat, lastRun: Time, order: seq<Pod>, at: Time, found: Observed, held: nat, next: nat)

  /**
    lastRun is the incident's entry in the controller's memory. reported (the runs recorded by this
    process) and trace (the events of every persisted status) are history.
   */
  datatype Sys = Sys(
    store: Store, now: Time, lastRun: Time, ctl: Controller,
    reported: seq<(PodName, RunResult)>, trace: seq<Event>)

  datatype Label =
    | BeginRound(version: nat, listed: seq<Pod>)  // Observe, of any version and every pod
    | WriteDone                                   // the next write succeeds
    | WriteLost                                   // the next write succeeds, its reply is lost
    | WriteFailed                                 // the next write fails
    | Restart                                     // the controller process is replaced
    | RecordRun(read: nat, run: RunResult)        // the IncidentApply controller read version read
    | HumanEdit(spec: Spec)
    | Analyst(event: Event)
    | Kubelet(pod: Pod)
    | PodDeleted(name: PodName)
    | PodGone(name: PodName)
    | Tick(to: Time)

  // ----- the events of one reconcile -----

  function FoldEvents(cfg: Config, a: Seen, pods: seq<Pod>, now: Time): seq<Event>
    decreases |pods|
  {
    if pods == [] then []
    else
      (if GivesResult(cfg, a.status, pods[0], now)
       then [Check(ResultOf(pods[0], cfg.checkTimeout, now).result, now)] else [])
      + FoldEvents(cfg, Visit(cfg, a, pods[0], now), pods[1..], now)
  }

  function Begin(st: Status, spec: Spec, lastRun: Time, now: Time): Seen {
    var applied := Machine.ApplySpec(st, spec, now);
    Seen(applied.status, lastRun, None, [], applied.changes)
  }

  function RoundEvents(cfg: Config, st: Status, spec: Spec, lastRun: Time, order: seq<Pod>, now: Time): seq<Event> {
    [Decide(spec, now)] + FoldEvents(cfg, Begin(st, spec, lastRun, now), order, now)
  }

  /** The runs one reconcile reports to the controller's memory, with their pods. */
  function FoldReports(cfg: Config, a: Seen, pods: seq<Pod>, now: Time): seq<(PodName, RunResult)>
    decreases |pods|
  {
    if pods == [] then []
    else
      (if GivesResult(cfg, a.status, pods[0], now)
       then [(pods[0].name, ResultOf(pods[0], cfg.checkTimeout, now).result)] else [])
      + FoldReports(cfg, Visit(cfg, a, pods[0], now), pods[1..], now)
  }

  /** The status a round decides before it visits the pods. */
  function Decided(s: Sys): Status
    requires s.ctl.Busy? && s.ctl.base < |s.store.log|
  {
    var read := s.store.log[s.ctl.base];
    Machine.ApplySpec(read.status, read.spec, s.ctl.at).status
  }

  /** The runs a round in progress reported. */
  function RoundReports(env: Env, s: Sys): seq<(PodName, RunResult)>
    requires s.ctl.Busy? && s.ctl.base < |s.store.log|
  {
    var c := s.ctl;
    var read := s.store.log[c.base];
    FoldReports(env.cfg, Begin(read.status, read.spec, c.lastRun, c.at), c.order, c.at)
  }

  // ----- steps -----

  /** order lists every pod once. */
  predicate Lists(order: seq<Pod>, pods: map<PodName, Pod>) {
    && (forall i :: 0 <= i < |order| ==> order[i].name in pods && pods[order[i].name] == order[i])
    && (forall i, j :: 0 <= i < j < |order| ==> order[i].name != order[j].name)
    && (forall n :: n in pods ==> pods[n] in order)
  }

  function RoundWrites(env: Env, c: Controller): seq<Write>
    requires c.Busy?
  {
    Writes(env.uid, c.found.status, c.found.plan)
  }

  function Append(s: Sys, spec: Spec, st: Status, author: Writer): Store {
    s.store.(log := s.store.log + [Entry(spec, st, author)])
  }

  predicate Init(s: Sys) {
    && |s.store.log| == 1 && s.store.log[0].status == BLANK && s.store.log[0].author == Creator
    && s.store.pods == map[]
    && s.now >= (EPOCH_SECONDS + 1) * SECOND
    && s.lastRun == ZERO && s.ctl == Idle && s.reported == [] && s.trace == []
  }

  predicate BeginStep(env: Env, s: Sys, version: nat, listed: seq<Pod>, s': Sys) {
    && (s.ctl.Idle? || s.ctl.next == |RoundWrites(env, s.ctl)|)
    && version < |s.store.log|
    && Lists(listed, s.store.pods) && SortedByCreation(listed)
    && var read := s.store.log[version];
       var found := Observe(env.cfg, read.status, read.spec, s.lastRun, listed, s.now);
       s' == s.(ctl := Busy(version, s.lastRun, listed, s.now, found, version, 0),
                lastRun := found.lastRun,
                reported := s.reported
                  + FoldReports(env.cfg, Begin(read.status, read.spec, s.lastRun, s.now), listed, s.now))
  }

  /** The next write of the round reaches the API server; after gives the reconciler's own next state. */
  predicate WriteStep(env: Env, s: Sys, lost: bool, s': Sys) {
    && s.ctl.Busy? && s.ctl.next < |RoundWrites(env, s.ctl)|
    && s.store.log != [] && s.ctl.base < |s.store.log|
    && var c := s.ctl;
       var w := RoundWrites(env, c)[c.next];
       var done := Perform(s.store, c.held, c.found.status, w, s.now);
       && done.Some?
       && var read := s.store.log[c.base];
          s' == s.(store := done.value.store,
                   ctl := if lost then Idle else c.(held := done.value.held, next := c.next + 1),
                   trace := if w == PersistStatus
                            then s.trace + RoundEvents(env.cfg, read.status, read.spec, c.lastRun, c.order, c.at)
                            else s.trace)
  }

  predicate RecordStep(s: Sys, read: nat, run: RunResult, s': Sys) {
    && read < |s.store.log| && run.script == Apply && ValidExit(run.exit)
    && var st := Machine.RecordApply(s.store.log[read].status, run).status;
       if st != s.store.log[read].status && IsNewest(s.store, read)
       then s' == s.(store := Append(s, Newest(s.store).spec, st, ApplyRecorder), trace := s.trace + [ApplyRun(run)])
       else s' == s
  }

  /** The kubelet changes only a pod's status, and not once it is final. */
  predicate Progress(was: Pod, pod: Pod) {
    && pod.script == was.script && pod.created == was.created && pod.deleting == was.deleting
    && (Finished(was.phase) ==> pod == was)
    && Sane(pod)
  }

  predicate KubeletStep(s: Sys, pod: Pod, s': Sys) {
    && pod.name in s.store.pods && Progress(s.store.pods[pod.name], pod)
    && s' == s.(store := s.store.(pods := s.store.pods[pod.name := pod]))
  }

  predicate Next(env: Env, s: Sys, l: Label, s': Sys)
    requires s.store.log != []
  {
    match l
    case BeginRound(version, listed) => BeginStep(env, s, version, listed, s')
    case WriteDone => WriteStep(env, s, false, s')
    case WriteLost => WriteStep(env, s, true, s')
    case WriteFailed => s.ctl.Busy? && s' == s.(ctl := Idle)
    case Restart => s' == s.(ctl := Idle, lastRun := ZERO, reported := [])
    case RecordRun(read, run) => RecordStep(s, read, run, s')
    case HumanEdit(spec) =>
      && (Newest(s.store).spec.closed ==> spec.closed)
      && s' == s.(store := Append(s, spec, Newest(s.store).status, Human))
    case Analyst(e) =>
      && (e.Analyze? || e.Analyzed?) && Enabled(Newest(s.store).status, e)
      && s' == s.(store := Append(s, Newest(s.store).spec, Step(env.cfg, Newest(s.store).status, e), Writer.Analyst),
                  trace := s.trace + [e])
    case Kubelet(pod) => KubeletStep(s, pod, s')
    case PodDeleted(n) => s' == s.(store := s.store.(pods := Terminating(s.store.pods, n)))
    case PodGone(n) =>
      && n in s.store.pods && s.store.pods[n].deleting
      && s' == s.(store := s.store.(pods := s.store.pods - {n}))
    case Tick(to) => to >= s.now && s' == s.(now := to)
  }

  /** Every run of the system, any step after any other. */
  predicate Behavior(env: Env, ss: seq<Sys>, ls: seq<Label>) {
    && |ss| == |ls| + 1
    && Init(ss[0])
    && forall i :: 0 <= i < |ls| ==> ss[i].store.log != [] && Next(env, ss[i], ls[i], ss[i + 1])
  }
}
