/** What a reconcile whose every write goes through leaves behind. */
module CompleteRounds {
  import opened Options
  import opened Clock
  import opened Incidents
  import opened CheckPods
  import opened Storage
  import opened Reconcile
  import opened System
  import opened Rounds
  import opened SystemInvariants
  import Machine

  predicate Named(pods: seq<Pod>, n: PodName) {
    exists i :: 0 <= i < |pods| && pods[i].name == n
  }

  /** pods' is pods with exactly the pods of gone marked as being deleted. */
  predicate MarkedDeleted(pods: map<PodName, Pod>, gone: seq<Pod>, pods': map<PodName, Pod>) {
    && pods'.Keys == pods.Keys
    && forall n :: n in pods ==> pods'[n] == if Named(gone, n) then pods[n].(deleting := true) else pods[n]
  }

  lemma {:induction false} DeletesDone(s: Store, held: nat, st: Status, gone: seq<Pod>, now: Time, calls: nat)
    requires s.log != [] && calls >= |gone|
    ensures var (w, ok) := PerformAll(s, held, st, DeleteWrites(gone), now, calls);
            ok && w.held == held && w.store.log == s.log && MarkedDeleted(s.pods, gone, w.store.pods)
    decreases |gone|
  {
    if gone != [] {
      var ws := DeleteWrites(gone);
      var next := s.(pods := Terminating(s.pods, gone[0].name));
      assert ws[0] == DeletePod(gone[0].name) && ws[1..] == DeleteWrites(gone[1..]);
      DeletesDone(next, held, st, gone[1..], now, calls - 1);
      forall n ensures Named(gone, n) <==> n == gone[0].name || Named(gone[1..], n) {
        if Named(gone[1..], n) {
          var i :| 0 <= i < |gone[1..]| && gone[1..][i].name == n;
          assert gone[i + 1].name == n;
        }
        if Named(gone, n) && n != gone[0].name {
          var i :| 0 <= i < |gone| && gone[i].name == n;
          assert gone[1..][i - 1].name == n;
        }
      }
    }
  }

  /** The status writes of a round of the newest version leave its status, and spec.applied reset if it was acted on. */
  lemma StatusDone(s: Store, held: nat, st: Status, plan: Plan, now: Time, calls: nat)
    requires s.log != [] && IsNewest(s, held) && calls >= |StatusWrites(plan)|
    requires plan.consumeApplied ==> plan.dirty
    ensures var (w, ok) := PerformAll(s, held, st, StatusWrites(plan), now, calls);
            && ok && w.store.pods == s.pods && w.store.log != [] && IsNewest(w.store, w.held)
            && Newest(w.store).status == (if plan.dirty then st else Newest(s).status)
            && Newest(w.store).spec == (if plan.consumeApplied then Newest(s).spec.(applied := false) else Newest(s).spec)
  {
    if plan.dirty {
      var one := s.(log := s.log + [Entry(Newest(s).spec, st, CheckStatus)]);
      assert StatusWrites(plan)[0] == PersistStatus;
      assert StatusWrites(plan)[1..] == if plan.consumeApplied then [ResetApplied] else [];
      if plan.consumeApplied {
        assert [ResetApplied][1..] == [];
        assert Perform(one, held + 1, st, ResetApplied, now).Some?;
      }
    }
  }

  lemma StaleIsNamed(stale: seq<Pod>, p: Pod)
    ensures p in stale ==> Named(stale, p.name)
  {
    if p in stale {
      var i :| 0 <= i < |stale| && stale[i] == p;
      assert stale[i].name == p.name;
    }
  }

  lemma OnlyLiveLeft(pods: map<PodName, Pod>, listed: seq<Pod>, plan: Plan, pods': map<PodName, Pod>)
    requires GoodPods(pods) && Lists(listed, pods) && MarkedDeleted(pods, plan.stale, pods')
    requires forall p :: p in listed && !p.deleting ==> p in plan.stale || plan.live == Some(p)
    ensures forall n :: n in pods' && !pods'[n].deleting ==> plan.live == Some(pods'[n])
  {
    forall n | n in pods' && !pods'[n].deleting ensures plan.live == Some(pods'[n]) {
      StaleIsNamed(plan.stale, pods[n]);
    }
  }

  /** The pods a start leaves. */
  function WithStarted(pods: map<PodName, Pod>, plan: Plan, name: PodName, s: Script, now: Time): map<PodName, Pod> {
    if plan.due && name !in pods then pods[name := NewPod(name, s, now)] else pods
  }

  /** The deletions of a plan, then its start. */
  lemma PodWritesDone(uid: string, s: Store, held: nat, st: Status, plan: Plan, now: Time, calls: nat)
    returns (marked: map<PodName, Pod>)
    requires s.log != [] && calls >= |plan.stale| + |StartWrites(uid, st, plan)|
    ensures var (w, ok) := PerformAll(s, held, st, DeleteWrites(plan.stale) + StartWrites(uid, st, plan), now, calls);
            var script := Machine.CurrentScript(st);
            && ok && w.store.log == s.log && MarkedDeleted(s.pods, plan.stale, marked)
            && w.store.pods == WithStarted(marked, plan, CheckName(uid, script, plan.from), script, now)
  {
    var deletes, starts := DeleteWrites(plan.stale), StartWrites(uid, st, plan);
    PerformAllConcat(s, held, st, deletes, starts, now, calls);
    DeletesDone(s, held, st, plan.stale, now, calls);
    var (w, _) := PerformAll(s, held, st, deletes, now, calls);
    marked := w.store.pods;
    if plan.due {
      assert starts[1..] == [];
    }
  }

  /** All the writes of a plan, held at the newest version. */
  lemma WritesDone(uid: string, s: Store, st: Status, plan: Plan, now: Time, calls: nat) returns (marked: map<PodName, Pod>)
    requires s.log != [] && (plan.consumeApplied ==> plan.dirty) && calls >= |Writes(uid, st, plan)|
    ensures var (w, ok) := PerformAll(s, |s.log| - 1, st, Writes(uid, st, plan), now, calls);
            var script := Machine.CurrentScript(st);
            && ok && w.store.log != []
            && Newest(w.store).status == (if plan.dirty then st else Newest(s).status)
            && Newest(w.store).spec == (if plan.consumeApplied then Newest(s).spec.(applied := false) else Newest(s).spec)
            && MarkedDeleted(s.pods, plan.stale, marked)
            && w.store.pods == WithStarted(marked, plan, CheckName(uid, script, plan.from), script, now)
  {
    var held := |s.log| - 1;
    PerformAllConcat(s, held, st, StatusWrites(plan), DeleteWrites(plan.stale) + StartWrites(uid, st, plan), now, calls);
    StatusDone(s, held, st, plan, now, calls);
    var (w, _) := PerformAll(s, held, st, StatusWrites(plan), now, calls);
    marked := PodWritesDone(uid, w.store, w.held, st, plan, now, calls - |StatusWrites(plan)|);
  }

  /**
    A round of the newest version with every pod listed, whose writes all go through, leaves its
    status persisted, spec.applied reset if it was acted on, and, of the pods not being deleted, only
    the live one or the one it starts; when the next check is due that pod exists.
   */
  lemma CompleteRound(env: Env, s: Store, lastRun: Time, listed: seq<Pod>, now: Time, calls: nat)
    requires s.log != [] && GoodPods(s.pods) && Lists(listed, s.pods)
    requires var found := Observe(env.cfg, Newest(s).status, Newest(s).spec, lastRun, listed, now);
             calls >= |Writes(env.uid, found.status, found.plan)|
    ensures var read := Newest(s);
            var found := Observe(env.cfg, read.status, read.spec, lastRun, listed, now);
            var (w, ok) := PerformAll(s, |s.log| - 1, found.status, Writes(env.uid, found.status, found.plan), now, calls);
            var script := Machine.CurrentScript(found.status);
            var name := CheckName(env.uid, script, found.plan.from);
            && ok && w.store.log != []
            && Newest(w.store).status == found.status
            && Newest(w.store).spec == (if found.plan.consumeApplied then read.spec.(applied := false) else read.spec)
            && (forall n :: n in w.store.pods && !w.store.pods[n].deleting ==>
                  found.plan.live == Some(w.store.pods[n]) || (found.plan.due && n == name))
            && (found.plan.due ==> name in w.store.pods)
            && (found.plan.live.None? && Machine.CheckDue(found.status, env.cfg, found.lastRun, now) ==> found.plan.due)
  {
    var read := Newest(s);
    var found := Observe(env.cfg, read.status, read.spec, lastRun, listed, now);
    FoldPartition(env.cfg, Begin(read.status, read.spec, lastRun, now), listed, now);
    var marked := WritesDone(env.uid, s, found.status, found.plan, now, calls);
    OnlyLiveLeft(s.pods, listed, found.plan, marked);
  }
}
