/** Which of the requests for one incident goes first, and that at most one does. */
module Arbitration {
  import opened Options
  import opened Clock
  import opened Incidents
  import opened Requests
  import opened Names

  /** What the arbitration reads of an IncidentApply. */
  datatype Item = Item(uid: string, name: string, created: Time, incident: string, phase: ApplyPhase, deleted: bool)

  predicate Older(a: Item, b: Item) {
    if a.created != b.created then a.created < b.created else Less(a.name, b.name)
  }

  predicate Unfinished(o: Item) {
    !o.deleted && !Terminal(o.phase)
  }

  /** Whether o is another unfinished request for ia's incident that goes before it. */
  predicate GoesFirst(o: Item, ia: Item) {
    && o.uid != ia.uid && o.incident == ia.incident && Unfinished(o)
    && (o.phase == PodRunning || Older(o, ia))
  }

  /** The name of the first request of the list that goes before ia. */
  function FirstAhead(l: seq<Item>, ia: Item): Option<string> {
    if l == [] then None else if GoesFirst(l[0], ia) then Some(l[0].name) else FirstAhead(l[1..], ia)
  }

  /** The scan of the namespace's requests. */
  method Busy(l: seq<Item>, ia: Item) returns (other: Option<string>)
    ensures other == FirstAhead(l, ia)
    ensures other == None <==> forall o :: o in l ==> !GoesFirst(o, ia)
    ensures other.Some? ==> exists i :: 0 <= i < |l| && GoesFirst(l[i], ia) && l[i].name == other.value
                                        && forall j :: 0 <= j < i ==> !GoesFirst(l[j], ia)
  {
    for i := 0 to |l|
      invariant forall j :: 0 <= j < i ==> !GoesFirst(l[j], ia)
      invariant FirstAhead(l, ia) == FirstAhead(l[i..], ia)
    {
      var o := l[i];
      assert l[i..][1..] == l[i + 1..];
      if o.uid == ia.uid || o.incident != ia.incident || Terminal(o.phase) || o.deleted {
        continue;
      }
      if o.phase == PodRunning || Older(o, ia) {
        assert o in l && GoesFirst(o, ia);
        return Some(o.name);
      }
    }
    other := None;
  }

  // ----- the order -----

  /** older is a strict total order on requests of different names. */
  lemma OlderIsAnOrder(a: Item, b: Item, c: Item)
    ensures !Older(a, a)
    ensures Older(a, b) ==> !Older(b, a)
    ensures Older(a, b) && Older(b, c) ==> Older(a, c)
    ensures a.name != b.name ==> Older(a, b) || Older(b, a)
  {
    LessIrreflexive(a.name);
    LessTotal(a.name, b.name);
    if Less(a.name, b.name) {
      LessAsymmetric(a.name, b.name);
      if Less(b.name, c.name) {
        LessTransitive(a.name, b.name, c.name);
      }
    }
  }

  /** The request created in an earlier second goes first; of one second, the one of the smaller name. */
  lemma EarlierGoesFirst(l: seq<Item>, o: Item, ia: Item)
    requires o in l && o.uid != ia.uid && o.incident == ia.incident
    requires !o.deleted && (o.phase == NoPhase || o.phase == PodRunning)
    requires o.phase == PodRunning || o.created < ia.created || (o.created == ia.created && Less(o.name, ia.name))
    ensures GoesFirst(o, ia) && FirstAhead(l, ia).Some?
  {
    NoneAhead(l, ia);
  }

  /** Nothing else does: a request goes first only if it runs or was created no later. */
  lemma LaterNeverGoesFirst(o: Item, ia: Item)
    requires GoesFirst(o, ia)
    ensures o.uid != ia.uid && o.incident == ia.incident && !o.deleted && (o.phase == NoPhase || o.phase == PodRunning)
    ensures o.phase == PodRunning || o.created < ia.created || (o.created == ia.created && Less(o.name, ia.name))
  {
  }

  /** Requests of one namespace: no two share a uid or a name. */
  predicate Distinct(l: seq<Item>) {
    forall i, j :: 0 <= i < j < |l| ==> l[i].uid != l[j].uid && l[i].name != l[j].name
  }

  /** The unfinished requests of l for an incident all wait: none has a running pod. */
  predicate Waiting(l: seq<Item>, incident: string) {
    forall o :: o in l && o.incident == incident && Unfinished(o) ==> o.phase == NoPhase
  }

  predicate Free(l: seq<Item>, ia: Item) {
    forall o :: o in l ==> !GoesFirst(o, ia)
  }

  predicate Contends(l: seq<Item>, incident: string, i: nat) {
    i < |l| && l[i].incident == incident && Unfinished(l[i])
  }

  /** The oldest of the unfinished requests for an incident. */
  ghost predicate Oldest(l: seq<Item>, incident: string, i: nat) {
    Contends(l, incident, i) && forall j: nat :: Contends(l, incident, j) && j != i ==> Older(l[i], l[j])
  }

  lemma {:induction false} OldestExists(l: seq<Item>, incident: string, k: nat) returns (i: nat)
    requires Distinct(l) && Contends(l, incident, k)
    ensures Oldest(l, incident, i)
    decreases |l|
  {
    var n := |l| - 1;
    if k == n && forall j: nat :: j < n ==> !Contends(l, incident, j) {
      return k;
    }
    var rest := l[..n];
    var m: nat :| m < n && Contends(l, incident, m);
    assert Contends(l, incident, m) && rest[m] == l[m];
    assert Contends(rest, incident, m);
    i := OldestExists(rest, incident, m);
    assert forall j: nat :: j < n ==> (Contends(rest, incident, j) <==> Contends(l, incident, j));
    assert forall j: nat :: Contends(l, incident, j) && j != i && j != n ==> Older(l[i], l[j]);
    if Contends(l, incident, n) {
      OlderIsAnOrder(l[i], l[n], l[n]);
      if !Older(l[i], l[n]) {
        forall j: nat | Contends(l, incident, j) && j != n ensures Older(l[n], l[j]) {
          if j != i {
            OlderIsAnOrder(l[n], l[i], l[j]);
          }
        }
        i := n;
      }
    }
  }

  /** Of the waiting requests for an incident exactly the oldest is not busy. */
  lemma ExactlyTheOldestIsFree(l: seq<Item>, incident: string, i: nat)
    requires Distinct(l) && Waiting(l, incident) && Contends(l, incident, i)
    ensures Free(l, l[i]) <==> Oldest(l, incident, i)
    ensures exists k: nat :: Oldest(l, incident, k) && Free(l, l[k])
  {
    var k := OldestExists(l, incident, i);
    forall m: nat, o | Oldest(l, incident, m) && o in l ensures !GoesFirst(o, l[m]) {
      var j :| 0 <= j < |l| && l[j] == o;
      if Contends(l, incident, j) && j != m {
        OlderIsAnOrder(l[m], o, o);
      }
    }
    assert Free(l, l[k]);
    if i != k {
      OlderIsAnOrder(l[k], l[i], l[i]);
      assert GoesFirst(l[k], l[i]);
    }
  }

  // ----- admission over time -----

  lemma {:induction false} NoneAhead(l: seq<Item>, ia: Item)
    ensures FirstAhead(l, ia) == None <==> Free(l, ia)
  {
    if l != [] {
      NoneAhead(l[1..], ia);
      assert forall o :: o in l <==> o == l[0] || o in l[1..];
    }
  }

  /** f is what admission reads of ia when the list of requests is l. */
  predicate ReadsList(f: Requests.Facts, l: seq<Item>, ia: Item) {
    && f.created == ia.created
    && f.busy == if FirstAhead(l, ia).Some? then Found(FirstAhead(l, ia).value) else Missing
  }

  /** A request that reads l is admitted exactly when no request of l goes first and admission would let it pass alone. */
  lemma AdmittedAmong(f: Requests.Facts, l: seq<Item>, ia: Item)
    requires ReadsList(f, l, ia)
    ensures Admission(f).Admit? <==> Free(l, ia) && Admission(f.(busy := Missing)).Admit?
    ensures !Free(l, ia) ==> Admission(f).Refuse? || Admission(f).Retry?
  {
    NoneAhead(l, ia);
    AdmittedExactly(f);
    AdmittedExactly(f.(busy := Missing));
  }

  /** admitted is whether the request passed admission. */
  datatype Tracked = Tracked(item: Item, admitted: bool)

  datatype Act =
    | Create(item: Item)
    | Decide(i: nat, facts: Requests.Facts)
    | Move(i: nat, phase: ApplyPhase)
    | MarkDeleted(i: nat)
    | Remove(i: nat)

  function Items(s: seq<Tracked>): seq<Item> {
    seq(|s|, i requires 0 <= i < |s| => s[i].item)
  }

  /** Admission reads a fresh list; only an admitted request runs. */
  predicate Step(s: seq<Tracked>, a: Act, s': seq<Tracked>) {
    match a
    case Create(item) =>
      && item.phase == NoPhase && !item.deleted
      && (forall t :: t in s ==> t.item.uid != item.uid && t.item.name != item.name)
      && s' == s + [Tracked(item, false)]
    case Decide(i, facts) =>
      && i < |s| && s[i].item.phase == NoPhase && !s[i].item.deleted && ReadsList(facts, Items(s), s[i].item)
      && s' == if Admission(facts).Admit? then s[i := s[i].(admitted := true)] else s
    case Move(i, phase) =>
      && i < |s| && Rank(s[i].item.phase) < Rank(phase) && (phase == PodRunning ==> s[i].admitted)
      && s' == s[i := s[i].(item := s[i].item.(phase := phase))]
    case MarkDeleted(i) => i < |s| && s' == s[i := s[i].(item := s[i].item.(deleted := true))]
    case Remove(i) => i < |s| && !Unfinished(s[i].item) && s' == s[..i] + s[i + 1..]
  }

  predicate Contend(a: Tracked, b: Tracked) {
    a.item.incident == b.item.incident && Unfinished(a.item) && Unfinished(b.item)
  }

  /** A request admitted and still without its pod. */
  predicate Starting(t: Tracked) {
    t.admitted && Unfinished(t.item) && t.item.phase == NoPhase
  }

  /** A request is not created older than one for its incident that was admitted and has no pod yet. */
  predicate InOrder(s: seq<Tracked>, a: Act) {
    a.Create? ==> forall t :: t in s && Starting(t) && t.item.incident == a.item.incident ==> Older(t.item, a.item)
  }

  /** An admitted request is the only one of its incident, and runs or is the oldest. */
  predicate Inv(s: seq<Tracked>) {
    && Distinct(Items(s))
    && (forall i :: 0 <= i < |s| && s[i].item.phase == PodRunning ==> s[i].admitted)
    && (forall i, j :: 0 <= i < |s| && 0 <= j < |s| && i != j && Contend(s[i], s[j]) && s[i].admitted
                       ==> !s[j].admitted && (s[i].item.phase == PodRunning || Older(s[i].item, s[j].item)))
  }

  lemma DecideKeeps(s: seq<Tracked>, i: nat, facts: Requests.Facts, s': seq<Tracked>)
    requires Inv(s) && Step(s, Decide(i, facts), s')
    ensures Inv(s')
  {
    AdmittedAmong(facts, Items(s), s[i].item);
    if Admission(facts).Admit? {
      assert Items(s') == Items(s);
      forall j | 0 <= j < |s| && j != i && Contend(s[i], s[j]) ensures !s[j].admitted && Older(s[i].item, s[j].item) {
        assert Items(s)[j] == s[j].item && Items(s)[i] == s[i].item;
        assert s[j].item in Items(s) && !GoesFirst(s[j].item, s[i].item);
        assert s[j].item.uid != s[i].item.uid && s[j].item.name != s[i].item.name;
        OlderIsAnOrder(s[i].item, s[j].item, s[j].item);
      }
    }
  }

  lemma CreateKeeps(s: seq<Tracked>, item: Item, s': seq<Tracked>)
    requires Inv(s) && Step(s, Create(item), s') && InOrder(s, Create(item))
    ensures Inv(s')
  {
    var n := |s|;
    assert Items(s') == Items(s) + [item];
    forall i, j | 0 <= i <= n && 0 <= j <= n && i != j && Contend(s'[i], s'[j]) && s'[i].admitted
      ensures !s'[j].admitted && (s'[i].item.phase == PodRunning || Older(s'[i].item, s'[j].item))
    {
      assert i < n && s'[i] == s[i] && s[i] in s;
      assert j < n ==> s'[j] == s[j];
    }
  }

  lemma MoveKeeps(s: seq<Tracked>, i: nat, item: Item, s': seq<Tracked>)
    requires Inv(s) && i < |s| && s' == s[i := s[i].(item := item)]
    requires item.uid == s[i].item.uid && item.name == s[i].item.name && item.created == s[i].item.created
    requires item.incident == s[i].item.incident && (Unfinished(item) ==> Unfinished(s[i].item))
    requires item.phase == PodRunning ==> s[i].admitted
    requires s[i].item.phase == PodRunning ==> item.phase == PodRunning || Terminal(item.phase)
    ensures Inv(s')
  {
    forall a, b | 0 <= a < b < |s| ensures Items(s')[a].uid != Items(s')[b].uid && Items(s')[a].name != Items(s')[b].name {
      assert Items(s)[a].uid != Items(s)[b].uid && Items(s)[a].name != Items(s)[b].name;
    }
    forall a, b | 0 <= a < |s| && 0 <= b < |s| && a != b && Contend(s'[a], s'[b]) && s'[a].admitted
      ensures !s'[b].admitted && (s'[a].item.phase == PodRunning || Older(s'[a].item, s'[b].item))
    {
      assert Contend(s[a], s[b]) && s[a].admitted;
    }
  }

  lemma RemoveKeeps(s: seq<Tracked>, i: nat, s': seq<Tracked>)
    requires Inv(s) && i < |s| && s' == s[..i] + s[i + 1..]
    ensures Inv(s')
  {
    assert forall a :: 0 <= a < |s'| ==> s'[a] == s[if a < i then a else a + 1];
    forall a, b | 0 <= a < b < |s'| ensures Items(s')[a].uid != Items(s')[b].uid && Items(s')[a].name != Items(s')[b].name {
      var a', b' := if a < i then a else a + 1, if b < i then b else b + 1;
      assert Items(s)[a'].uid != Items(s)[b'].uid && Items(s)[a'].name != Items(s)[b'].name;
    }
  }

  lemma StepKeeps(s: seq<Tracked>, a: Act, s': seq<Tracked>)
    requires Inv(s) && Step(s, a, s') && InOrder(s, a)
    ensures Inv(s')
  {
    match a
    case Create(item) => CreateKeeps(s, item, s');
    case Decide(i, facts) => DecideKeeps(s, i, facts, s');
    case Move(i, phase) => MoveKeeps(s, i, s[i].item.(phase := phase), s');
    case MarkDeleted(i) => MoveKeeps(s, i, s[i].item.(deleted := true), s');
    case Remove(i) => RemoveKeeps(s, i, s');
  }

  predicate Behavior(ss: seq<seq<Tracked>>, acts: seq<Act>) {
    && |ss| == |acts| + 1 && ss[0] == []
    && forall k :: 0 <= k < |acts| ==> Step(ss[k], acts[k], ss[k + 1])
  }

  predicate CreatedInOrder(ss: seq<seq<Tracked>>, acts: seq<Act>)
    requires Behavior(ss, acts)
  {
    forall k :: 0 <= k < |acts| ==> InOrder(ss[k], acts[k])
  }

  lemma {:induction false} AlwaysInv(ss: seq<seq<Tracked>>, acts: seq<Act>, k: nat)
    requires Behavior(ss, acts) && CreatedInOrder(ss, acts) && k < |ss|
    ensures Inv(ss[k])
  {
    if k > 0 {
      AlwaysInv(ss, acts, k - 1);
      StepKeeps(ss[k - 1], acts[k - 1], ss[k]);
    }
  }

  /**
    While no request is created older than one admitted and still starting, no reachable state has two
    unfinished requests for one incident that both passed admission.
   */
  lemma AtMostOneAdmitted(ss: seq<seq<Tracked>>, acts: seq<Act>, k: nat, i: nat, j: nat)
    requires Behavior(ss, acts) && CreatedInOrder(ss, acts) && k < |ss| && i < |ss[k]| && j < |ss[k]|
    requires Contend(ss[k][i], ss[k][j]) && ss[k][i].admitted && ss[k][j].admitted
    ensures i == j
  {
    AlwaysInv(ss, acts, k);
  }

  /** Creation stamps never go back, and within a second names increase. */
  predicate StampsInOrder(s: seq<Tracked>, a: Act) {
    a.Create? ==> forall t :: t in s ==>
      t.item.created < a.item.created || (t.item.created == a.item.created && Less(t.item.name, a.item.name))
  }

  /** So in a run whose creation stamps never go back, at most one unfinished request for an incident has passed admission. */
  lemma AtMostOneInStampOrder(ss: seq<seq<Tracked>>, acts: seq<Act>, k: nat, i: nat, j: nat)
    requires Behavior(ss, acts) && forall m :: 0 <= m < |acts| ==> StampsInOrder(ss[m], acts[m])
    requires k < |ss| && i < |ss[k]| && j < |ss[k]|
    requires Contend(ss[k][i], ss[k][j]) && ss[k][i].admitted && ss[k][j].admitted
    ensures i == j
  {
    forall m | 0 <= m < |acts| ensures InOrder(ss[m], acts[m]) {
      assert StampsInOrder(ss[m], acts[m]);
    }
    AtMostOneAdmitted(ss, acts, k, i, j);
  }

  /**
    The order is exactly what is needed: a request created beside one that was admitted and is still
    starting is free to be admitted too if and only if it is older than it.
   */
  lemma FreeBesideAStartingOne(s: seq<Tracked>, i: nat, item: Item, s': seq<Tracked>)
    requires Inv(s) && Step(s, Create(item), s')
    requires i < |s| && Starting(s[i]) && s[i].item.incident == item.incident
    ensures Free(Items(s'), item) <==> Older(item, s[i].item)
  {
    var t := s[i].item;
    assert Items(s') == Items(s) + [item] && Items(s)[i] == t && s[i] in s;
    OlderIsAnOrder(t, item, item);
    if Older(item, t) {
      forall o | o in Items(s') ensures !GoesFirst(o, item) {
        if o != item {
          var j :| 0 <= j < |s| && s[j].item == o;
          if j != i && Contend(s[i], s[j]) {
            OlderIsAnOrder(item, t, o);
            OlderIsAnOrder(item, o, item);
          }
        }
      }
    } else {
      assert t in Items(s') && GoesFirst(t, item);
    }
  }

  const EARLIER := Tracked(Item("1", "b", SECOND, "incident", NoPhase, false), false)
  const LATER := Tracked(Item("2", "a", SECOND, "incident", NoPhase, false), false)

  /** An Open incident with an apply script, a user who may patch it, no request ahead. */
  const PASSING := Requests.Facts(
    true, SECOND, Found(0), Found(0), Found(BLANK.(state := Open, howToFix := Some(HowToFix("p", "a", "v")))),
    Missing, Found(()), Found(()))

  function Admitted(t: Tracked): Tracked {
    t.(admitted := true)
  }

  function Running(t: Tracked): Tracked {
    t.(item := t.item.(phase := PodRunning), admitted := true)
  }

  lemma BothAdmitted()
    ensures Step([], Create(EARLIER.item), [EARLIER])
    ensures Step([EARLIER], Decide(0, PASSING), [Admitted(EARLIER)])
    ensures Step([Admitted(EARLIER)], Create(LATER.item), [Admitted(EARLIER), LATER])
    ensures Step([Admitted(EARLIER), LATER], Decide(1, PASSING), [Admitted(EARLIER), Admitted(LATER)])
  {
    assert Items([EARLIER]) == [EARLIER.item];
    assert Items([Admitted(EARLIER), LATER]) == [EARLIER.item, LATER.item];
    assert Free([EARLIER.item], EARLIER.item);
    OlderIsAnOrder(LATER.item, EARLIER.item, LATER.item);
    assert Free([EARLIER.item, LATER.item], LATER.item);
    NoneAhead([EARLIER.item], EARLIER.item);
    NoneAhead([EARLIER.item, LATER.item], LATER.item);
    assert [EARLIER][0 := Admitted(EARLIER)] == [Admitted(EARLIER)];
    assert [Admitted(EARLIER), LATER][1 := Admitted(LATER)] == [Admitted(EARLIER), Admitted(LATER)];
  }

  lemma BothRun()
    ensures Step([Admitted(EARLIER), Admitted(LATER)], Move(0, PodRunning), [Running(EARLIER), Admitted(LATER)])
    ensures Step([Running(EARLIER), Admitted(LATER)], Move(1, PodRunning), [Running(EARLIER), Running(LATER)])
  {
  }

  lemma Grown(ss: seq<seq<Tracked>>, acts: seq<Act>, a: Act, s': seq<Tracked>)
    returns (ss': seq<seq<Tracked>>, acts': seq<Act>)
    requires Behavior(ss, acts) && Step(ss[|ss| - 1], a, s')
    ensures Behavior(ss', acts') && ss'[|ss'| - 1] == s'
  {
    ss', acts' := ss + [s'], acts + [a];
  }

  predicate BothRunning(s: seq<Tracked>) {
    && |s| == 2 && Contend(s[0], s[1]) && s[0].item.created == s[1].item.created
    && forall t :: t in s ==> t.admitted && t.item.phase == PodRunning
  }

  /** The order is needed: of two requests of one second, the later with the smaller name, both are admitted and both run. */
  lemma SameSecondBothAdmitted()
    ensures exists ss, acts :: Behavior(ss, acts) && BothRunning(ss[|ss| - 1])
  {
    BothAdmitted();
    BothRun();
    var ss, acts := [[]], [];
    assert Behavior(ss, acts);
    ss, acts := Grown(ss, acts, Create(EARLIER.item), [EARLIER]);
    ss, acts := Grown(ss, acts, Decide(0, PASSING), [Admitted(EARLIER)]);
    ss, acts := Grown(ss, acts, Create(LATER.item), [Admitted(EARLIER), LATER]);
    ss, acts := Grown(ss, acts, Decide(1, PASSING), [Admitted(EARLIER), Admitted(LATER)]);
    ss, acts := Grown(ss, acts, Move(0, PodRunning), [Running(EARLIER), Admitted(LATER)]);
    ss, acts := Grown(ss, acts, Move(1, PodRunning), [Running(EARLIER), Running(LATER)]);
  }
}
