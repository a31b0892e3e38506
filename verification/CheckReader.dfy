/** The rules of the check-reader role, rewritten from discovery. */
module CheckReader {
  import opened Options
  import opened Names

  datatype Resource = Resource(name: string, verbs: seq<string>)

  datatype ResourceList = ResourceList(groupVersion: string, resources: seq<Resource>)

  datatype Rule = Rule(apiGroups: seq<string>, resources: seq<string>, verbs: seq<string>)

  /** A resource of an API group. */
  type Fact = (string, string)

  const VERBS := ["get", "list", "watch"]

  // ----- what discovery says -----

  predicate Excluded(name: string) {
    name == "secrets"
  }

  function Slashes(s: string): nat {
    if s == [] then 0 else (if s[0] == '/' then 1 else 0) + Slashes(s[1..])
  }

  function BeforeSlash(s: string): string {
    if s == [] || s[0] == '/' then [] else [s[0]] + BeforeSlash(s[1..])
  }

  /** The group of a group/version; None when it does not parse. */
  function GroupOf(gv: string): Option<string> {
    if gv == "" || gv == "/" || Slashes(gv) == 0 then Some("")
    else if Slashes(gv) == 1 then Some(BeforeSlash(gv))
    else None
  }

  lemma {:induction false} SlashesIn(a: string, b: string)
    ensures Slashes(a + b) == Slashes(a) + Slashes(b)
    ensures Slashes(a) == 0 <==> '/' !in a
    ensures '/' !in a ==> BeforeSlash(a + "/" + b) == a
    decreases a
  {
    if a == [] {
      assert a + b == b && a + "/" + b == "/" + b;
    } else {
      assert (a + b)[1..] == a[1..] + b && (a + "/" + b)[1..] == a[1..] + "/" + b;
      SlashesIn(a[1..], b);
    }
  }

  lemma OneSlash(g: string, v: string)
    requires '/' !in g
    ensures Slashes(g + "/" + v) == 1 + Slashes(v) && BeforeSlash(g + "/" + v) == g
  {
    SlashesIn(g, "/" + v);
    SlashesIn("/", v);
    SlashesIn(g, v);
    assert g + ("/" + v) == g + "/" + v && "/"[1..] == "";
  }

  lemma SlashesCount(v: string)
    ensures Slashes(v) == 0 <==> '/' !in v
  {
    SlashesIn(v, "");
  }

  /** The group of g/v is g; a version alone is of the core group; with more than one slash it does not parse. */
  lemma GroupExactly(g: string, v: string)
    requires '/' !in g
    ensures '/' !in v ==> GroupOf(g + "/" + v) == Some(g) && GroupOf(v) == Some("")
    ensures '/' in v ==> GroupOf(g + "/" + v) == None
  {
    OneSlash(g, v);
    SlashesCount(v);
    assert |g + "/" + v| == |g| + 1 + |v|;
  }

  /** Either verb is enough, and no other is. */
  lemma ReadableExactly(r: Resource)
    ensures Readable(r) <==>
              && '/' !in r.name && r.name != "secrets"
              && exists v :: v in r.verbs && (v == "get" || v == "list")
  {
  }

  predicate Readable(r: Resource) {
    '/' !in r.name && !Excluded(r.name) && ("get" in r.verbs || "list" in r.verbs)
  }

  function ResourceFacts(g: string, rs: seq<Resource>): set<Fact> {
    set r | r in rs && Readable(r) :: (g, r.name)
  }

  /** What one list grants; a nil list and one whose group does not parse grant nothing. */
  function ListFacts(l: Option<ResourceList>): set<Fact> {
    if l.None? || GroupOf(l.value.groupVersion).None? then {}
    else ResourceFacts(GroupOf(l.value.groupVersion).value, l.value.resources)
  }

  function Facts(lists: seq<Option<ResourceList>>): set<Fact> {
    set l, f | l in lists && f in ListFacts(l) :: f
  }

  // ----- what rules grant -----

  function RuleFacts(rules: seq<Rule>): set<Fact> {
    set r, g, x | r in rules && g in r.apiGroups && x in r.resources :: (g, x)
  }

  predicate Increasing(s: seq<string>) {
    forall i, j :: 0 <= i < j < |s| ==> Less(s[i], s[j])
  }

  /** One rule a group, with the three verbs; groups, and each group's resources, strictly increasing. */
  predicate Canonical(rules: seq<Rule>) {
    && (forall i :: 0 <= i < |rules| ==>
          && |rules[i].apiGroups| == 1 && rules[i].verbs == VERBS
          && rules[i].resources != [] && Increasing(rules[i].resources))
    && (forall i, j :: 0 <= i < j < |rules| ==> Less(rules[i].apiGroups[0], rules[j].apiGroups[0]))
  }

  // ----- canonical rules are determined by what they grant -----

  lemma IncreasingHead(s: seq<string>)
    requires Increasing(s) && s != []
    ensures s[0] !in s[1..] && Increasing(s[1..])
    ensures forall x :: x in s[1..] ==> Less(s[0], x)
  {
    forall x | x in s[1..] ensures Less(s[0], x) {
      var i :| 0 <= i < |s[1..]| && s[1..][i] == x;
      assert s[i + 1] == x;
    }
    LessIrreflexive(s[0]);
  }

  lemma HasAName(s: seq<string>)
    ensures s != [] ==> exists x :: x in s
  {
    if s != [] {
      assert s[0] in s;
    }
  }

  /** Strictly increasing sequences with the same elements are the same. */
  lemma {:induction false} IncreasingUnique(s: seq<string>, t: seq<string>)
    requires Increasing(s) && Increasing(t) && (forall x :: x in s <==> x in t)
    ensures s == t
    decreases s
  {
    if s == [] {
      HasAName(t);
    } else {
      assert s[0] in t;
      IncreasingHead(s);
      IncreasingHead(t);
      if s[0] != t[0] {
        assert t[0] in s;
        assert s[0] in t[1..] && t[0] in s[1..];
        LessAsymmetric(s[0], t[0]);
      }
      forall x ensures x in s[1..] <==> x in t[1..] {
        assert x in s <==> x == s[0] || x in s[1..];
        assert x in t <==> x == t[0] || x in t[1..];
      }
      IncreasingUnique(s[1..], t[1..]);
      assert s == [s[0]] + s[1..] && t == [t[0]] + t[1..];
    }
  }

  function Groups(rules: seq<Rule>): seq<string>
    requires Canonical(rules)
  {
    seq(|rules|, i requires 0 <= i < |rules| => rules[i].apiGroups[0])
  }

  lemma GroupFacts(rules: seq<Rule>, i: nat, x: string)
    requires Canonical(rules) && i < |rules|
    ensures x in rules[i].resources <==> (Groups(rules)[i], x) in RuleFacts(rules)
  {
    var g := Groups(rules)[i];
    if (g, x) in RuleFacts(rules) {
      var r :| r in rules && g in r.apiGroups && x in r.resources;
      var j :| 0 <= j < |rules| && rules[j] == r;
      assert r.apiGroups[0] == g;
      if i != j {
        LessIrreflexive(g);
      }
    }
    assert rules[i] in rules && g in rules[i].apiGroups;
  }

  lemma GroupHasFact(rules: seq<Rule>, g: string)
    requires Canonical(rules)
    ensures g in Groups(rules) <==> exists x :: (g, x) in RuleFacts(rules)
  {
    if g in Groups(rules) {
      var i :| 0 <= i < |rules| && Groups(rules)[i] == g;
      GroupFacts(rules, i, rules[i].resources[0]);
    }
    if x :| (g, x) in RuleFacts(rules) {
      var r :| r in rules && g in r.apiGroups && x in r.resources;
      var i :| 0 <= i < |rules| && rules[i] == r;
      assert r.apiGroups[0] == g && Groups(rules)[i] == g;
    }
  }

  /** Two canonical rule sequences that grant the same are equal. */
  lemma CanonicalUnique(a: seq<Rule>, b: seq<Rule>)
    requires Canonical(a) && Canonical(b) && RuleFacts(a) == RuleFacts(b)
    ensures a == b
  {
    forall g ensures g in Groups(a) <==> g in Groups(b) {
      GroupHasFact(a, g);
      GroupHasFact(b, g);
    }
    IncreasingUnique(Groups(a), Groups(b));
    forall i | 0 <= i < |a| ensures a[i] == b[i] {
      assert Groups(a)[i] == Groups(b)[i];
      forall x ensures x in a[i].resources <==> x in b[i].resources {
        GroupFacts(a, i, x);
        GroupFacts(b, i, x);
      }
      IncreasingUnique(a[i].resources, b[i].resources);
      assert a[i].apiGroups == [Groups(a)[i]] && b[i].apiGroups == [Groups(b)[i]];
    }
  }

  /** The facts of a discovery result do not depend on its order, repetitions, or split into lists. */
  lemma SameFacts(a: seq<Option<ResourceList>>, b: seq<Option<ResourceList>>)
    requires forall l :: l in a ==> ListFacts(l) <= Facts(b)
    requires forall l :: l in b ==> ListFacts(l) <= Facts(a)
    ensures Facts(a) == Facts(b)
  {
  }

  // ----- the methods -----

  /** No resource twice, and none of a group without one. */
  predicate Listing(byGroup: map<string, seq<string>>) {
    forall g :: g in byGroup ==>
      byGroup[g] != [] && forall i, j :: 0 <= i < j < |byGroup[g]| ==> byGroup[g][i] != byGroup[g][j]
  }

  /** byGroup holds exactly the facts fs. */
  predicate Holds(byGroup: map<string, seq<string>>, fs: set<Fact>) {
    && (forall g, x :: g in byGroup && x in byGroup[g] ==> (g, x) in fs)
    && (forall f :: f in fs ==> f.0 in byGroup && f.1 in byGroup[f.0])
  }

  method Add(byGroup: map<string, seq<string>>, g: string, x: string, ghost fs: set<Fact>)
    returns (r: map<string, seq<string>>)
    requires Listing(byGroup) && Holds(byGroup, fs)
    ensures Listing(r) && Holds(r, fs + {(g, x)})
  {
    var had := if g in byGroup then byGroup[g] else [];
    if x in had {
      return byGroup;
    }
    r := byGroup[g := had + [x]];
    assert forall y :: y in had + [x] <==> y in had || y == x;
  }

  method SortNames(names: seq<string>) returns (s: seq<string>)
    requires forall i, j :: 0 <= i < j < |names| ==> names[i] != names[j]
    ensures Increasing(s)
    ensures forall x :: x in s <==> x in names
  {
    s := [];
    for i := 0 to |names|
      invariant Increasing(s)
      invariant forall x :: x in s <==> x in names[..i]
    {
      assert names[..i + 1] == names[..i] + [names[i]];
      assert names[i] !in names[..i];
      s := InsertName(s, names[i]);
    }
    assert names[..|names|] == names;
  }

  method InsertName(s: seq<string>, x: string) returns (r: seq<string>)
    requires Increasing(s) && x !in s
    ensures Increasing(r)
    ensures forall y :: y in r <==> y == x || y in s
  {
    var k := 0;
    while k < |s| && Less(s[k], x)
      invariant 0 <= k <= |s|
      invariant forall j :: 0 <= j < k ==> Less(s[j], x)
    {
      k := k + 1;
    }
    forall j | k <= j < |s| ensures Less(x, s[j]) {
      LessTotal(s[k], x);
      assert s[k] in s;
      if j > k {
        LessTransitive(x, s[k], s[j]);
      }
    }
    assert s == s[..k] + s[k..];
    r := s[..k] + [x] + s[k..];
  }

  /** The rules of a listing, whatever order its map is read in. */
  method Sorted(byGroup: map<string, seq<string>>, ghost fs: set<Fact>) returns (rules: seq<Rule>)
    requires Listing(byGroup) && Holds(byGroup, fs)
    ensures Canonical(rules) && RuleFacts(rules) == fs
  {
    var names, left: set<string> := [], byGroup.Keys;
    while left != {}
      invariant left <= byGroup.Keys
      invariant forall g :: g in names <==> g in byGroup && g !in left
      invariant forall i, j :: 0 <= i < j < |names| ==> names[i] != names[j]
      decreases left
    {
      var g :| g in left;
      names, left := names + [g], left - {g};
    }
    var groups := SortNames(names);
    rules := [];
    for i := 0 to |groups|
      invariant |rules| == i
      invariant forall k :: 0 <= k < i ==> RuleOf(rules[k], groups[k], byGroup)
    {
      assert groups[i] in byGroup;
      var resources := SortNames(byGroup[groups[i]]);
      assert byGroup[groups[i]][0] in resources;
      rules := rules + [Rule([groups[i]], resources, VERBS)];
    }
    SortedFacts(rules, groups, byGroup, fs);
  }

  ghost predicate RuleOf(r: Rule, g: string, byGroup: map<string, seq<string>>) {
    && r.apiGroups == [g] && r.verbs == VERBS && r.resources != [] && Increasing(r.resources)
    && g in byGroup && (forall x :: x in r.resources <==> x in byGroup[g])
  }

  lemma SortedFacts(rules: seq<Rule>, groups: seq<string>, byGroup: map<string, seq<string>>, fs: set<Fact>)
    requires Holds(byGroup, fs) && |rules| == |groups| && Increasing(groups)
    requires forall g :: g in groups <==> g in byGroup
    requires forall k :: 0 <= k < |rules| ==> RuleOf(rules[k], groups[k], byGroup)
    ensures Canonical(rules) && RuleFacts(rules) == fs
  {
    forall f | f in fs ensures f in RuleFacts(rules) {
      var k :| 0 <= k < |groups| && groups[k] == f.0;
      assert RuleOf(rules[k], f.0, byGroup) && rules[k] in rules && f.0 in rules[k].apiGroups;
    }
    forall f | f in RuleFacts(rules) ensures f in fs {
      var r :| r in rules && f.0 in r.apiGroups && f.1 in r.resources;
      var k :| 0 <= k < |rules| && rules[k] == r;
      assert RuleOf(rules[k], groups[k], byGroup);
    }
  }

  lemma FactsSnoc(lists: seq<Option<ResourceList>>, i: nat)
    requires i < |lists|
    ensures Facts(lists[..i + 1]) == Facts(lists[..i]) + ListFacts(lists[i])
  {
    assert lists[..i + 1] == lists[..i] + [lists[i]];
  }

  lemma ResourceFactsSnoc(g: string, rs: seq<Resource>, j: nat)
    requires j < |rs|
    ensures ResourceFacts(g, rs[..j + 1]) == ResourceFacts(g, rs[..j]) + if Readable(rs[j]) then {(g, rs[j].name)} else {}
  {
    assert rs[..j + 1] == rs[..j] + [rs[j]];
  }

  /** Rules grants exactly the readable facts, canonically. */
  method Rules(lists: seq<Option<ResourceList>>) returns (rules: seq<Rule>)
    ensures Canonical(rules) && RuleFacts(rules) == Facts(lists)
  {
    var byGroup: map<string, seq<string>> := map[];
    for i := 0 to |lists|
      invariant Listing(byGroup) && Holds(byGroup, Facts(lists[..i]))
    {
      var l := lists[i];
      FactsSnoc(lists, i);
      if l.None? || GroupOf(l.value.groupVersion).None? {
        continue;
      }
      var g, rs := GroupOf(l.value.groupVersion).value, l.value.resources;
      for j := 0 to |rs|
        invariant Listing(byGroup) && Holds(byGroup, Facts(lists[..i]) + ResourceFacts(g, rs[..j]))
      {
        ResourceFactsSnoc(g, rs, j);
        if !Readable(rs[j]) {
          continue;
        }
        ghost var fs := Facts(lists[..i]) + ResourceFacts(g, rs[..j]);
        assert Facts(lists[..i]) + ResourceFacts(g, rs[..j + 1]) == fs + {(g, rs[j].name)};
        byGroup := Add(byGroup, g, rs[j].name, fs);
      }
      assert rs[..|rs|] == rs;
    }
    assert lists[..|lists|] == lists;
    rules := Sorted(byGroup, Facts(lists));
  }

  // ----- keeping the rules of a group discovery failed to read -----

  predicate Discovered(fs: set<Fact>, g: string) {
    exists f :: f in fs && f.0 == g
  }

  /** What the current rules keep: the facts of failed groups with no discovered version, Secrets excepted. */
  function Kept(fs: set<Fact>, current: seq<Rule>, failed: seq<string>): set<Fact> {
    set f | f in RuleFacts(current) && f.0 in failed && !Discovered(fs, f.0) && !Excluded(f.1)
  }

  /** The part of Kept in groups gs and resources xs. */
  function KeptOf(fs: set<Fact>, gs: seq<string>, xs: seq<string>, failed: seq<string>): set<Fact> {
    set g, x | g in gs && x in xs && g in failed && !Discovered(fs, g) && !Excluded(x) :: (g, x)
  }

  lemma KeptSnoc(fs: set<Fact>, current: seq<Rule>, r: Rule, failed: seq<string>)
    ensures Kept(fs, current + [r], failed) == Kept(fs, current, failed) + KeptOf(fs, r.apiGroups, r.resources, failed)
  {
    assert RuleFacts(current + [r]) == RuleFacts(current) + set g, x | g in r.apiGroups && x in r.resources :: (g, x);
  }

  lemma WantHeld(want: seq<Rule>, byGroup: map<string, seq<string>>)
    requires Canonical(want)
    requires forall g :: g in byGroup <==> g in Groups(want)
    requires forall k :: 0 <= k < |want| ==> Groups(want)[k] in byGroup && byGroup[Groups(want)[k]] == want[k].resources
    ensures Listing(byGroup) && Holds(byGroup, RuleFacts(want))
  {
    forall g | g in byGroup
      ensures byGroup[g] != [] && Increasing(byGroup[g])
      ensures forall x :: x in byGroup[g] <==> (g, x) in RuleFacts(want)
    {
      var k :| 0 <= k < |want| && Groups(want)[k] == g;
      forall x ensures x in byGroup[g] <==> (g, x) in RuleFacts(want) {
        GroupFacts(want, k, x);
      }
    }
    forall g, i, j | g in byGroup && 0 <= i < j < |byGroup[g]| ensures byGroup[g][i] != byGroup[g][j] {
      LessIrreflexive(byGroup[g][i]);
    }
    forall f | f in RuleFacts(want) ensures f.0 in byGroup {
      GroupHasFact(want, f.0);
      assert (f.0, f.1) in RuleFacts(want);
    }
  }

  method Copy(want: seq<Rule>) returns (byGroup: map<string, seq<string>>)
    requires Canonical(want)
    ensures Listing(byGroup) && Holds(byGroup, RuleFacts(want))
  {
    byGroup := map[];
    ghost var groups := Groups(want);
    for i := 0 to |want|
      invariant forall g :: g in byGroup <==> g in groups[..i]
      invariant forall k :: 0 <= k < i ==> groups[k] in byGroup && byGroup[groups[k]] == want[k].resources
    {
      assert groups[..i + 1] == groups[..i] + [groups[i]];
      LessIrreflexive(groups[i]);
      byGroup := byGroup[want[i].apiGroups[0] := want[i].resources];
    }
    assert groups[..|want|] == groups;
    WantHeld(want, byGroup);
  }

  method KeepResources(byGroup: map<string, seq<string>>, g: string, xs: seq<string>, failed: seq<string>,
                       ghost fs: set<Fact>, ghost held: set<Fact>)
    returns (r: map<string, seq<string>>)
    requires Listing(byGroup) && Holds(byGroup, held) && g in failed && !Discovered(fs, g)
    ensures Listing(r) && Holds(r, held + KeptOf(fs, [g], xs, failed))
  {
    r := byGroup;
    for i := 0 to |xs|
      invariant Listing(r) && Holds(r, held + KeptOf(fs, [g], xs[..i], failed))
    {
      assert xs[..i + 1] == xs[..i] + [xs[i]];
      ghost var before := held + KeptOf(fs, [g], xs[..i], failed);
      if Excluded(xs[i]) {
        assert KeptOf(fs, [g], xs[..i + 1], failed) == KeptOf(fs, [g], xs[..i], failed);
        continue;
      }
      assert held + KeptOf(fs, [g], xs[..i + 1], failed) == before + {(g, xs[i])};
      r := Add(r, g, xs[i], before);
    }
    assert xs[..|xs|] == xs;
  }

  method KeepRule(want: seq<Rule>, rule: Rule, failed: seq<string>, byGroup: map<string, seq<string>>, ghost held: set<Fact>)
    returns (r: map<string, seq<string>>)
    requires Canonical(want) && Listing(byGroup) && Holds(byGroup, held)
    ensures Listing(r) && Holds(r, held + KeptOf(RuleFacts(want), rule.apiGroups, rule.resources, failed))
  {
    ghost var fs := RuleFacts(want);
    var gs := rule.apiGroups;
    r := byGroup;
    for i := 0 to |gs|
      invariant Listing(r) && Holds(r, held + KeptOf(fs, gs[..i], rule.resources, failed))
    {
      assert gs[..i + 1] == gs[..i] + [gs[i]];
      assert KeptOf(fs, gs[..i + 1], rule.resources, failed)
          == KeptOf(fs, gs[..i], rule.resources, failed) + KeptOf(fs, [gs[i]], rule.resources, failed);
      DiscoveredExactly(want, gs[i]);
      if (exists w :: w in want && w.apiGroups[0] == gs[i]) || gs[i] !in failed {
        continue;
      }
      r := KeepResources(r, gs[i], rule.resources, failed, fs, held + KeptOf(fs, gs[..i], rule.resources, failed));
      assert held + KeptOf(fs, gs[..i], rule.resources, failed) + KeptOf(fs, [gs[i]], rule.resources, failed)
          == held + KeptOf(fs, gs[..i + 1], rule.resources, failed);
    }
    assert gs[..|gs|] == gs;
  }

  lemma DiscoveredExactly(want: seq<Rule>, g: string)
    requires Canonical(want)
    ensures Discovered(RuleFacts(want), g) <==> exists w :: w in want && w.apiGroups[0] == g
  {
    GroupHasFact(want, g);
    if Discovered(RuleFacts(want), g) {
      var f :| f in RuleFacts(want) && f.0 == g;
      assert (g, f.1) in RuleFacts(want);
      var k :| 0 <= k < |want| && Groups(want)[k] == g;
      assert want[k] in want;
    }
    if w :| w in want && w.apiGroups[0] == g {
      var k :| 0 <= k < |want| && want[k] == w;
      assert Groups(want)[k] == g;
      var x :| (g, x) in RuleFacts(want);
      assert (g, x).0 == g;
    }
  }

  method WithKept(want: seq<Rule>, current: seq<Rule>, failed: seq<string>) returns (rules: seq<Rule>)
    requires Canonical(want)
    ensures Canonical(rules) && RuleFacts(rules) == RuleFacts(want) + Kept(RuleFacts(want), current, failed)
  {
    ghost var fs := RuleFacts(want);
    if failed == [] {
      assert Kept(fs, current, failed) == {};
      return want;
    }
    var byGroup := Copy(want);
    assert fs + Kept(fs, current[..0], failed) == fs;
    for i := 0 to |current|
      invariant Listing(byGroup) && Holds(byGroup, fs + Kept(fs, current[..i], failed))
    {
      assert current[..i + 1] == current[..i] + [current[i]];
      KeptSnoc(fs, current[..i], current[i], failed);
      byGroup := KeepRule(want, current[i], failed, byGroup, fs + Kept(fs, current[..i], failed));
      assert fs + Kept(fs, current[..i], failed) + KeptOf(fs, current[i].apiGroups, current[i].resources, failed)
          == fs + Kept(fs, current[..i + 1], failed);
    }
    assert current[..|current|] == current;
    rules := Sorted(byGroup, fs + Kept(fs, current, failed));
  }

  // ----- refreshes -----

  /** What discovery gave: everything, everything but some groups, or an error. failed may repeat a group. */
  datatype Discovery = Full(lists: seq<Option<ResourceList>>) | Partial(lists: seq<Option<ResourceList>>, failed: seq<string>) | NoAnswer

  function FailedGroups(d: Discovery): seq<string> {
    if d.Partial? then d.failed else []
  }

  /** What a role holding current is to grant after d. */
  function Wanted(d: Discovery, current: seq<Rule>): set<Fact>
    requires !d.NoAnswer?
  {
    Facts(d.lists) + Kept(Facts(d.lists), current, FailedGroups(d))
  }

  /** next is what a sync after d makes of a role holding current. */
  predicate Refreshed(d: Discovery, current: seq<Rule>, next: seq<Rule>) {
    if d.NoAnswer? then next == current else Canonical(next) && RuleFacts(next) == Wanted(d, current)
  }

  class Refresher {
    /** The rules of the role; None when it does not exist. */
    var role: Option<seq<Rule>>
    var writes: nat

    constructor (role: Option<seq<Rule>>)
      ensures this.role == role && writes == 0
    {
      this.role, writes := role, 0;
    }

    /** accepted is whether the API server takes the write. */
    method Sync(d: Discovery, accepted: bool) returns (ok: bool)
      modifies this
      ensures !ok ==> role == old(role) && writes == old(writes)
      ensures ok ==> old(role).Some? && role.Some? && !d.NoAnswer? && Refreshed(d, old(role).value, role.value)
      ensures ok ==> writes == old(writes) + if role == old(role) then 0 else 1
      ensures !d.NoAnswer? && old(role).Some? && accepted ==> ok
    {
      if d.NoAnswer? || role.None? {
        return false;
      }
      var discovered := Rules(d.lists);
      var want := WithKept(discovered, role.value, FailedGroups(d));
      if role.value == want {
        return true;
      }
      if !accepted {
        return false;
      }
      role, writes := Some(want), writes + 1;
      ok := true;
    }
  }

  /** Discovery answered d and e alike: the same facts and the same failed groups, in any order. */
  ghost predicate SameAnswer(d: Discovery, e: Discovery) {
    if d.NoAnswer? || e.NoAnswer? then d == e
    else
      && Facts(d.lists) == Facts(e.lists)
      && forall g :: g in FailedGroups(d) <==> g in FailedGroups(e)
  }

  /** What is granted is a function of the facts and the failed groups: two alike answers give the same rules. */
  lemma SameFactsSameRules(d: Discovery, e: Discovery, current: seq<Rule>, a: seq<Rule>, b: seq<Rule>)
    requires SameAnswer(d, e)
    requires Refreshed(d, current, a) && Refreshed(e, current, b)
    ensures a == b
  {
    if !d.NoAnswer? {
      CanonicalUnique(a, b);
    }
  }

  /** A second sync with an alike answer is a fixpoint: it computes the rules the role has, so it writes nothing. */
  lemma SecondSyncWritesNothing(d: Discovery, e: Discovery, current: seq<Rule>, once: seq<Rule>, twice: seq<Rule>)
    requires SameAnswer(d, e)
    requires Refreshed(d, current, once) && Refreshed(e, once, twice)
    ensures twice == once
  {
    if !d.NoAnswer? {
      var fs := Facts(d.lists);
      assert Kept(fs, once, FailedGroups(e)) == Kept(fs, current, FailedGroups(d));
      CanonicalUnique(once, twice);
    }
  }

  /** A resource the check pods may read: no Secrets and no subresource. */
  predicate Harmless(f: Fact) {
    !Excluded(f.1) && '/' !in f.1
  }

  /** A role written by nobody else, refreshed any number of times, each write taken or not. */
  predicate History(ds: seq<Discovery>, roles: seq<seq<Rule>>) {
    && |roles| == |ds| + 1 && roles[0] == []
    && forall i :: 0 <= i < |ds| ==> roles[i + 1] == roles[i] || Refreshed(ds[i], roles[i], roles[i + 1])
  }

  /** No refresh ever grants Secrets or a subresource. */
  lemma {:induction false} NothingHarmfulGranted(ds: seq<Discovery>, roles: seq<seq<Rule>>, i: nat, f: Fact)
    requires History(ds, roles) && i < |roles| && f in RuleFacts(roles[i])
    ensures Harmless(f)
  {
    if i > 0 {
      if f in RuleFacts(roles[i - 1]) {
        NothingHarmfulGranted(ds, roles, i - 1, f);
      } else {
        assert f in Facts(ds[i - 1].lists);
      }
    }
  }

  /** Exactly what a refresh grants in a group: what was discovered of it, or, when nothing was and it failed, what it had. */
  lemma GroupAfterRefresh(ds: seq<Discovery>, roles: seq<seq<Rule>>, i: nat, g: string, x: string)
    requires History(ds, roles) && i < |ds| && !ds[i].NoAnswer? && Refreshed(ds[i], roles[i], roles[i + 1])
    ensures var fs := Facts(ds[i].lists);
            (g, x) in RuleFacts(roles[i + 1]) <==>
              if Discovered(fs, g) then (g, x) in fs
              else g in FailedGroups(ds[i]) && (g, x) in RuleFacts(roles[i])
  {
    var fs := Facts(ds[i].lists);
    if (g, x) in fs {
      assert (g, x).0 == g;
    }
    if (g, x) in RuleFacts(roles[i]) {
      NothingHarmfulGranted(ds, roles, i, (g, x));
    }
  }

  /** A group with one failed and one discovered version does not keep its rules: what only the failed version served is lost. */
  lemma HalfFailedGroupLosesRules(d: Discovery, current: seq<Rule>, next: seq<Rule>, g: string, x: string)
    requires d.Partial? && g in d.failed && Discovered(Facts(d.lists), g)
    requires (g, x) in RuleFacts(current) && (g, x) !in Facts(d.lists) && Refreshed(d, current, next)
    ensures (g, x) !in RuleFacts(next)
  {
  }

  /** Whatever a role held, after a refresh it grants no Secrets, and only the verbs that read. */
  lemma RefreshedGrantsReads(d: Discovery, current: seq<Rule>, next: seq<Rule>, r: Rule)
    requires !d.NoAnswer? && Refreshed(d, current, next) && r in next
    ensures r.verbs == ["get", "list", "watch"] && |r.apiGroups| == 1 && "secrets" !in r.resources
  {
    var i :| 0 <= i < |next| && next[i] == r;
    forall x | x in r.resources ensures x != "secrets" {
      GroupFacts(next, i, x);
      assert (Groups(next)[i], x) in Wanted(d, current);
      if (Groups(next)[i], x) in Facts(d.lists) {
        FactsReadable(d.lists, (Groups(next)[i], x));
      }
    }
  }

  lemma FactsReadable(lists: seq<Option<ResourceList>>, f: Fact)
    requires f in Facts(lists)
    ensures f.1 != "secrets" && '/' !in f.1
  {
  }
}
