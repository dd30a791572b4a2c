/**
 * Preferences that are not strict (packages/shared/src/placement.ts): one that is corrected later may undo an
 * earlier one without a word, and this says exactly when.
 */
module PlacementPreferences {
  import opened Prelude
  import opened PlacementRules
  import opened PlacementPlanner
  import opened PlacementSafety

  predicate Soft(rule: Rule) {
    rule.enabled && rule.kind == PreferNodes && !rule.strict
  }

  /** The two share a guest, and each has a node that the other has not; a node without a name is never moved to. */
  ghost predicate Collide(rule: Rule, later: Rule) {
    && (exists v :: v in rule.vmids && v in later.vmids)
    && (exists a :: a in rule.nodes && a !in later.nodes)
    && (exists b :: b in later.nodes && b !in rule.nodes && b != "")
  }

  /** The rule holds where the plan ends, or is named among what could not be fixed. */
  ghost predicate HoldsOrNamed(rule: Rule, plan: Plan) {
    Holds(rule, plan.positions) || Named(plan.unresolved, rule.name)
  }

  // ---------------------------------------------------------------------------
  // Without a collision a preference is kept
  // ---------------------------------------------------------------------------

  /** A guest that leaves for a node of `later` had none of its nodes, so what it goes to is one of `rule`. */
  lemma LandingKeepsPreference(c: Cluster, plan: Plan, g: Guest, later: Rule, after: Plan, rule: Rule)
    requires Tracks(c, plan) && g.vmid in plan.positions && g.vmid in later.vmids
    requires Landed(c, plan, g, later.name, Some(set n | n in later.nodes), after)
    requires plan.positions[g.vmid] !in later.nodes
    requires rule.kind == PreferNodes && Holds(rule, plan.positions) && !Collide(rule, later)
    ensures Holds(rule, after.positions)
  {
    if g.vmid in rule.vmids {
      assert plan.positions[g.vmid] in rule.nodes;
    }
  }

  lemma {:induction false} MoveEachKeepsPreference(c: Cluster, plan: Plan, gs: seq<Guest>, later: Rule, rule: Rule)
    requires c.Valid() && Tracks(c, plan) && Known(c, gs) && forall g :: g in gs ==> g.vmid in later.vmids
    requires rule.kind == PreferNodes && Holds(rule, plan.positions) && !Collide(rule, later)
    ensures Holds(rule, MoveEach(c, plan, gs, later.name, Some(set n | n in later.nodes)).positions)
    decreases |gs|
  {
    if gs != [] {
      var g, only := gs[0], Some(set n | n in later.nodes);
      if plan.positions[g.vmid] in only.value {
        MoveEachKeepsPreference(c, plan, gs[1..], later, rule);
      } else {
        var next := MoveGuest(c, plan, g, later.name, only);
        MoveLandsOrIsRefused(c, plan, g, later.name, only);
        if next.unresolved == plan.unresolved {
          LandingKeepsPreference(c, plan, g, later, next, rule);
        }
        MoveEachKeepsPreference(c, next, gs[1..], later, rule);
      }
    }
  }

  lemma OfMembers(c: Cluster, positions: Positions, vmids: seq<int>)
    requires c.Valid() && positions.Keys == c.guests.Keys
    ensures forall g :: g in GuestsOf(c, Running(vmids, positions)) ==> g.vmid in vmids
  {
    var running := Running(vmids, positions);
    var gs := GuestsOf(c, running);
    assert forall i :: 0 <= i < |gs| ==> running[i] in running && gs[i].vmid == running[i];
  }

  lemma FixKeepsPreference(c: Cluster, plan: Plan, later: Rule, rule: Rule)
    requires c.Valid() && Tracks(c, plan) && later.kind == PreferNodes
    requires rule.kind == PreferNodes && Holds(rule, plan.positions) && !Collide(rule, later)
    ensures Holds(rule, Fix(c, plan, later).positions)
  {
    var running := Running(later.vmids, plan.positions);
    var gs := GuestsOf(c, running);
    GuestsOfKnown(c, running);
    OfMembers(c, plan.positions, later.vmids);
    MoveEachKeepsPreference(c, plan, gs, later, rule);
  }

  lemma {:induction false} FixAllKeepsPreference(c: Cluster, plan: Plan, fixes: seq<Rule>, rule: Rule)
    requires c.Valid() && Tracks(c, plan)
    requires forall r :: r in fixes ==> r.kind == PreferNodes && !Collide(rule, r)
    requires rule.kind == PreferNodes && Holds(rule, plan.positions)
    ensures Holds(rule, FixAll(c, plan, fixes).positions)
    decreases |fixes|
  {
    if fixes != [] {
      FixKeepsPreference(c, plan, fixes[0], rule);
      FixAllKeepsPreference(c, Fix(c, plan, fixes[0]), fixes[1..], rule);
    }
  }

  /** From the first soft rule on, all are. */
  ghost predicate SoftLast(rules: seq<Rule>) {
    forall i, j :: 0 <= i < j < |rules| && Soft(rules[i]) ==> Soft(rules[j])
  }

  /** Its turn come, a soft rule holds or is named, and so it ends when none of the rules left collides with it. */
  lemma TurnOfPreference(c: Cluster, plan: Plan, rule: Rule, rest: seq<Rule>)
    requires c.Valid() && Tracks(c, plan) && rule in c.rules && Soft(rule)
    requires forall r :: r in rest ==> r.kind == PreferNodes && !Collide(rule, r)
    ensures HoldsOrNamed(rule, FixAll(c, Fix(c, plan, rule), rest))
  {
    FixHoldsOrNames(c, plan, rule);
    if Holds(rule, Fix(c, plan, rule).positions) {
      FixAllKeepsPreference(c, Fix(c, plan, rule), rest, rule);
    }
  }

  lemma {:induction false} FixAllHoldsOrNamesSoft(c: Cluster, plan: Plan, fixes: seq<Rule>, i: nat)
    requires c.Valid() && Tracks(c, plan) && SoftLast(fixes) && forall r :: r in fixes ==> r in c.rules
    requires i < |Filter(fixes, Soft)|
    requires forall j :: i < j < |Filter(fixes, Soft)| ==> !Collide(Filter(fixes, Soft)[i], Filter(fixes, Soft)[j])
    ensures HoldsOrNamed(Filter(fixes, Soft)[i], FixAll(c, plan, fixes))
    decreases |fixes|
  {
    var next, soft, rest := Fix(c, plan, fixes[0]), Filter(fixes, Soft), Filter(fixes[1..], Soft);
    if Soft(fixes[0]) && i == 0 {
      SoftFromHere(fixes);
      assert soft == fixes;
      TurnOfPreference(c, plan, fixes[0], fixes[1..]);
    } else {
      var k := if Soft(fixes[0]) then i - 1 else i;
      assert soft[i - k..] == rest;
      forall j | k < j < |rest| ensures !Collide(rest[k], rest[j]) {
        assert rest[k] == soft[i] && rest[j] == soft[j + (i - k)];
      }
      FixAllHoldsOrNamesSoft(c, next, fixes[1..], k);
    }
  }

  lemma SoftFromHere(fixes: seq<Rule>)
    requires SoftLast(fixes) && fixes != [] && Soft(fixes[0])
    ensures Filter(fixes, Soft) == fixes && forall r :: r in fixes ==> r.kind == PreferNodes
  {
    forall r | r in fixes ensures Soft(r) {
      var k :| 0 <= k < |fixes| && fixes[k] == r;
      assert k == 0 || Soft(fixes[k]);
    }
    assert forall k :: 0 <= k < |fixes| ==> fixes[k] in fixes;
    FilterAll(fixes, Soft);
  }

  lemma {:induction false} OfEnabled(rules: seq<Rule>, p: Rule -> bool)
    requires forall r :: p(r) ==> r.enabled
    ensures Filter(Enabled(rules), p) == Filter(rules, p)
  {
    if rules != [] {
      OfEnabled(rules[1..], p);
      if rules[0].enabled {
        FilterFirst(rules[0], Enabled(rules[1..]), p);
      } else {
        assert [] + Enabled(rules[1..]) == Enabled(rules[1..]);
      }
    }
  }

  /** Soft rules are taken last, in the order given. */
  lemma SoftTakenInOrder(rules: seq<Rule>)
    ensures SoftLast(Sorted(rules)) && Filter(Sorted(rules), Soft) == Filter(rules, Soft)
  {
    RulesTakenInOrder(rules);
    assert Level(Enabled(rules), InOrder, Soft);
    StableSortKeepsOrder(Enabled(rules), InOrder, Soft);
    OfEnabled(rules, Soft);
    var sorted := Sorted(rules);
    forall i, j | 0 <= i < j < |sorted| && Soft(sorted[i]) ensures Soft(sorted[j]) {
      assert sorted[i] in sorted && sorted[j] in sorted;
      assert !Hard(sorted[i]);
    }
  }

  /**
   * Any cluster, any rules: a soft rule holds at the end or is named, unless a soft rule given after it collides
   * with it.
   */
  lemma PreferenceHoldsOrIsNamed(c: Cluster, free: Memory, i: nat)
    requires c.Valid() && free.Valid() && i < |Filter(c.rules, Soft)|
    requires forall j ::
      i < j < |Filter(c.rules, Soft)| ==> !Collide(Filter(c.rules, Soft)[i], Filter(c.rules, Soft)[j])
    ensures HoldsOrNamed(Filter(c.rules, Soft)[i], FinalPlan(c, free))
  {
    SoftTakenInOrder(c.rules);
    RulesTakenInOrder(c.rules);
    FixAllHoldsOrNamesSoft(c, StartPlan(c.guests, free), Sorted(c.rules), i);
  }

  // ---------------------------------------------------------------------------
  // With one it is undone
  // ---------------------------------------------------------------------------

  /** One guest, running. */
  function Lone(rules: seq<Rule>, g: Guest): Cluster {
    Cluster(rules, map[g.vmid := g])
  }

  predicate Naming(rule: Rule, v: int) {
    rule.enabled && v in rule.vmids
  }

  function NamingOf(v: int): Rule -> bool {
    r => Naming(r, v)
  }

  lemma {:induction false} NoneRunning(vmids: seq<int>, positions: Positions)
    requires forall v :: v in vmids ==> v !in positions
    ensures Running(vmids, positions) == []
  {
    if vmids != [] {
      var last := vmids[|vmids| - 1];
      assert last in vmids && last !in positions;
      NoneRunning(vmids[..|vmids| - 1], positions);
    }
  }

  lemma OthersDoNothing(c: Cluster, plan: Plan, rule: Rule, v: int)
    requires c.Valid() && Tracks(c, plan) && plan.positions.Keys == {v} && v !in rule.vmids
    ensures Fix(c, plan, rule) == plan
  {
    NoneRunning(rule.vmids, plan.positions);
  }

  lemma {:induction false} OnlyNamingMatter(c: Cluster, plan: Plan, fixes: seq<Rule>, v: int)
    requires c.Valid() && Tracks(c, plan) && plan.positions.Keys == {v} && forall r :: r in fixes ==> r.enabled
    ensures FixAll(c, plan, fixes) == FixAll(c, plan, Filter(fixes, NamingOf(v)))
    decreases |fixes|
  {
    var naming := NamingOf(v);
    if fixes != [] {
      assert fixes[0] in fixes;
      var rest := Filter(fixes[1..], naming);
      OnlyNamingMatter(c, Fix(c, plan, fixes[0]), fixes[1..], v);
      if naming(fixes[0]) {
        assert ([fixes[0]] + rest)[1..] == rest;
      } else {
        OthersDoNothing(c, plan, fixes[0], v);
      }
    }
  }

  /** A lone guest that none but soft rules name goes to the one node it may go to. */
  lemma LoneGuestGoes(c: Cluster, plan: Plan, g: Guest, name: string, only: set<string>, b: string)
    requires c == Lone(c.rules, g) && Tracks(c, plan) && !g.Blocked()
    requires forall r :: r in c.rules && Naming(r, g.vmid) ==> Soft(r)
    requires b in only && b != "" && b != plan.positions[g.vmid] && b in plan.free.vals && plan.free.vals[b] >= g.memory
    requires forall n :: n in plan.free.vals && n in only ==> n == b
    ensures MoveGuest(c, plan, g, name, Some(only)).positions == map[g.vmid := b]
    ensures MoveGuest(c, plan, g, name, Some(only)).unresolved == plan.unresolved
  {
    OnlyChoice(c, plan, g, only, b);
    MoveGuestLands(c, plan, g, name, Some(only), b, Reserved(RequestFor(c, plan, g, Some(only)), plan.free));
  }

  lemma OnlyChoice(c: Cluster, plan: Plan, g: Guest, only: set<string>, b: string)
    requires c == Lone(c.rules, g) && Tracks(c, plan) && !g.Blocked()
    requires forall r :: r in c.rules && Naming(r, g.vmid) ==> Soft(r)
    requires b in only && b != "" && b != plan.positions[g.vmid] && b in plan.free.vals && plan.free.vals[b] >= g.memory
    requires forall n :: n in plan.free.vals && n in only ==> n == b
    ensures Chosen(RequestFor(c, plan, g, Some(only)), plan.free) == Some(b)
  {
    var req := RequestFor(c, plan, g, Some(only));
    assert Eligible(req, plan.free, b);
    SomeEligibleIsChosen(req, plan.free, b);
    ChosenIsEligible(req, plan.free);
  }

  lemma SomeEligibleIsChosen(req: Request, free: Memory, node: string)
    requires free.Valid() && Eligible(req, free, node)
    ensures Chosen(req, free).Some?
  {
    BestIsBest(req, free, |free.keys|);
    var k :| 0 <= k < |free.keys| && free.keys[k] == node;
  }

  lemma LaterTakesOver(c: Cluster, plan: Plan, g: Guest, later: Rule, b: string)
    requires c == Lone(c.rules, g) && Tracks(c, plan) && !g.Blocked()
    requires forall r :: r in c.rules && Naming(r, g.vmid) ==> Soft(r)
    requires Soft(later) && g.vmid in later.vmids && plan.positions[g.vmid] !in later.nodes
    requires b in later.nodes && b != "" && b in plan.free.vals && plan.free.vals[b] >= g.memory
    requires forall n :: n in plan.free.vals && n in later.nodes ==> n == b
    ensures Fix(c, plan, later).positions == map[g.vmid := b] && Fix(c, plan, later).unresolved == plan.unresolved
  {
    var running, only := Running(later.vmids, plan.positions), set n | n in later.nodes;
    GuestsOfKnown(c, running);
    var gs := GuestsOf(c, running);
    assert g.vmid in running;
    assert gs[0] == g by { assert running[0] in running; }
    LoneGuestGoes(c, plan, g, later.name, only, b);
    var next := MoveGuest(c, plan, g, later.name, Some(only));
    assert gs[1..] == GuestsOf(c, running[1..]);
    GuestsOfKnown(c, running[1..]);
    AllStay(c, next, running[1..], later.name, only);
  }

  /**
   * Two colliding preferences, the only rules that name some guest, whatever other rules there are: with that guest
   * alone on a node of the first and room on one of the second, the first holds at the start, not at the end, and
   * nothing is said.
   */
  lemma CollisionUndoes(rules: seq<Rule>, rule: Rule, later: Rule, g: Guest, free: Memory, b: string)
    requires Soft(rule) && Soft(later) && Filter(rules, NamingOf(g.vmid)) == [rule, later]
    requires !g.Blocked() && g.node in rule.nodes && g.node !in later.nodes
    requires b in later.nodes && b !in rule.nodes && b != ""
    requires free.Valid() && b in free.vals && free.vals[b] >= g.memory && forall n ::
      n in free.vals && n in later.nodes ==> n == b
    ensures var c := Lone(rules, g);
            && Holds(rule, StartPositions(c.guests))
            && FinalPlan(c, free).positions == map[g.vmid := b] && FinalPlan(c, free).unresolved == []
            && !HoldsOrNamed(rule, FinalPlan(c, free))
  {
    var c := Lone(rules, g);
    var start := StartPlan(c.guests, free);
    NamedAreSoft(rules, rule, later, g.vmid);
    OnlyTwo(c, start, rule, later, g.vmid);
    FixLeavesAlone(c, start, rule);
    LaterTakesOver(c, start, g, later, b);
    OnAnotherNode(rule, g, b, FinalPlan(c, free));
  }

  lemma OnAnotherNode(rule: Rule, g: Guest, b: string, plan: Plan)
    requires Soft(rule) && g.vmid in rule.vmids && b !in rule.nodes
    requires plan.positions == map[g.vmid := b] && plan.unresolved == []
    ensures !HoldsOrNamed(rule, plan)
  {
  }

  lemma NamedAreSoft(rules: seq<Rule>, rule: Rule, later: Rule, v: int)
    requires Soft(rule) && Soft(later) && Filter(rules, NamingOf(v)) == [rule, later]
    ensures forall r :: r in rules && Naming(r, v) ==> Soft(r)
    ensures Naming(rule, v) && Naming(later, v)
  {
    forall r ensures r in rules && Naming(r, v) <==> r in [rule, later] {
      FilterElement(rules, NamingOf(v), r);
    }
    assert rule in [rule, later] && later in [rule, later];
  }

  lemma NamingLevel(rules: seq<Rule>, rule: Rule, later: Rule, v: int)
    requires Soft(rule) && Soft(later) && Filter(rules, NamingOf(v)) == [rule, later]
    ensures Filter(Sorted(rules), NamingOf(v)) == [rule, later]
  {
    var naming, enabled := NamingOf(v), Enabled(rules);
    OfEnabled(rules, naming);
    forall k | 0 <= k < |enabled| && naming(enabled[k]) ensures Soft(enabled[k]) {
      FilterElement(enabled, naming, enabled[k]);
    }
    assert Level(enabled, InOrder, naming);
    StableSortKeepsOrder(enabled, InOrder, naming);
  }

  lemma OnlyTwo(c: Cluster, start: Plan, rule: Rule, later: Rule, v: int)
    requires c.Valid() && Tracks(c, start) && start.positions.Keys == {v}
    requires Soft(rule) && Soft(later) && Filter(c.rules, NamingOf(v)) == [rule, later]
    ensures FixAll(c, start, Sorted(c.rules)) == Fix(c, Fix(c, start, rule), later)
  {
    NamingLevel(c.rules, rule, later, v);
    StableSortElements(Enabled(c.rules), InOrder);
    OnlyNamingMatter(c, start, Sorted(c.rules), v);
    assert [rule, later] == [rule] + [later] && [later] == [later] + [];
    FixFirst(c, start, rule, [later]);
    FixFirst(c, Fix(c, start, rule), later, []);
  }

  lemma FixFirst(c: Cluster, plan: Plan, rule: Rule, rest: seq<Rule>)
    requires c.Valid() && Tracks(c, plan)
    ensures FixAll(c, plan, [rule] + rest) == FixAll(c, Fix(c, plan, rule), rest)
  {
    assert ([rule] + rest)[1..] == rest;
  }

  ghost predicate AlwaysHoldsOrNamed(rules: seq<Rule>, rule: Rule) {
    forall guests, free: Memory :: Cluster(rules, guests).Valid() && free.Valid() ==>
      HoldsOrNamed(rule, FinalPlan(Cluster(rules, guests), free))
  }

  /**
   * Of two preferences the first is kept or named on every cluster exactly when the second does not collide with it.
   */
  lemma KeptIffNoCollision(rule: Rule, later: Rule)
    requires Soft(rule) && Soft(later)
    ensures AlwaysHoldsOrNamed([rule, later], rule) <==> !Collide(rule, later)
  {
    var rules := [rule, later];
    if !Collide(rule, later) {
      FilterAll(rules, Soft);
      forall guests, free: Memory | Cluster(rules, guests).Valid() && free.Valid()
        ensures HoldsOrNamed(rule, FinalPlan(Cluster(rules, guests), free))
      {
        PreferenceHoldsOrIsNamed(Cluster(rules, guests), free, 0);
      }
    } else {
      var v :| v in rule.vmids && v in later.vmids;
      var a :| a in rule.nodes && a !in later.nodes;
      var b :| b in later.nodes && b !in rule.nodes && b != "";
      var g, free := Guest(v, Qemu, a, 1, None), OrderedMap([b], map[b := 1]);
      FilterAll(rules, NamingOf(v));
      CollisionUndoes(rules, rule, later, g, free, b);
      assert Cluster(rules, map[v := g]).Valid() && free.Valid();
    }
  }

  /**
   * Why the same is not so of a pair among more rules: a preference for the guests and nodes of the soft rule given
   * last holds at the end or that rule is named, whatever collides with it in between.
   */
  lemma LastWordIsKept(c: Cluster, free: Memory, rule: Rule, last: Rule)
    requires c.Valid() && free.Valid() && Filter(c.rules, Soft) != []
      && last == Filter(c.rules, Soft)[|Filter(c.rules, Soft)| - 1]
    requires rule.kind == last.kind == PreferNodes && rule.vmids == last.vmids && rule.nodes == last.nodes
    ensures Holds(rule, FinalPlan(c, free).positions) || Named(FinalPlan(c, free).unresolved, last.name)
  {
    PreferenceHoldsOrIsNamed(c, free, |Filter(c.rules, Soft)| - 1);
  }

  /** For one: given again after what collides with it, a preference is not lost in silence. */
  lemma GivenAgainIsKept(rule: Rule, later: Rule)
    requires Soft(rule) && Soft(later)
    ensures AlwaysHoldsOrNamed([rule, later, rule], rule)
  {
    var rules := [rule, later, rule];
    FilterAll(rules, Soft);
    forall guests, free: Memory | Cluster(rules, guests).Valid() && free.Valid()
      ensures HoldsOrNamed(rule, FinalPlan(Cluster(rules, guests), free))
    {
      LastWordIsKept(Cluster(rules, guests), free, rule, rule);
    }
  }

  /** For one: a guest that one rule wants on one node and the next on another, both with room. */
  lemma PreferenceIsUndone()
    ensures var one := Rule("1", "one", PreferNodes, [1], ["a"], false, true);
            var two := Rule("2", "two", PreferNodes, [1], ["b"], false, true);
            var c := Cluster([one, two], map[1 := Guest(1, Qemu, "a", 1, None)]);
            var free := OrderedMap(["a", "b"], map["a" := 1, "b" := 1]);
            && free.Valid() && Holds(one, StartPositions(c.guests))
            && FinalPlan(c, free).unresolved == [] && !Holds(one, FinalPlan(c, free).positions)
  {
    var one := Rule("1", "one", PreferNodes, [1], ["a"], false, true);
    var two := Rule("2", "two", PreferNodes, [1], ["b"], false, true);
    var free := OrderedMap(["a", "b"], map["a" := 1, "b" := 1]);
    var rules := [one, two];
    FilterAll(rules, NamingOf(1));
    assert "a" != "b" by { assert "a"[0] != "b"[0]; }
    assert free.Valid();
    CollisionUndoes(rules, one, two, Guest(1, Qemu, "a", 1, None), free, "b");
  }
}
