/** What the planner's corrections keep, fix and say (packages/shared/src/placement.ts). */
module PlacementSafety {
  import opened Prelude
  import opened PlacementRules
  import opened PlacementPlanner

  // ---------------------------------------------------------------------------
  // One move
  // ---------------------------------------------------------------------------

  /** `after` is `plan` with the guest gone to a node with room that every rule admits. */
  ghost predicate Landed(c: Cluster, plan: Plan, g: Guest, rule: string, only: Option<set<string>>, after: Plan)
    requires Tracks(c, plan) && g.vmid in plan.positions
  {
    && !g.Blocked()
    && g.vmid in after.positions
    && var from, to := plan.positions[g.vmid], after.positions[g.vmid];
    && to != from && to != ""
    && (only.Some? ==> to in only.value)
    && to in plan.free.vals && plan.free.vals[to] >= g.memory
    && (forall r :: r in c.rules ==> Admits(r, plan.positions - {g.vmid}, g.vmid, to))
    && after.positions == plan.positions[g.vmid := to]
    && after.free.vals
       == plan.free.vals[to := plan.free.vals[to] - g.memory][from := plan.free.GetOr(from, 0) + g.memory]
    && after.moves == Recorded(plan.moves, Move(g.vmid, g.kind, from, to, rule))
  }

  /** The guest stays where it is, and the rule it was to move for is named. */
  ghost predicate Refused(plan: Plan, g: Guest, rule: string, after: Plan) {
    && after.positions == plan.positions && after.free == plan.free && after.moves == plan.moves
    && |after.unresolved| == |plan.unresolved| + 1
    && after.unresolved[|plan.unresolved|].vmid == g.vmid
    && after.unresolved[|plan.unresolved|].ruleName == rule
  }

  lemma MoveLandsOrIsRefused(c: Cluster, plan: Plan, g: Guest, rule: string, only: Option<set<string>>)
    requires Tracks(c, plan) && g.vmid in plan.positions
    ensures var after := MoveGuest(c, plan, g, rule, only);
            if after.unresolved == plan.unresolved then Landed(c, plan, g, rule, only, after)
            else Refused(plan, g, rule, after)
  {
    var req := RequestFor(c, plan, g, only);
    var to := Chosen(req, plan.free);
    if !g.Blocked() && Found(to) {
      ChosenIsEligible(req, plan.free);
      MoveGuestLands(c, plan, g, rule, only, to.value, Reserved(req, plan.free));
      ReservedIs(req, plan.free, to.value);
      GoneIsLanded(c, plan, g, rule, only, to.value, Reserved(req, plan.free));
    } else {
      RefusedOtherwise(c, plan, g, rule, only);
    }
  }

  lemma ReservedIs(req: Request, free: Memory, to: string)
    requires free.Valid() && Chosen(req, free) == Some(to) && to != ""
    ensures Reserved(req, free).vals == free.vals[to := free.vals[to] - req.guest.memory]
  {
  }

  lemma GoneIsLanded(c: Cluster, plan: Plan, g: Guest, rule: string, only: Option<set<string>>, to: string,
                     left: Memory)
    requires Tracks(c, plan) && g.vmid in plan.positions && !g.Blocked() && to != ""
    requires Eligible(RequestFor(c, plan, g, only), plan.free, to)
    requires left.vals == plan.free.vals[to := plan.free.vals[to] - g.memory]
    ensures Landed(c, plan, g, rule, only, Gone(plan, g, rule, to, left))
  {
  }

  lemma RefusedOtherwise(c: Cluster, plan: Plan, g: Guest, rule: string, only: Option<set<string>>)
    requires Tracks(c, plan) && g.vmid in plan.positions
    requires g.Blocked() || !Found(Chosen(RequestFor(c, plan, g, only), plan.free))
    ensures Refused(plan, g, rule, MoveGuest(c, plan, g, rule, only))
  {
  }

  lemma ChosenIsEligible(req: Request, free: Memory)
    requires free.Valid() && Chosen(req, free).Some?
    ensures Eligible(req, free, Chosen(req, free).value)
  {
    BestIsBest(req, free, |free.keys|);
  }

  /** A move leaves every hard rule that held holding. */
  lemma LandingKeepsRule(c: Cluster, plan: Plan, g: Guest, name: string, only: Option<set<string>>, after: Plan,
                         rule: Rule)
    requires c.Valid() && Tracks(c, plan) && g.vmid in plan.positions
    requires Landed(c, plan, g, name, only, after)
    requires rule in c.rules && WellFormed(rule) && Hard(rule) && Holds(rule, plan.positions)
    ensures Holds(rule, after.positions)
  {
    var without, to := plan.positions - {g.vmid}, after.positions[g.vmid];
    assert after.positions == without[g.vmid := to];
    HoldsWithoutGuest(rule, plan.positions, g.vmid);
    if g.vmid in rule.vmids {
      AdmitsIffHolds(rule, without, g.vmid, to);
    }
  }

  // ---------------------------------------------------------------------------
  // What every move keeps, the whole run keeps
  // ---------------------------------------------------------------------------

  /** Moving a guest, in either outcome. */
  ghost predicate Step(c: Cluster, plan: Plan, g: Guest, name: string, only: Option<set<string>>, after: Plan) {
    && Tracks(c, plan) && Tracks(c, after)
    && g.vmid in c.guests && c.guests[g.vmid] == g
    && (Landed(c, plan, g, name, only, after) || Refused(plan, g, name, after))
  }

  ghost predicate Kept(c: Cluster, p: Plan -> bool) {
    forall plan, g, name, only, after :: p(plan) && Step(c, plan, g, name, only, after) ==> p(after)
  }

  lemma {:induction false} MoveEachKeeps(c: Cluster, plan: Plan, gs: seq<Guest>, name: string,
                                         only: Option<set<string>>, p: Plan -> bool)
    requires c.Valid() && Tracks(c, plan) && Known(c, gs) && Kept(c, p) && p(plan)
    ensures p(MoveEach(c, plan, gs, name, only))
    decreases |gs|
  {
    if gs != [] {
      var g := gs[0];
      if only.Some? && plan.positions[g.vmid] in only.value {
        MoveEachKeeps(c, plan, gs[1..], name, only, p);
      } else {
        var next := MoveGuest(c, plan, g, name, only);
        MoveLandsOrIsRefused(c, plan, g, name, only);
        assert Step(c, plan, g, name, only, next);
        MoveEachKeeps(c, next, gs[1..], name, only, p);
      }
    }
  }

  lemma FixKeeps(c: Cluster, plan: Plan, rule: Rule, p: Plan -> bool)
    requires c.Valid() && Tracks(c, plan) && Kept(c, p) && p(plan)
    ensures p(Fix(c, plan, rule))
  {
    var running := Running(rule.vmids, plan.positions);
    var groups := ByNode(running, plan.positions);
    GuestsOfKnown(c, running);
    match rule.kind {
      case KeepApart =>
        GroupsAreKnown(c, running, plan.positions);
        AllLeavingKnown(c, groups, |groups.keys|);
        MoveEachKeeps(c, plan, AllLeaving(c, groups, |groups.keys|), rule.name, None, p);
      case KeepTogether =>
        if |groups.keys| >= 2 {
          MoveEachKeeps(c, plan, GuestsOf(c, running), rule.name, Some({Target(groups, plan.free)}), p);
        }
      case PreferNodes =>
        MoveEachKeeps(c, plan, GuestsOf(c, running), rule.name, Some(set n | n in rule.nodes), p);
    }
  }

  lemma {:induction false} FixAllKeeps(c: Cluster, plan: Plan, fixes: seq<Rule>, p: Plan -> bool)
    requires c.Valid() && Tracks(c, plan) && Kept(c, p) && p(plan)
    ensures p(FixAll(c, plan, fixes))
    decreases |fixes|
  {
    if fixes != [] {
      FixKeeps(c, plan, fixes[0], p);
      FixAllKeeps(c, Fix(c, plan, fixes[0]), fixes[1..], p);
    }
  }

  /** A hard rule that holds goes on holding, whatever is corrected after. */
  lemma FixAllKeepsRule(c: Cluster, plan: Plan, fixes: seq<Rule>, rule: Rule)
    requires c.Valid() && Tracks(c, plan)
    requires rule in c.rules && WellFormed(rule) && Hard(rule) && Holds(rule, plan.positions)
    ensures Holds(rule, FixAll(c, plan, fixes).positions)
  {
    ghost var p := (q: Plan) => Holds(rule, q.positions);
    forall q, g, name, only, after | p(q) && Step(c, q, g, name, only, after)
      ensures p(after)
    {
      if Landed(c, q, g, name, only, after) {
        LandingKeepsRule(c, q, g, name, only, after, rule);
      }
    }
    FixAllKeeps(c, plan, fixes, p);
  }

  // ---------------------------------------------------------------------------
  // A corrected rule holds, or is named
  // ---------------------------------------------------------------------------

  /** A rule of this name is in the list. */
  ghost predicate Named(unresolved: seq<Unresolved>, rule: string) {
    exists u :: u in unresolved && u.ruleName == rule
  }

  /** When nothing was refused, every guest ends on a node of `only`. */
  lemma {:induction false} MoveEachReaches(c: Cluster, plan: Plan, gs: seq<Guest>, name: string,
                                           only: Option<set<string>>)
    requires c.Valid() && Tracks(c, plan) && Known(c, gs) && only.Some?
    ensures var after := MoveEach(c, plan, gs, name, only);
            if after.unresolved == plan.unresolved then
              && (forall g :: g in gs ==> after.positions[g.vmid] in only.value)
              && (forall v ::
                  v in plan.positions && plan.positions[v] in only.value ==> after.positions[v] in only.value)
            else Named(after.unresolved, name)
    decreases |gs|
  {
    if gs != [] {
      var g := gs[0];
      var stays := plan.positions[g.vmid] in only.value;
      var next := if stays then plan else MoveGuest(c, plan, g, name, only);
      var after := MoveEach(c, next, gs[1..], name, only);
      MoveLandsOrIsRefused(c, plan, g, name, only);
      MoveEachReaches(c, next, gs[1..], name, only);
      if next.unresolved != plan.unresolved {
        assert next.unresolved[|plan.unresolved|] in after.unresolved;
      }
    }
  }

  /** Of the guests the rule names, those not still to be moved share no node. */
  ghost predicate ApartExcept(rule: Rule, positions: Positions, rest: seq<Guest>) {
    forall v, w :: v in rule.vmids && w in rule.vmids && v in positions && w in positions && v != w
      && (forall g :: g in rest ==> g.vmid != v && g.vmid != w)
      ==> positions[v] != positions[w]
  }

  lemma {:induction false} MoveEachSeparates(c: Cluster, plan: Plan, gs: seq<Guest>, rule: Rule)
    requires c.Valid() && Tracks(c, plan) && Known(c, gs)
    requires rule in c.rules && WellFormed(rule) && rule.enabled && rule.kind == KeepApart
    requires forall g :: g in gs ==> g.vmid in rule.vmids
    requires ApartExcept(rule, plan.positions, gs)
    ensures var after := MoveEach(c, plan, gs, rule.name, None);
            if after.unresolved == plan.unresolved then Holds(rule, after.positions)
            else Named(after.unresolved, rule.name)
    decreases |gs|
  {
    if gs == [] {
      assert WellFormed(rule);
      forall i, j | 0 <= i < j < |rule.vmids| && rule.vmids[i] in plan.positions && rule.vmids[j] in plan.positions
        ensures plan.positions[rule.vmids[i]] != plan.positions[rule.vmids[j]]
      {
        var v, w := rule.vmids[i], rule.vmids[j];
        assert v != w;
      }
    } else {
      var g := gs[0];
      var next := MoveGuest(c, plan, g, rule.name, None);
      var after := MoveEach(c, next, gs[1..], rule.name, None);
      MoveLandsOrIsRefused(c, plan, g, rule.name, None);
      if next.unresolved != plan.unresolved {
        assert next.unresolved[|plan.unresolved|] in after.unresolved;
      } else {
        ApartAfterLanding(c, plan, gs, rule, next);
        MoveEachSeparates(c, next, gs[1..], rule);
      }
    }
  }

  lemma ApartAfterLanding(c: Cluster, plan: Plan, gs: seq<Guest>, rule: Rule, next: Plan)
    requires c.Valid() && Tracks(c, plan) && gs != [] && Known(c, gs)
    requires gs[0].vmid in plan.positions
    requires rule in c.rules && WellFormed(rule) && rule.enabled && rule.kind == KeepApart && gs[0].vmid in rule.vmids
    requires ApartExcept(rule, plan.positions, gs)
    requires Landed(c, plan, gs[0], rule.name, None, next)
    ensures ApartExcept(rule, next.positions, gs[1..])
  {
    var g := gs[0];
    var without := plan.positions - {g.vmid};
    assert Admits(rule, without, g.vmid, next.positions[g.vmid]);
    forall v, w | v in rule.vmids && w in rule.vmids && v in next.positions && w in next.positions && v != w
      && (forall h :: h in gs[1..] ==> h.vmid != v && h.vmid != w)
      ensures next.positions[v] != next.positions[w]
    {
      if v == g.vmid {
        assert w in without;
      } else if w == g.vmid {
        assert v in without;
      } else {
        assert forall h :: h in gs ==> h == g || h in gs[1..];
      }
    }
  }

  lemma LeaverOf(c: Cluster, group: seq<int>, i: nat) returns (g: Guest)
    requires c.Valid() && GroupKnown(c, group) && 0 < i < |group|
    ensures g in Leaving(c, group) && g.vmid == group[i]
  {
    var gs := GuestsOf(c, group[1..]);
    StableSortElements(gs, NoLarger);
    assert group[1..][i - 1] == group[i];
    g := gs[i - 1];
    assert g in gs;
  }

  lemma {:induction false} LeaversOf(c: Cluster, groups: OrderedMap<seq<int>>, n: nat, k: nat, i: nat)
    returns (g: Guest)
    requires c.Valid() && GroupsKnown(c, groups) && k < n <= |groups.keys|
    requires 0 < i < |groups.vals[groups.keys[k]]|
    ensures g in AllLeaving(c, groups, n) && g.vmid == groups.vals[groups.keys[k]][i]
  {
    var before, now := AllLeaving(c, groups, n - 1), Leaving(c, groups.vals[groups.keys[n - 1]]);
    if k < n - 1 {
      g := LeaversOf(c, groups, n - 1, k, i);
    } else {
      g := LeaverOf(c, groups.vals[groups.keys[k]], i);
    }
    InEither(before, now, g);
  }

  lemma InEither(a: seq<Guest>, b: seq<Guest>, g: Guest)
    requires g in a || g in b
    ensures g in a + b
  {
  }

  lemma {:induction false} LeaversAreMembers(c: Cluster, groups: OrderedMap<seq<int>>, n: nat, vmids: seq<int>)
    requires c.Valid() && GroupsKnown(c, groups) && n <= |groups.keys|
    requires forall k, v :: k in groups.vals && v in groups.vals[k] ==> v in vmids
    ensures forall g :: g in AllLeaving(c, groups, n) ==> g.vmid in vmids
  {
    if n > 0 {
      LeaversAreMembers(c, groups, n - 1, vmids);
      LeavingAreMembers(c, groups.vals[groups.keys[n - 1]], vmids);
    }
  }

  lemma LeavingAreMembers(c: Cluster, group: seq<int>, vmids: seq<int>)
    requires c.Valid() && GroupKnown(c, group) && forall v :: v in group ==> v in vmids
    ensures forall g :: g in Leaving(c, group) ==> g.vmid in vmids
  {
    var gs := GuestsOf(c, group[1..]);
    StableSortElements(gs, NoLarger);
    forall g | g in Leaving(c, group) ensures g.vmid in vmids {
      assert g in gs;
      var i :| 0 <= i < |gs| && gs[i] == g;
      var v := group[1..][i];
      assert v in group && g.vmid == v;
    }
  }

  /** Of two guests on one node, one is not the first there, and leaves. */
  lemma OneOfTwoLeaves(c: Cluster, positions: Positions, vs: seq<int>, groups: OrderedMap<seq<int>>, v: int, w: int)
    returns (g: Guest)
    requires c.Valid() && GroupsKnown(c, groups) && (forall u :: u in vs ==> u in positions)
      && Groups(groups, vs, positions)
    requires v in vs && w in vs && v != w && positions[v] == positions[w]
    ensures g in AllLeaving(c, groups, |groups.keys|) && (g.vmid == v || g.vmid == w)
  {
    NodeOfMember(groups, vs, positions, v);
    NodeOfMember(groups, vs, positions, w);
    var k :| 0 <= k < |groups.keys| && groups.keys[k] == positions[v];
    var group := groups.vals[groups.keys[k]];
    var i :| 0 <= i < |group| && group[i] == v;
    var j :| 0 <= j < |group| && group[j] == w;
    g := LeaversOf(c, groups, |groups.keys|, k, if i > 0 then i else j);
  }

  /** The first guest of each node stays, so those that stay share no node. */
  lemma StayersApart(c: Cluster, plan: Plan, rule: Rule)
    requires c.Valid() && Tracks(c, plan)
    ensures var groups := ByNode(Running(rule.vmids, plan.positions), plan.positions);
            && GroupsKnown(c, groups)
            && ApartExcept(rule, plan.positions, AllLeaving(c, groups, |groups.keys|))
  {
    var running := Running(rule.vmids, plan.positions);
    var groups := ByNode(running, plan.positions);
    GroupsAreKnown(c, running, plan.positions);
    var leaving := AllLeaving(c, groups, |groups.keys|);
    forall v, w | v in rule.vmids && w in rule.vmids && v in plan.positions && w in plan.positions && v != w
      && (forall g :: g in leaving ==> g.vmid != v && g.vmid != w)
      ensures plan.positions[v] != plan.positions[w]
    {
      if plan.positions[v] == plan.positions[w] {
        var g := OneOfTwoLeaves(c, plan.positions, running, groups, v, w);
        assert false;
      }
    }
  }

  lemma LeaversNamed(c: Cluster, plan: Plan, rule: Rule)
    requires c.Valid() && Tracks(c, plan)
    ensures var groups := ByNode(Running(rule.vmids, plan.positions), plan.positions);
            && GroupsKnown(c, groups)
            && (forall g :: g in AllLeaving(c, groups, |groups.keys|) ==> g.vmid in rule.vmids)
  {
    var running := Running(rule.vmids, plan.positions);
    var groups := ByNode(running, plan.positions);
    GroupsAreKnown(c, running, plan.positions);
    forall k, v | k in groups.vals && v in groups.vals[k] ensures v in rule.vmids {
      MemberOfNode(groups, running, plan.positions, k, v);
    }
    LeaversAreMembers(c, groups, |groups.keys|, rule.vmids);
  }

  lemma FixApart(c: Cluster, plan: Plan, rule: Rule)
    requires c.Valid() && Tracks(c, plan) && rule in c.rules && WellFormed(rule) && rule.enabled
      && rule.kind == KeepApart
    ensures var after := Fix(c, plan, rule); Holds(rule, after.positions) || Named(after.unresolved, rule.name)
  {
    var groups := ByNode(Running(rule.vmids, plan.positions), plan.positions);
    StayersApart(c, plan, rule);
    LeaversNamed(c, plan, rule);
    AllLeavingKnown(c, groups, |groups.keys|);
    MoveEachSeparates(c, plan, AllLeaving(c, groups, |groups.keys|), rule);
  }

  lemma BroughtTogether(c: Cluster, plan: Plan, rule: Rule, target: string)
    requires c.Valid() && Tracks(c, plan) && rule.kind == KeepTogether
    ensures var running := Running(rule.vmids, plan.positions);
            && Known(c, GuestsOf(c, running))
            && var after := MoveEach(c, plan, GuestsOf(c, running), rule.name, Some({target}));
            Holds(rule, after.positions) || Named(after.unresolved, rule.name)
  {
    BroughtWithin(c, plan, rule, {target});
  }

  lemma FixTogether(c: Cluster, plan: Plan, rule: Rule)
    requires c.Valid() && Tracks(c, plan) && rule.kind == KeepTogether
    ensures var after := Fix(c, plan, rule); Holds(rule, after.positions) || Named(after.unresolved, rule.name)
  {
    var groups := ByNode(Running(rule.vmids, plan.positions), plan.positions);
    if |groups.keys| < 2 {
      TogetherIffOneNode(rule, plan.positions);
    } else {
      BroughtTogether(c, plan, rule, Target(groups, plan.free));
    }
  }

  /** After its turn, a rule holds, or what stood in its way is named. */
  lemma FixHoldsOrNames(c: Cluster, plan: Plan, rule: Rule)
    requires c.Valid() && Tracks(c, plan) && rule in c.rules && WellFormed(rule) && rule.enabled
    ensures var after := Fix(c, plan, rule); Holds(rule, after.positions) || Named(after.unresolved, rule.name)
  {
    match rule.kind {
      case KeepApart => FixApart(c, plan, rule);
      case KeepTogether => FixTogether(c, plan, rule);
      case PreferNodes => BroughtWithin(c, plan, rule, set n | n in rule.nodes);
    }
  }

  lemma BroughtWithin(c: Cluster, plan: Plan, rule: Rule, only: set<string>)
    requires c.Valid() && Tracks(c, plan)
    ensures var running := Running(rule.vmids, plan.positions);
            && Known(c, GuestsOf(c, running))
            && var after := MoveEach(c, plan, GuestsOf(c, running), rule.name, Some(only));
            (forall v :: v in rule.vmids && v in after.positions ==> after.positions[v] in only)
            || Named(after.unresolved, rule.name)
  {
    var running := Running(rule.vmids, plan.positions);
    var gs := GuestsOf(c, running);
    GuestsOfKnown(c, running);
    var after := MoveEach(c, plan, gs, rule.name, Some(only));
    MoveEachReaches(c, plan, gs, rule.name, Some(only));
    if after.unresolved == plan.unresolved {
      forall v | v in rule.vmids && v in after.positions ensures after.positions[v] in only {
        assert v in running;
        var i :| 0 <= i < |running| && running[i] == v;
        assert gs[i] in gs && gs[i].vmid == v;
      }
    }
  }

  lemma {:induction false} FixAllHoldsOrNames(c: Cluster, plan: Plan, fixes: seq<Rule>, rule: Rule)
    requires c.Valid() && Tracks(c, plan)
    requires rule in fixes && rule in c.rules && WellFormed(rule) && Hard(rule)
    ensures var after := FixAll(c, plan, fixes); Holds(rule, after.positions) || Named(after.unresolved, rule.name)
    decreases |fixes|
  {
    var next := Fix(c, plan, fixes[0]);
    if rule == fixes[0] {
      FixHoldsOrNames(c, plan, rule);
      if Holds(rule, next.positions) {
        FixAllKeepsRule(c, next, fixes[1..], rule);
      }
    } else {
      FixAllHoldsOrNames(c, next, fixes[1..], rule);
    }
  }

  /**
   * The planner's promise. A hard rule that the planned positions break was
   * broken before the planning began, and is named among what could not be fixed.
   */
  lemma CorrectionsBreakNothing(c: Cluster, free: Memory, rule: Rule)
    requires c.Valid() && free.Valid() && rule in c.rules && WellFormed(rule) && Hard(rule)
    ensures var final := FinalPlan(c, free);
            Holds(rule, final.positions)
            || (!Holds(rule, StartPositions(c.guests)) && Named(final.unresolved, rule.name))
  {
    var start := StartPlan(c.guests, free);
    StableSortElements(Enabled(c.rules), InOrder);
    FixAllHoldsOrNames(c, start, Sorted(c.rules), rule);
    if Holds(rule, start.positions) {
      FixAllKeepsRule(c, start, Sorted(c.rules), rule);
    }
  }

  /** Hard rules are corrected before preferences, and every enabled rule has its turn. */
  lemma RulesTakenInOrder(rules: seq<Rule>)
    ensures SortedBy(Sorted(rules), InOrder)
    ensures forall rule :: rule in Sorted(rules) <==> rule in rules && rule.enabled
    ensures forall i, j :: 0 <= i < j < |Sorted(rules)| && Hard(Sorted(rules)[j]) ==> Hard(Sorted(rules)[i])
  {
    StableSortSorts(Enabled(rules), InOrder);
    StableSortElements(Enabled(rules), InOrder);
    var sorted := Sorted(rules);
    forall i, j | 0 <= i < j < |sorted| && Hard(sorted[j]) ensures Hard(sorted[i]) {
      assert InOrder(sorted[i], sorted[j]);
      assert sorted[i] in sorted;
    }
  }

  // ---------------------------------------------------------------------------
  // Memory and moves
  // ---------------------------------------------------------------------------

  /** Each guest of the cluster once, in any order. */
  ghost predicate Roster(c: Cluster, vs: seq<int>) {
    Distinct(vs) && forall v :: v in vs <==> v in c.guests
  }

  /** The memory of the guests of `vs` that are on a node. */
  ghost function Used(c: Cluster, vs: seq<int>, positions: Positions, node: string): int
    requires positions.Keys == c.guests.Keys && forall v :: v in vs ==> v in c.guests
  {
    if vs == [] then 0
    else
      var v := vs[0];
      Used(c, vs[1..], positions, node) + (if positions[v] == node then c.guests[v].memory else 0)
  }

  lemma {:induction false} UsedAfterMove(c: Cluster, vs: seq<int>, positions: Positions, v: int, to: string,
                                         node: string)
    requires positions.Keys == c.guests.Keys && v in c.guests
    requires Distinct(vs) && forall w :: w in vs ==> w in c.guests
    ensures Used(c, vs, positions[v := to], node)
         == Used(c, vs, positions, node)
            - (if v in vs && positions[v] == node then c.guests[v].memory else 0)
            + (if v in vs && to == node then c.guests[v].memory else 0)
  {
    if vs != [] {
      var w := vs[0];
      UsedAfterMove(c, vs[1..], positions, v, to, node);
      assert w !in vs[1..];
      assert forall x :: x in vs <==> x == w || x in vs[1..];
    }
  }

  /** What `node` has free and what its guests use add up to what they did at the start. */
  ghost predicate MemoryConserved(c: Cluster, roster: seq<int>, before: Plan, after: Plan, node: string)
    requires Tracks(c, before) && Tracks(c, after) && Roster(c, roster)
  {
    after.free.GetOr(node, 0) + Used(c, roster, after.positions, node)
    == before.free.GetOr(node, 0) + Used(c, roster, before.positions, node)
  }

  /** No node is promised memory it does not have. */
  predicate NotOverfilled(before: Plan, after: Plan, node: string) {
    after.free.GetOr(node, 0) >= 0 || after.free.GetOr(node, 0) >= before.free.GetOr(node, 0)
  }

  /** The moves are one for each guest that changed nodes, from where it was to where it is. */
  ghost predicate MovesTell(c: Cluster, start: Positions, plan: Plan)
    requires start.Keys == c.guests.Keys && Tracks(c, plan)
  {
    && (forall i, j :: 0 <= i < j < |plan.moves| ==> plan.moves[i].vmid != plan.moves[j].vmid)
    && (forall i :: 0 <= i < |plan.moves| ==>
          && plan.moves[i].vmid in c.guests
          && !c.guests[plan.moves[i].vmid].Blocked()
          && plan.moves[i].kind == c.guests[plan.moves[i].vmid].kind
          && plan.moves[i].from == start[plan.moves[i].vmid]
          && plan.moves[i].to == plan.positions[plan.moves[i].vmid])
    && (forall v :: v in c.guests && plan.positions[v] != start[v] ==> Told(plan.moves, v))
  }

  ghost predicate Told(moves: seq<Move>, v: int) {
    exists i :: 0 <= i < |moves| && moves[i].vmid == v
  }

  /** All of the above, as the planner goes. */
  ghost predicate Accounts(c: Cluster, roster: seq<int>, start: Plan, plan: Plan)
    requires Tracks(c, start) && Roster(c, roster)
  {
    && Tracks(c, plan)
    && (forall node :: MemoryConserved(c, roster, start, plan, node))
    && (forall node :: NotOverfilled(start, plan, node))
    && MovesTell(c, start.positions, plan)
  }

  lemma LandingConserves(c: Cluster, roster: seq<int>, start: Plan, plan: Plan, g: Guest, name: string,
                         only: Option<set<string>>, after: Plan)
    requires Tracks(c, start) && Roster(c, roster) && Accounts(c, roster, start, plan)
    requires g.vmid in c.guests && c.guests[g.vmid] == g && Tracks(c, after)
    requires Landed(c, plan, g, name, only, after)
    ensures forall node :: MemoryConserved(c, roster, start, after, node) && NotOverfilled(start, after, node)
  {
    forall node ensures MemoryConserved(c, roster, start, after, node) && NotOverfilled(start, after, node) {
      UsedAfterMove(c, roster, plan.positions, g.vmid, after.positions[g.vmid], node);
      assert MemoryConserved(c, roster, start, plan, node) && NotOverfilled(start, plan, node);
    }
  }

  lemma LandingTells(c: Cluster, start: Positions, plan: Plan, g: Guest, name: string, only: Option<set<string>>,
                     after: Plan)
    requires start.Keys == c.guests.Keys && Tracks(c, plan) && MovesTell(c, start, plan)
    requires g.vmid in c.guests && c.guests[g.vmid] == g && Tracks(c, after)
    requires Landed(c, plan, g, name, only, after)
    ensures MovesTell(c, start, after)
  {
    var k := FindMove(plan.moves, g.vmid);
    assert k == |plan.moves| ==> plan.positions[g.vmid] == start[g.vmid];
    forall v | v in c.guests && after.positions[v] != start[v] ensures Told(after.moves, v) {
      if v == g.vmid {
        assert after.moves[k].vmid == v;
      } else {
        assert Told(plan.moves, v);
        var i :| 0 <= i < |plan.moves| && plan.moves[i].vmid == v;
        assert after.moves[i].vmid == v;
      }
    }
  }

  lemma AccountsKept(c: Cluster, roster: seq<int>, start: Plan, plan: Plan, g: Guest, name: string,
                     only: Option<set<string>>, after: Plan)
    requires Tracks(c, start) && Roster(c, roster) && Accounts(c, roster, start, plan)
    requires Step(c, plan, g, name, only, after)
    ensures Accounts(c, roster, start, after)
  {
    if Landed(c, plan, g, name, only, after) {
      LandingConserves(c, roster, start, plan, g, name, only, after);
      LandingTells(c, start.positions, plan, g, name, only, after);
    } else {
      assert forall node ::
        MemoryConserved(c, roster, start, plan, node) ==> MemoryConserved(c, roster, start, after, node);
      assert forall node :: NotOverfilled(start, plan, node) ==> NotOverfilled(start, after, node);
    }
  }

  lemma FixAllAccounts(c: Cluster, roster: seq<int>, plan: Plan, fixes: seq<Rule>)
    requires c.Valid() && Tracks(c, plan) && Roster(c, roster) && plan.moves == []
    ensures Accounts(c, roster, plan, FixAll(c, plan, fixes))
  {
    ghost var p := (q: Plan) => Accounts(c, roster, plan, q);
    forall q, g, name, only, after | p(q) && Step(c, q, g, name, only, after)
      ensures p(after)
    {
      AccountsKept(c, roster, plan, q, g, name, only, after);
    }
    FixAllKeeps(c, plan, fixes, p);
  }

  /** Carrying out the moves, in any state of the guests. */
  function Apply(positions: Positions, moves: seq<Move>): Positions
    decreases |moves|
  {
    if moves == [] then positions else Apply(positions[moves[0].vmid := moves[0].to], moves[1..])
  }

  lemma {:induction false} ApplyDistinct(positions: Positions, moves: seq<Move>, v: int)
    requires forall i, j :: 0 <= i < j < |moves| ==> moves[i].vmid != moves[j].vmid
    requires forall i :: 0 <= i < |moves| ==> moves[i].vmid in positions
    ensures Apply(positions, moves).Keys == positions.Keys
    ensures forall i :: 0 <= i < |moves| && moves[i].vmid == v ==> Apply(positions, moves)[v] == moves[i].to
    ensures v in positions && !Told(moves, v) ==> Apply(positions, moves)[v] == positions[v]
  {
    if moves != [] {
      var m := moves[0];
      var next := positions[m.vmid := m.to];
      ApplyDistinct(next, moves[1..], v);
      if m.vmid == v {
        assert !Told(moves[1..], v);
      }
      assert Told(moves[1..], v) ==> Told(moves, v) by {
        if Told(moves[1..], v) {
          var i :| 0 <= i < |moves[1..]| && moves[1..][i].vmid == v;
          assert moves[i + 1].vmid == v;
        }
      }
      forall i | 0 <= i < |moves| && moves[i].vmid == v ensures Apply(positions, moves)[v] == moves[i].to {
        if i > 0 {
          assert moves[1..][i - 1] == moves[i];
        }
      }
    }
  }

  /** Leaving out the moves that go nowhere keeps the list one move a guest. */
  lemma {:induction false} ChangedDistinct(moves: seq<Move>)
    requires forall i, j :: 0 <= i < j < |moves| ==> moves[i].vmid != moves[j].vmid
    ensures var r := Changed(moves); forall i, j :: 0 <= i < j < |r| ==> r[i].vmid != r[j].vmid
  {
    if moves != [] {
      var rest := moves[1..];
      ChangedDistinct(rest);
      forall j | 0 <= j < |Changed(rest)| ensures Changed(rest)[j].vmid != moves[0].vmid {
        var m := Changed(rest)[j];
        assert m in rest;
      }
    }
  }

  /** And it keeps the effect of carrying the moves out. */
  lemma {:induction false} ChangedApplies(start: Positions, moves: seq<Move>)
    requires forall i, j :: 0 <= i < j < |moves| ==> moves[i].vmid != moves[j].vmid
    requires forall i :: 0 <= i < |moves| ==> moves[i].vmid in start && start[moves[i].vmid] == moves[i].from
    ensures Apply(start, Changed(moves)) == Apply(start, moves)
  {
    if moves != [] {
      var m, rest := moves[0], moves[1..];
      var next := start[m.vmid := m.to];
      ChangedApplies(next, rest);
      if m.from == m.to {
        assert next == start;
        assert Changed(moves) == Changed(rest);
      } else {
        assert Changed(moves)[1..] == Changed(rest);
      }
    }
  }

  /** Carrying out the recorded moves gives the planned positions. */
  lemma MovesGivePositions(c: Cluster, start: Positions, plan: Plan)
    requires start.Keys == c.guests.Keys && Tracks(c, plan) && MovesTell(c, start, plan)
    ensures Apply(start, Changed(plan.moves)) == plan.positions
  {
    ChangedApplies(start, plan.moves);
    var applied := Apply(start, plan.moves);
    ApplyDistinct(start, plan.moves, 0);
    forall v | v in c.guests ensures applied[v] == plan.positions[v] {
      ApplyDistinct(start, plan.moves, v);
    }
  }

  /** The recorded moves are one a guest, of guests that can move. */
  lemma MovesAreAllowed(c: Cluster, start: Positions, plan: Plan)
    requires start.Keys == c.guests.Keys && Tracks(c, plan) && MovesTell(c, start, plan)
    ensures var moves := Changed(plan.moves);
            && (forall i, j :: 0 <= i < j < |moves| ==> moves[i].vmid != moves[j].vmid)
            && (forall m :: m in moves ==> m.vmid in c.guests && !c.guests[m.vmid].Blocked())
    ensures forall v :: v in c.guests && c.guests[v].Blocked() ==> plan.positions[v] == start[v]
  {
    ChangedDistinct(plan.moves);
    forall v | v in c.guests && c.guests[v].Blocked() ensures plan.positions[v] == start[v] {
      assert !Told(plan.moves, v);
    }
  }

  /**
   * The plan adds up: memory is conserved on every node, no node is overfilled,
   * a guest that cannot move live stays, and carrying out the moves it returns,
   * at most one a guest, gives the positions it planned.
   */
  lemma CorrectionsAddUp(c: Cluster, roster: seq<int>, free: Memory)
    requires c.Valid() && free.Valid() && Roster(c, roster)
    ensures var start, final := StartPlan(c.guests, free), FinalPlan(c, free);
            && (forall node :: MemoryConserved(c, roster, start, final, node))
            && (forall node :: NotOverfilled(start, final, node))
            && (forall v :: v in c.guests && c.guests[v].Blocked() ==> final.positions[v] == start.positions[v])
            && Apply(start.positions, Changed(final.moves)) == final.positions
    ensures var moves := Changed(FinalPlan(c, free).moves);
            && (forall i, j :: 0 <= i < j < |moves| ==> moves[i].vmid != moves[j].vmid)
            && (forall m :: m in moves ==> m.vmid in c.guests && !c.guests[m.vmid].Blocked())
  {
    var start, final := StartPlan(c.guests, free), FinalPlan(c, free);
    FixAllAccounts(c, roster, start, Sorted(c.rules));
    assert MovesTell(c, start.positions, final);
    MovesGivePositions(c, start.positions, final);
    MovesAreAllowed(c, start.positions, final);
  }

  // ---------------------------------------------------------------------------
  // No more than is needed, and all that there is room for
  // ---------------------------------------------------------------------------

  /** A rule that holds is left alone. */
  lemma FixLeavesAlone(c: Cluster, plan: Plan, rule: Rule)
    requires c.Valid() && Tracks(c, plan) && Holds(rule, plan.positions)
    ensures Fix(c, plan, rule) == plan
  {
    match rule.kind {
      case KeepApart =>
        FixApartLeavesAlone(c, plan, rule);
      case KeepTogether =>
        TogetherIffOneNode(rule, plan.positions);
      case PreferNodes =>
        var running := Running(rule.vmids, plan.positions);
        GuestsOfKnown(c, running);
        AllStay(c, plan, running, rule.name, set n | n in rule.nodes);
    }
  }

  lemma FixApartLeavesAlone(c: Cluster, plan: Plan, rule: Rule)
    requires c.Valid() && Tracks(c, plan) && rule.kind == KeepApart && Holds(rule, plan.positions)
    ensures Fix(c, plan, rule) == plan
  {
    NobodyLeaves(c, plan.positions, rule);
  }

  lemma NobodyLeaves(c: Cluster, positions: Positions, rule: Rule)
    requires positions.Keys == c.guests.Keys && rule.kind == KeepApart && Holds(rule, positions)
    ensures var groups := ByNode(Running(rule.vmids, positions), positions);
            GroupsKnown(c, groups) && AllLeaving(c, groups, |groups.keys|) == []
  {
    var running := Running(rule.vmids, positions);
    GroupsAreKnown(c, running, positions);
    ApartIffAllAlone(rule, positions);
    NoneLeave(c, ByNode(running, positions), |ByNode(running, positions).keys|);
  }

  lemma {:induction false} NoneLeave(c: Cluster, groups: OrderedMap<seq<int>>, n: nat)
    requires GroupsKnown(c, groups) && n <= |groups.keys|
    requires AllAlone(groups)
    ensures AllLeaving(c, groups, n) == []
  {
    if n > 0 {
      NoneLeave(c, groups, n - 1);
      NoneLeavesAlone(c, groups.vals[groups.keys[n - 1]]);
    }
  }

  lemma NoneLeavesAlone(c: Cluster, group: seq<int>)
    requires GroupKnown(c, group) && |group| < 2
    ensures Leaving(c, group) == []
  {
    assert group[1..] == [];
  }

  lemma {:induction false} AllStay(c: Cluster, plan: Plan, vs: seq<int>, name: string, only: set<string>)
    requires c.Valid() && Tracks(c, plan)
    requires forall v :: v in vs ==> v in plan.positions && plan.positions[v] in only
    requires Known(c, GuestsOf(c, vs))
    ensures MoveEach(c, plan, GuestsOf(c, vs), name, Some(only)) == plan
  {
    if vs != [] {
      var v := vs[0];
      assert v in vs;
      GuestsOfKnown(c, vs[1..]);
      AllStay(c, plan, vs[1..], name, only);
      assert GuestsOf(c, vs)[1..] == GuestsOf(c, vs[1..]);
    }
  }

  /** When every enabled rule holds, nothing moves and nothing is said. */
  lemma NothingToCorrect(c: Cluster, free: Memory)
    requires c.Valid() && free.Valid()
    requires forall rule :: rule in c.rules && rule.enabled ==> Holds(rule, StartPositions(c.guests))
    ensures FinalPlan(c, free) == StartPlan(c.guests, free)
  {
    StableSortElements(Enabled(c.rules), InOrder);
    FixAllLeavesAlone(c, StartPlan(c.guests, free), Sorted(c.rules));
  }

  lemma {:induction false} FixAllLeavesAlone(c: Cluster, plan: Plan, fixes: seq<Rule>)
    requires c.Valid() && Tracks(c, plan)
    requires forall rule :: rule in fixes ==> Holds(rule, plan.positions)
    ensures FixAll(c, plan, fixes) == plan
    decreases |fixes|
  {
    if fixes != [] {
      assert fixes[0] in fixes;
      FixLeavesAlone(c, plan, fixes[0]);
      FixAllLeavesAlone(c, plan, fixes[1..]);
    }
  }
}
