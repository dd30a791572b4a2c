/** When there is room, one keep-apart rule is always met (packages/shared/src/placement.ts). */
module PlacementRoom {
  import opened Prelude
  import opened PlacementRules
  import opened PlacementPlanner
  import opened PlacementSafety

  /** The memory of all the guests of `vs`. */
  ghost function Total(c: Cluster, vs: seq<int>): int
    requires forall v :: v in vs ==> v in c.guests
  {
    if vs == [] then 0
    else
      var v := vs[0];
      c.guests[v].memory + Total(c, vs[1..])
  }

  lemma {:induction false} UsedWithin(c: Cluster, vs: seq<int>, positions: Positions, v: int, node: string)
    requires positions.Keys == c.guests.Keys && forall w :: w in vs ==> w in c.guests
    ensures 0 <= Used(c, vs, positions, node) <= Total(c, vs)
    ensures v in vs && positions[v] != node ==> Used(c, vs, positions, node) + c.guests[v].memory <= Total(c, vs)
  {
    if vs != [] {
      var w := vs[0];
      UsedWithin(c, vs[1..], positions, v, node);
      assert v in vs <==> v == w || v in vs[1..];
    }
  }

  /** The only enabled rule keeps guests apart; none of them is blocked; every guest runs on one of
      the nodes; every node could hold every guest, and there are at least as many nodes as guests
      to keep apart. */
  ghost predicate Roomy(c: Cluster, roster: seq<int>, free: Memory, rule: Rule) {
    && c.Valid() && Roster(c, roster) && free.Valid() && Distinct(free.keys)
    && rule in c.rules && WellFormed(rule) && rule.enabled && rule.kind == KeepApart
    && (forall r :: r in c.rules && r.enabled ==> r == rule)
    && (forall v :: v in rule.vmids && v in c.guests ==> !c.guests[v].Blocked())
    && (forall v :: v in c.guests ==> c.guests[v].node in free.vals)
    && (forall n :: n in free.vals ==> n != "" && free.vals[n] >= Total(c, roster))
    && |free.keys| >= |Running(rule.vmids, StartPositions(c.guests))|
  }

  /** A guest on the same node that is not itself still to be moved. */
  ghost predicate HasStayer(rule: Rule, positions: Positions, g: Guest, rest: seq<Guest>)
    requires g.vmid in positions
  {
    exists w :: w in rule.vmids && w in positions && w != g.vmid && positions[w] == positions[g.vmid]
                && forall h :: h in rest ==> h.vmid != w
  }

  function NodesOf(vs: seq<int>, positions: Positions): (r: set<string>)
    requires forall v :: v in vs ==> v in positions
    ensures forall v :: v in vs ==> positions[v] in r
    ensures forall n :: n in r ==> exists v :: v in vs && positions[v] == n
    ensures |r| <= |vs|
  {
    if vs == [] then {}
    else
      var v := vs[0];
      {positions[v]} + NodesOf(vs[1..], positions)
  }

  function Except(vs: seq<int>, v: int): (r: seq<int>)
    ensures forall w :: w in r <==> w in vs && w != v
    ensures v in vs ==> |r| < |vs|
    ensures |r| <= |vs|
  {
    if vs == [] then [] else (if vs[0] == v then [] else [vs[0]]) + Except(vs[1..], v)
  }

  lemma FreeKey(keys: seq<string>, taken: set<string>) returns (k: nat)
    requires Distinct(keys) && |taken| < |keys|
    ensures k < |keys| && keys[k] !in taken
  {
    DistinctCardinality(keys);
    if forall i :: 0 <= i < |keys| ==> keys[i] in taken {
      var all := set x | x in keys;
      assert all <= taken;
      SubsetSize(all, taken);
      assert false;
    }
    k :| 0 <= k < |keys| && keys[k] !in taken;
  }

  /** What a node has free never falls below what the guests elsewhere would need. */
  lemma StillRoom(c: Cluster, roster: seq<int>, start: Plan, plan: Plan, rule: Rule, v: int, node: string)
    requires Roomy(c, roster, start.free, rule) && Tracks(c, start) && Accounts(c, roster, start, plan)
    requires v in c.guests && plan.positions[v] != node && node in start.free.vals && node in plan.free.vals
    ensures plan.free.vals[node] >= c.guests[v].memory
  {
    UsedWithin(c, roster, plan.positions, v, node);
    UsedWithin(c, roster, start.positions, v, node);
    assert MemoryConserved(c, roster, start, plan, node);
  }

  /** There is a node that none of the other guests of the rule is on. */
  lemma SpareNode(rule: Rule, positions: Positions, keys: seq<string>, v: int) returns (k: nat)
    requires Distinct(keys) && v in rule.vmids && v in positions && |Running(rule.vmids, positions)| <= |keys|
    ensures k < |keys|
    ensures forall w :: w in rule.vmids && w in positions && w != v ==> positions[w] != keys[k]
  {
    var others := Except(Running(rule.vmids, positions), v);
    var taken := NodesOf(others, positions);
    k := FreeKey(keys, taken);
    forall w | w in rule.vmids && w in positions && w != v ensures positions[w] != keys[k] {
      assert w in others;
    }
  }

  lemma EligibleIsFound(c: Cluster, plan: Plan, g: Guest, rule: string, node: string)
    requires Tracks(c, plan) && g.vmid in plan.positions && !g.Blocked()
    requires forall n :: n in plan.free.vals ==> n != ""
    requires Eligible(RequestFor(c, plan, g, None), plan.free, node)
    ensures MoveGuest(c, plan, g, rule, None).unresolved == plan.unresolved
  {
    var req := RequestFor(c, plan, g, None);
    assert node in plan.free.keys;
    var k :| 0 <= k < |plan.free.keys| && plan.free.keys[k] == node;
    var best := Best(req, plan.free, |plan.free.keys|);
    BestIsBest(req, plan.free, |plan.free.keys|);
    assert best.Some?;
    assert plan.free.keys[best.value] in plan.free.vals;
  }

  /** With room, a guest that shares its node is never refused. */
  lemma NeverRefused(c: Cluster, roster: seq<int>, start: Plan, plan: Plan, rule: Rule, g: Guest, rest: seq<Guest>)
    requires Roomy(c, roster, start.free, rule) && start == StartPlan(c.guests, start.free)
    requires Accounts(c, roster, start, plan) && plan.free.keys == start.free.keys
    requires g.vmid in c.guests && c.guests[g.vmid] == g && g.vmid in rule.vmids
    requires HasStayer(rule, plan.positions, g, rest)
    ensures MoveGuest(c, plan, g, rule.name, None).unresolved == plan.unresolved
  {
    SameRunning(rule.vmids, plan.positions, start.positions);
    var k := SpareNode(rule, plan.positions, plan.free.keys, g.vmid);
    var node := plan.free.keys[k];
    assert plan.positions[g.vmid] != node;
    StillRoom(c, roster, start, plan, rule, g.vmid, node);
    var req := RequestFor(c, plan, g, None);
    assert forall r :: r in c.rules ==> Admits(r, req.positions, g.vmid, node);
    assert forall n :: n in plan.free.vals <==> n in start.free.vals by {
      assert forall n :: n in plan.free.vals <==> n in plan.free.keys;
    }
    EligibleIsFound(c, plan, g, rule.name, node);
  }

  lemma {:induction false} SameRunning(vmids: seq<int>, a: Positions, b: Positions)
    requires a.Keys == b.Keys
    ensures Running(vmids, a) == Running(vmids, b)
  {
    if vmids != [] {
      SameRunning(vmids[..|vmids| - 1], a, b);
    }
  }

  /** The nodes stay the same ones, and every guest is on one of them. */
  ghost predicate SameNodes(start: Plan, plan: Plan) {
    plan.free.keys == start.free.keys && forall v :: v in plan.positions ==> plan.positions[v] in plan.free.vals
  }

  /** Every guest to be moved shares its node with one that stays, until its turn. */
  ghost predicate AllShare(rule: Rule, positions: Positions, gs: seq<Guest>) {
    forall k :: 0 <= k < |gs| ==> gs[k].vmid in positions && HasStayer(rule, positions, gs[k], gs)
  }

  ghost predicate OneEach(gs: seq<Guest>) {
    forall i, j :: 0 <= i < j < |gs| ==> gs[i].vmid != gs[j].vmid
  }

  lemma SharingAfterLanding(c: Cluster, plan: Plan, gs: seq<Guest>, rule: Rule, next: Plan)
    requires Tracks(c, plan) && Tracks(c, next) && gs != [] && OneEach(gs) && AllShare(rule, plan.positions, gs)
    requires next.positions == plan.positions[gs[0].vmid := next.positions[gs[0].vmid]]
    ensures AllShare(rule, next.positions, gs[1..])
  {
    forall k | 0 <= k < |gs[1..]|
      ensures gs[1..][k].vmid in next.positions && HasStayer(rule, next.positions, gs[1..][k], gs[1..])
    {
      var g := gs[k + 1];
      assert HasStayer(rule, plan.positions, g, gs);
      var w :| w in rule.vmids && w in plan.positions && w != g.vmid && plan.positions[w] == plan.positions[g.vmid]
               && forall h :: h in gs ==> h.vmid != w;
      assert gs[0] in gs;
      assert next.positions[w] == plan.positions[w];
    }
  }

  /** A guest that shares its node lands, and what the planner counts on still holds. */
  lemma LandsWithRoom(c: Cluster, roster: seq<int>, start: Plan, plan: Plan, rule: Rule, gs: seq<Guest>)
    requires Roomy(c, roster, start.free, rule) && start == StartPlan(c.guests, start.free)
    requires Accounts(c, roster, start, plan) && SameNodes(start, plan)
    requires gs != [] && gs[0].vmid in c.guests && c.guests[gs[0].vmid] == gs[0] && gs[0].vmid in rule.vmids
    requires AllShare(rule, plan.positions, gs)
    ensures var next := MoveGuest(c, plan, gs[0], rule.name, None);
            && Landed(c, plan, gs[0], rule.name, None, next) && next.unresolved == plan.unresolved
            && Accounts(c, roster, start, next)
  {
    var g := gs[0];
    var next := MoveGuest(c, plan, g, rule.name, None);
    assert HasStayer(rule, plan.positions, gs[0], gs);
    NeverRefused(c, roster, start, plan, rule, g, gs);
    MoveLandsOrIsRefused(c, plan, g, rule.name, None);
    assert Step(c, plan, g, rule.name, None, next);
    AccountsKept(c, roster, start, plan, g, rule.name, None, next);
  }

  lemma LandingSameNodes(c: Cluster, start: Plan, plan: Plan, g: Guest, rule: string, next: Plan)
    requires Tracks(c, plan) && g.vmid in plan.positions && SameNodes(start, plan)
    requires next == MoveGuest(c, plan, g, rule, None) && Landed(c, plan, g, rule, None, next)
    requires next.unresolved == plan.unresolved
    ensures SameNodes(start, next)
  {
    assert plan.positions[g.vmid] in plan.free.vals;
  }

  lemma {:induction false} MoveEachNeverRefused(c: Cluster, roster: seq<int>, start: Plan, plan: Plan, rule: Rule,
                                                gs: seq<Guest>)
    requires Roomy(c, roster, start.free, rule) && start == StartPlan(c.guests, start.free)
    requires Accounts(c, roster, start, plan) && SameNodes(start, plan)
    requires Known(c, gs) && OneEach(gs) && AllShare(rule, plan.positions, gs)
    requires forall g :: g in gs ==> g.vmid in rule.vmids
    ensures MoveEach(c, plan, gs, rule.name, None).unresolved == plan.unresolved
    decreases |gs|
  {
    if gs != [] {
      var next := MoveGuest(c, plan, gs[0], rule.name, None);
      LandsWithRoom(c, roster, start, plan, rule, gs);
      LandingSameNodes(c, start, plan, gs[0], rule.name, next);
      SharingAfterLanding(c, plan, gs, rule, next);
      MoveEachNeverRefused(c, roster, start, next, rule, gs[1..]);
    }
  }

  /** Sorting by memory keeps a list of different guests one. */
  lemma LeavingOneEach(c: Cluster, group: seq<int>)
    requires c.Valid() && GroupKnown(c, group) && Distinct(group)
    ensures OneEach(Leaving(c, group))
    ensures forall g :: g in Leaving(c, group) ==> g.vmid in group && g.vmid != group[0]
  {
    var gs := GuestsOf(c, group[1..]);
    assert Distinct(gs);
    StableSortDistinct(gs, NoLarger);
    StableSortElements(gs, NoLarger);
    LeavingKnown(c, group);
    var ls := Leaving(c, group);
    forall i, j | 0 <= i < j < |ls| ensures ls[i].vmid != ls[j].vmid {
      assert ls[i] in ls && ls[j] in ls;
    }
    forall g | g in ls ensures g.vmid in group && g.vmid != group[0] {
      assert g in gs;
      var i :| 0 <= i < |gs| && gs[i] == g;
      assert group[1..][i] == group[i + 1];
    }
  }

  /** Of the group of guests sharing the node at place `k`, all but the first leave, once each. */
  ghost predicate LeavesOnce(c: Cluster, groups: OrderedMap<seq<int>>, positions: Positions, vs: seq<int>, k: nat)
    requires GroupsKnown(c, groups) && k < |groups.keys|
  {
    && groups.keys[k] in groups.vals && GroupKnown(c, groups.vals[groups.keys[k]])
    && OneEach(Leaving(c, groups.vals[groups.keys[k]]))
    && forall g :: g in Leaving(c, groups.vals[groups.keys[k]])
         ==> g.vmid in vs && g.vmid in positions && LeavesGroup(groups, positions, g, k)
  }

  lemma {:induction false} AllLeavingShare(c: Cluster, groups: OrderedMap<seq<int>>, positions: Positions, vs: seq<int>,
                                           n: nat)
    requires GroupsKnown(c, groups) && Distinct(groups.keys) && n <= |groups.keys|
    requires forall k :: 0 <= k < |groups.keys| ==> LeavesOnce(c, groups, positions, vs, k)
    ensures OneEach(AllLeaving(c, groups, n))
    ensures forall g :: g in AllLeaving(c, groups, n) ==> LeavesSome(groups, positions, vs, g, n)
  {
    if n > 0 {
      AllLeavingShare(c, groups, positions, vs, n - 1);
      assert LeavesOnce(c, groups, positions, vs, n - 1);
      JoinLeaving(groups, positions, vs, AllLeaving(c, groups, n - 1), Leaving(c, groups.vals[groups.keys[n - 1]]), n);
    }
  }

  lemma JoinLeaving(groups: OrderedMap<seq<int>>, positions: Positions, vs: seq<int>, before: seq<Guest>,
                    now: seq<Guest>, n: nat)
    requires groups.Valid() && 0 < n <= |groups.keys| && Distinct(groups.keys)
    requires OneEach(before) && OneEach(now)
    requires forall g :: g in before ==> LeavesSome(groups, positions, vs, g, n - 1)
    requires forall g :: g in now ==> g.vmid in vs && g.vmid in positions && LeavesGroup(groups, positions, g, n - 1)
    ensures OneEach(before + now)
    ensures forall g :: g in before + now ==> LeavesSome(groups, positions, vs, g, n)
  {
    forall g | g in before ensures LeavesSome(groups, positions, vs, g, n) && positions[g.vmid] != groups.keys[n - 1] {
      var k :| 0 <= k < n - 1 && LeavesGroup(groups, positions, g, k);
    }
    forall g | g in now ensures LeavesSome(groups, positions, vs, g, n) && positions[g.vmid] == groups.keys[n - 1] {
      assert LeavesGroup(groups, positions, g, n - 1);
    }
    forall i, j | 0 <= i < |before| && 0 <= j < |now| ensures before[i].vmid != now[j].vmid {
      assert before[i] in before && now[j] in now;
    }
  }

  lemma GroupLeavesNode(c: Cluster, groups: OrderedMap<seq<int>>, positions: Positions, vs: seq<int>, k: nat)
    requires c.Valid() && Distinct(vs) && (forall v :: v in vs ==> v in positions) && Groups(groups, vs, positions)
    requires GroupsKnown(c, groups) && k < |groups.keys|
    ensures LeavesOnce(c, groups, positions, vs, k)
  {
    var node := groups.keys[k];
    assert node in groups.vals;
    OnDistinct(vs, positions, node);
    LeavingOneEach(c, groups.vals[node]);
    forall g | g in Leaving(c, groups.vals[node])
      ensures g.vmid in vs && g.vmid in positions && LeavesGroup(groups, positions, g, k)
    {
      MemberOfNode(groups, vs, positions, node, g.vmid);
    }
  }

  ghost predicate LeavesSome(groups: OrderedMap<seq<int>>, positions: Positions, vs: seq<int>, g: Guest, n: nat)
    requires groups.Valid() && n <= |groups.keys|
  {
    g.vmid in vs && g.vmid in positions && exists k :: 0 <= k < n && LeavesGroup(groups, positions, g, k)
  }

  ghost predicate LeavesGroup(groups: OrderedMap<seq<int>>, positions: Positions, g: Guest, k: nat)
    requires groups.Valid() && k < |groups.keys| && g.vmid in positions
  {
    && groups.keys[k] in groups.vals && groups.vals[groups.keys[k]] != []
    && positions[g.vmid] == groups.keys[k] && g.vmid != groups.vals[groups.keys[k]][0]
  }

  lemma LeaversShare(c: Cluster, plan: Plan, rule: Rule)
    requires c.Valid() && Tracks(c, plan) && Distinct(rule.vmids)
    ensures var groups := ByNode(Running(rule.vmids, plan.positions), plan.positions);
            && GroupsKnown(c, groups)
            && OneEach(AllLeaving(c, groups, |groups.keys|))
            && AllShare(rule, plan.positions, AllLeaving(c, groups, |groups.keys|))
  {
    var vs := Running(rule.vmids, plan.positions);
    var groups := ByNode(vs, plan.positions);
    RunningDistinct(rule.vmids, plan.positions);
    ByNodeDistinct(vs, plan.positions);
    GroupsAreKnown(c, vs, plan.positions);
    forall k | 0 <= k < |groups.keys| ensures LeavesOnce(c, groups, plan.positions, vs, k) {
      GroupLeavesNode(c, groups, plan.positions, vs, k);
    }
    AllLeavingShare(c, groups, plan.positions, vs, |groups.keys|);
    var gs := AllLeaving(c, groups, |groups.keys|);
    forall i | 0 <= i < |gs| ensures gs[i].vmid in plan.positions && HasStayer(rule, plan.positions, gs[i], gs) {
      assert gs[i] in gs;
      var k :| 0 <= k < |groups.keys| && LeavesGroup(groups, plan.positions, gs[i], k);
      var node := groups.keys[k];
      var w := groups.vals[node][0];
      assert w in groups.vals[node];
      MemberOfNode(groups, vs, plan.positions, node, w);
      forall h | h in gs ensures h.vmid != w {
        var l :| 0 <= l < |groups.keys| && LeavesGroup(groups, plan.positions, h, l);
      }
    }
  }

  lemma FixNeverRefuses(c: Cluster, roster: seq<int>, free: Memory, rule: Rule)
    requires Roomy(c, roster, free, rule)
    ensures var start := StartPlan(c.guests, free); Tracks(c, start) && Fix(c, start, rule).unresolved == []
  {
    var start := StartPlan(c.guests, free);
    var groups := ByNode(Running(rule.vmids, start.positions), start.positions);
    LeaversShare(c, start, rule);
    LeaversNamed(c, start, rule);
    AllLeavingKnown(c, groups, |groups.keys|);
    MoveEachNeverRefused(c, roster, start, start, rule, AllLeaving(c, groups, |groups.keys|));
  }

  /**
   * With room on enough nodes and nothing blocked, the planner meets a
   * keep-apart rule whatever the guests' positions, and leaves nothing unresolved.
   */
  lemma RoomyApartIsMet(c: Cluster, roster: seq<int>, free: Memory, rule: Rule)
    requires Roomy(c, roster, free, rule)
    ensures FinalPlan(c, free).unresolved == []
    ensures Holds(rule, FinalPlan(c, free).positions)
  {
    var start, sorted := StartPlan(c.guests, free), Sorted(c.rules);
    assert rule in sorted && (forall r :: r in sorted ==> r == rule) && sorted[0] in sorted by {
      StableSortElements(Enabled(c.rules), InOrder);
    }
    FixNeverRefuses(c, roster, free, rule);
    FixHoldsOrNames(c, start, rule);
    assert forall r :: r in sorted[1..] ==> r in sorted;
    FixAllLeavesAlone(c, Fix(c, start, rule), sorted[1..]);
  }
}
