/**
 * Which guests the planner moves, in which order, and to which node, told from
 * the rules and the positions alone (packages/shared/src/placement.ts).
 */
module PlacementChoices {
  import opened Prelude
  import opened PlacementRules
  import opened PlacementPlanner
  import opened PlacementSafety

  // ---------------------------------------------------------------------------
  // The guests of a rule, by where they run
  // ---------------------------------------------------------------------------

  function Runs(positions: Positions): int -> bool {
    v => v in positions
  }

  function RunsAt(positions: Positions, node: string): int -> bool {
    v => v in positions && positions[v] == node
  }

  function RunsOutside(positions: Positions, nodes: seq<string>): int -> bool {
    v => v in positions && positions[v] !in nodes
  }

  lemma FilterLast<T>(s: seq<T>, p: T -> bool)
    requires s != []
    ensures Filter(s, p) == Filter(s[..|s| - 1], p) + (if p(s[|s| - 1]) then [s[|s| - 1]] else [])
  {
    assert s[..|s| - 1] + [s[|s| - 1]] == s;
    FilterConcat(s[..|s| - 1], [s[|s| - 1]], p);
  }

  /** The running guests of a list are those of it that run, each place of it once and in its order. */
  lemma {:induction false} RunningAre(vmids: seq<int>, positions: Positions)
    ensures Running(vmids, positions) == Filter(vmids, Runs(positions))
  {
    if vmids != [] {
      RunningAre(vmids[..|vmids| - 1], positions);
      FilterLast(vmids, Runs(positions));
    }
  }

  lemma {:induction false} OnAre(vmids: seq<int>, positions: Positions, node: string)
    ensures On(Running(vmids, positions), positions, node) == Filter(vmids, RunsAt(positions, node))
  {
    if vmids != [] {
      OnAre(vmids[..|vmids| - 1], positions, node);
      OnInit(vmids, positions, node);
      FilterLast(vmids, RunsAt(positions, node));
    }
  }

  lemma {:induction false} OutsideAre(vmids: seq<int>, positions: Positions, nodes: seq<string>)
    ensures Outside(Running(vmids, positions), positions, nodes) == Filter(vmids, RunsOutside(positions, nodes))
  {
    if vmids != [] {
      var rest, last := Running(vmids[..|vmids| - 1], positions), vmids[|vmids| - 1];
      OutsideAre(vmids[..|vmids| - 1], positions, nodes);
      assert (rest + [last])[..|rest|] == rest;
      FilterLast(vmids, RunsOutside(positions, nodes));
    }
  }

  // ---------------------------------------------------------------------------
  // What a violation says
  // ---------------------------------------------------------------------------

  /** It names the rule, is soft for a preference that is not strict, and lists the guests that are out of place. */
  ghost predicate Says(x: Violation, rule: Rule, positions: Positions) {
    && x.ruleId == rule.id && x.ruleName == rule.name && x.kind == rule.kind
    && (x.soft <==> !Hard(rule))
    && match rule.kind
       case KeepApart => |x.vmids| >= 2 && exists node :: x.vmids == Filter(rule.vmids, RunsAt(positions, node))
       case KeepTogether => x.vmids == Filter(rule.vmids, Runs(positions))
       case PreferNodes => x.vmids == Filter(rule.vmids, RunsOutside(positions, rule.nodes))
  }

  ghost predicate Listed(violations: seq<Violation>, vmids: seq<int>) {
    exists k :: 0 <= k < |violations| && violations[k].vmids == vmids
  }

  /** Each group is that of the rule's guests on the node. */
  ghost predicate GroupsOf(rule: Rule, positions: Positions, groups: OrderedMap<seq<int>>) {
    && groups.Valid()
    && forall node :: node in groups.vals ==> groups.vals[node] == Filter(rule.vmids, RunsAt(positions, node))
  }

  lemma {:induction false} SharedSays(rule: Rule, positions: Positions, groups: OrderedMap<seq<int>>, n: nat)
    requires rule.enabled && rule.kind == KeepApart && GroupsOf(rule, positions, groups) && n <= |groups.keys|
    ensures forall x :: x in Shared(rule, groups, n) ==> Says(x, rule, positions)
  {
    if n > 0 {
      SharedSays(rule, positions, groups, n - 1);
    }
  }

  lemma {:induction false} SharedLists(rule: Rule, groups: OrderedMap<seq<int>>, n: nat, k: nat)
    requires groups.Valid() && k < n <= |groups.keys| && |groups.vals[groups.keys[k]]| >= 2
    ensures Listed(Shared(rule, groups, n), groups.vals[groups.keys[k]])
  {
    SharedOneMore(rule, groups, n);
    if k < n - 1 {
      SharedLists(rule, groups, n - 1, k);
    }
  }

  lemma SharedOneMore(rule: Rule, groups: OrderedMap<seq<int>>, n: nat)
    requires 0 < n <= |groups.keys| && groups.Valid()
    ensures forall vmids :: Listed(Shared(rule, groups, n - 1), vmids) ==> Listed(Shared(rule, groups, n), vmids)
    ensures |groups.vals[groups.keys[n - 1]]| >= 2 ==>
      Listed(Shared(rule, groups, n), groups.vals[groups.keys[n - 1]])
  {
    var before, all := Shared(rule, groups, n - 1), Shared(rule, groups, n);
    assert before <= all;
    if |groups.vals[groups.keys[n - 1]]| >= 2 {
      assert all[|before|].vmids == groups.vals[groups.keys[n - 1]];
    }
    forall vmids | Listed(before, vmids) ensures Listed(all, vmids) {
      var k :| 0 <= k < |before| && before[k].vmids == vmids;
      assert all[k].vmids == vmids;
    }
  }

  /** Each violation says what is out of place, and two guests kept apart on one node are said to share it. */
  lemma ViolationsSay(rule: Rule, positions: Positions)
    ensures forall x :: x in ViolationsOf(rule, positions) ==> rule.enabled && Says(x, rule, positions)
    ensures rule.enabled && rule.kind == KeepApart ==>
      forall node :: |Filter(rule.vmids, RunsAt(positions, node))| >= 2 ==>
        Listed(ViolationsOf(rule, positions), Filter(rule.vmids, RunsAt(positions, node)))
  {
    if rule.enabled {
      match rule.kind
      case KeepApart =>
        var groups := ByNode(Running(rule.vmids, positions), positions);
        forall node | node in groups.vals ensures groups.vals[node] == Filter(rule.vmids, RunsAt(positions, node)) {
          OnAre(rule.vmids, positions, node);
        }
        SharedSays(rule, positions, groups, |groups.keys|);
        forall node | |Filter(rule.vmids, RunsAt(positions, node))| >= 2
          ensures Listed(ViolationsOf(rule, positions), Filter(rule.vmids, RunsAt(positions, node)))
        {
          OnAre(rule.vmids, positions, node);
          var k :| 0 <= k < |groups.keys| && groups.keys[k] == node;
          SharedLists(rule, groups, |groups.keys|, k);
        }
      case KeepTogether => RunningAre(rule.vmids, positions);
      case PreferNodes => OutsideAre(rule.vmids, positions, rule.nodes);
    }
  }

  // ---------------------------------------------------------------------------
  // Where kept-together guests are brought
  // ---------------------------------------------------------------------------

  predicate IsAt(positions: Positions, v: int, node: string) {
    v in positions && positions[v] == node
  }

  ghost predicate NoneAt(vs: seq<int>, positions: Positions, node: string) {
    forall k :: 0 <= k < |vs| ==> !IsAt(positions, vs[k], node)
  }

  /** Going through the guests one meets node `a` before node `b`. */
  ghost predicate MetBefore(vs: seq<int>, positions: Positions, a: string, b: string) {
    exists i :: 0 <= i < |vs| && IsAt(positions, vs[i], a) && NoneAt(vs[..i + 1], positions, b)
  }

  lemma MetBeforeInMore(init: seq<int>, v: int, positions: Positions, a: string, b: string)
    requires MetBefore(init, positions, a, b)
    ensures MetBefore(init + [v], positions, a, b)
  {
    var vs := init + [v];
    var i :| 0 <= i < |init| && IsAt(positions, init[i], a) && NoneAt(init[..i + 1], positions, b);
    assert vs[..i + 1] == init[..i + 1] && vs[i] == init[i];
  }

  lemma MetBeforeNew(init: seq<int>, v: int, positions: Positions, a: string)
    requires (forall u :: u in init ==> u in positions) && v in positions
    requires On(init, positions, a) != [] && On(init, positions, positions[v]) == []
    ensures MetBefore(init + [v], positions, a, positions[v])
  {
    var vs, u := init + [v], On(init, positions, a)[0];
    assert u in On(init, positions, a);
    var i :| 0 <= i < |init| && init[i] == u;
    NoneOn(init, positions, positions[v], i);
    assert vs[..i + 1] == init[..i + 1] && vs[i] == init[i];
  }

  lemma NoneOn(vs: seq<int>, positions: Positions, node: string, i: nat)
    requires (forall u :: u in vs ==> u in positions) && On(vs, positions, node) == [] && i < |vs|
    ensures NoneAt(vs[..i + 1], positions, node)
  {
    assert forall k :: 0 <= k < |vs| ==> vs[k] in vs;
    assert forall v :: v in vs ==> v !in On(vs, positions, node);
  }

  /** The nodes are in the order in which they are met. */
  ghost predicate InOrderMet(nodes: seq<string>, vs: seq<int>, positions: Positions) {
    forall i, j :: 0 <= i < j < |nodes| ==> MetBefore(vs, positions, nodes[i], nodes[j])
  }

  lemma {:induction false} NodesInOrderMet(vs: seq<int>, positions: Positions)
    requires forall v :: v in vs ==> v in positions
    ensures InOrderMet(ByNode(vs, positions).keys, vs, positions)
  {
    if vs != [] {
      var init, v := vs[..|vs| - 1], vs[|vs| - 1];
      assert vs == init + [v];
      NodesInOrderMet(init, positions);
      NodeMet(init, v, positions, ByNode(init, positions));
    }
  }

  lemma NodeMet(init: seq<int>, v: int, positions: Positions, groups: OrderedMap<seq<int>>)
    requires (forall u :: u in init ==> u in positions) && v in positions
    requires Groups(groups, init, positions) && InOrderMet(groups.keys, init, positions)
    ensures forall g :: InOrderMet(groups.Set(positions[v], g).keys, init + [v], positions)
  {
    var nodes := if positions[v] in groups.vals then groups.keys else groups.keys + [positions[v]];
    forall i, j | 0 <= i < j < |nodes| ensures MetBefore(init + [v], positions, nodes[i], nodes[j]) {
      if j < |groups.keys| {
        MetBeforeInMore(init, v, positions, nodes[i], nodes[j]);
      } else {
        assert groups.keys[i] in groups.keys;
        MetBeforeNew(init, v, positions, nodes[i]);
      }
    }
  }

  /**
   * The node for kept-together guests: no other runs more of them, of those that run as many none has more memory
   * free, and of those with as much it is the first one meets.
   */
  ghost predicate Gathers(vs: seq<int>, positions: Positions, free: Memory, t: string)
    requires forall v :: v in vs ==> v in positions
  {
    && On(vs, positions, t) != []
    && forall n :: On(vs, positions, n) != [] && n != t ==> Outdoes(vs, positions, free, t, n)
  }

  ghost predicate Outdoes(vs: seq<int>, positions: Positions, free: Memory, t: string, n: string)
    requires forall v :: v in vs ==> v in positions
  {
    var most, fewer := |On(vs, positions, t)|, |On(vs, positions, n)|;
    var left, less := free.GetOr(t, 0), free.GetOr(n, 0);
    most > fewer || (most == fewer && (left > less || (left == less && MetBefore(vs, positions, t, n))))
  }

  lemma TargetGathers(vs: seq<int>, positions: Positions, free: Memory)
    requires (forall v :: v in vs ==> v in positions) && ByNode(vs, positions).keys != []
    ensures Gathers(vs, positions, free, Target(ByNode(vs, positions), free))
  {
    var groups := ByNode(vs, positions);
    NodesInOrderMet(vs, positions);
    var i := TargetIsFirst(groups, free);
    FirstGathers(vs, positions, free, groups, i);
  }

  lemma FirstGathers(vs: seq<int>, positions: Positions, free: Memory, groups: OrderedMap<seq<int>>, i: nat)
    requires (forall v :: v in vs ==> v in positions)
      && Groups(groups, vs, positions) && InOrderMet(groups.keys, vs, positions)
    requires i < |groups.keys| && forall j :: 0 <= j < |groups.keys| ==> Precedes(groups, free, i, j)
    ensures Gathers(vs, positions, free, groups.keys[i])
  {
    var t := groups.keys[i];
    assert t in groups.keys;
    forall n | On(vs, positions, n) != [] && n != t ensures Outdoes(vs, positions, free, t, n) {
      var j :| 0 <= j < |groups.keys| && groups.keys[j] == n;
      PrecedingOutdoes(vs, positions, free, groups, i, j);
    }
  }

  lemma PrecedingOutdoes(vs: seq<int>, positions: Positions, free: Memory, groups: OrderedMap<seq<int>>, i: nat,
                         j: nat)
    requires (forall v :: v in vs ==> v in positions)
      && Groups(groups, vs, positions) && InOrderMet(groups.keys, vs, positions)
    requires i < |groups.keys| && j < |groups.keys| && i != j && Precedes(groups, free, i, j)
    ensures Outdoes(vs, positions, free, groups.keys[i], groups.keys[j])
  {
    assert groups.keys[i] in groups.keys && groups.keys[j] in groups.keys;
  }

  /** The group at place `i` has more guests, or as many and more memory free, or as much and comes first. */
  ghost predicate Precedes(groups: OrderedMap<seq<int>>, free: Memory, i: nat, j: nat)
    requires groups.Valid() && i < |groups.keys| && j < |groups.keys|
  {
    var most, fewer := |groups.vals[groups.keys[i]]|, |groups.vals[groups.keys[j]]|;
    var left, less := free.GetOr(groups.keys[i], 0), free.GetOr(groups.keys[j], 0);
    most > fewer || (most == fewer && (left > less || (left == less && i <= j)))
  }

  lemma TargetIsFirst(groups: OrderedMap<seq<int>>, free: Memory) returns (i: nat)
    requires groups.Valid() && groups.keys != []
    ensures i < |groups.keys| && Target(groups, free) == groups.keys[i]
    ensures forall j :: 0 <= j < |groups.keys| ==> Precedes(groups, free, i, j)
  {
    var entries, any := Entries(groups, free, |groups.keys|), (e: Entry) => true;
    assert any(entries[0]);
    i := FirstIsLeast(entries, MostFirst, any);
    FilterAll(StableSort(entries, MostFirst), any);
    forall j | 0 <= j < |groups.keys| ensures Precedes(groups, free, i, j) {
      assert any(entries[j]) && MostFirst(entries[i], entries[j]);
    }
  }

  // ---------------------------------------------------------------------------
  // Who moves
  // ---------------------------------------------------------------------------

  /** Among what has been said since, an entry says that the guest could not be moved for the rule. */
  ghost predicate Said(plan: Plan, after: Plan, vmid: int, name: string) {
    exists k :: |plan.unresolved| <= k < |after.unresolved|
                && after.unresolved[k].vmid == vmid && after.unresolved[k].ruleName == name
  }

  /** It has been brought to a node of `only`, or another one when there is none, or it is said that it could not be. */
  ghost predicate Settled(plan: Plan, after: Plan, vmid: int, name: string, only: Option<set<string>>)
    requires vmid in plan.positions
  {
    && vmid in after.positions
    && if only.Some? then after.positions[vmid] in only.value || Said(plan, after, vmid, name)
       else after.positions[vmid] != plan.positions[vmid] || Said(plan, after, vmid, name)
  }

  ghost predicate Includes(gs: seq<Guest>, vmid: int) {
    exists k :: 0 <= k < |gs| && gs[k].vmid == vmid
  }

  /** Guests of the list move and no others, and none that is where it should be. */
  lemma {:induction false} OthersStay(c: Cluster, plan: Plan, gs: seq<Guest>, name: string, only: Option<set<string>>,
                                      v: int)
    requires c.Valid() && Tracks(c, plan) && Known(c, gs) && v in plan.positions
    requires !Includes(gs, v) || (only.Some? && plan.positions[v] in only.value)
    ensures MoveEach(c, plan, gs, name, only).positions[v] == plan.positions[v]
    decreases |gs|
  {
    if gs != [] {
      var g := gs[0];
      FirstOrLater(gs, v);
      if only.Some? && plan.positions[g.vmid] in only.value {
        OthersStay(c, plan, gs[1..], name, only, v);
      } else {
        MoveLandsOrIsRefused(c, plan, g, name, only);
        OthersStay(c, MoveGuest(c, plan, g, name, only), gs[1..], name, only, v);
      }
    }
  }

  lemma SaidLater(plan: Plan, next: Plan, after: Plan, vmid: int, name: string)
    requires plan.unresolved <= next.unresolved <= after.unresolved
    requires Said(plan, next, vmid, name) || Said(next, after, vmid, name)
    ensures Said(plan, after, vmid, name)
  {
    if Said(plan, next, vmid, name) {
      var k :| |plan.unresolved| <= k < |next.unresolved|
               && next.unresolved[k].vmid == vmid && next.unresolved[k].ruleName == name;
      assert after.unresolved[k] == next.unresolved[k];
    }
  }

  /** With nodes to go to, each guest of the list ends on one, or it is said that it could not. */
  lemma {:induction false} EachSettles(c: Cluster, plan: Plan, gs: seq<Guest>, name: string, only: set<string>, v: int)
    requires c.Valid() && Tracks(c, plan) && Known(c, gs) && v in plan.positions && Includes(gs, v)
    ensures Settled(plan, MoveEach(c, plan, gs, name, Some(only)), v, name, Some(only))
    decreases |gs|
  {
    var g, rest := gs[0], gs[1..];
    var next := if plan.positions[g.vmid] in only then plan else MoveGuest(c, plan, g, name, Some(only));
    var after := MoveEach(c, next, rest, name, Some(only));
    MoveLandsOrIsRefused(c, plan, g, name, Some(only));
    if Includes(rest, v) {
      EachSettles(c, next, rest, name, only, v);
      if Said(next, after, v, name) {
        SaidLater(plan, next, after, v, name);
      }
    } else {
      FirstOrLater(gs, v);
      OthersStay(c, next, rest, name, Some(only), v);
      if next.positions[v] !in only {
        assert next.unresolved[|plan.unresolved|].vmid == v;
        SaidLater(plan, next, after, v, name);
      }
    }
  }

  lemma FirstOrLater(gs: seq<Guest>, v: int)
    requires gs != []
    ensures Includes(gs, v) <==> gs[0].vmid == v || Includes(gs[1..], v)
  {
    if k :| 1 <= k < |gs| && gs[k].vmid == v {
      assert gs[1..][k - 1].vmid == v;
    }
    if k :| 0 <= k < |gs| - 1 && gs[1..][k].vmid == v {
      assert gs[k + 1].vmid == v;
    }
  }

  lemma NamedAmong(c: Cluster, vs: seq<int>, v: int)
    requires c.Valid() && forall u :: u in vs ==> u in c.guests
    ensures Includes(GuestsOf(c, vs), v) <==> v in vs
  {
    var gs := GuestsOf(c, vs);
    if v in vs {
      var i :| 0 <= i < |vs| && vs[i] == v;
      assert gs[i].vmid == v;
    }
  }

  /**
   * Correcting a rule to keep together moves exactly its guests off the node that gathers them, refusals aside; with
   * no two nodes among them it does nothing.
   */
  lemma TogetherMovesTheRest(c: Cluster, plan: Plan, rule: Rule) returns (t: string)
    requires c.Valid() && Tracks(c, plan) && rule.kind == KeepTogether
    ensures Holds(rule, plan.positions) ==> Fix(c, plan, rule) == plan
    ensures !Holds(rule, plan.positions) ==>
      var after := Fix(c, plan, rule);
      && Gathers(Running(rule.vmids, plan.positions), plan.positions, plan.free, t)
      && forall v :: v in plan.positions ==>
          if v !in rule.vmids || plan.positions[v] == t then after.positions[v] == plan.positions[v]
          else Settled(plan, after, v, rule.name, Some({t}))
  {
    var running := Running(rule.vmids, plan.positions);
    var groups := ByNode(running, plan.positions);
    TogetherIffOneNode(rule, plan.positions);
    if |groups.keys| < 2 {
      t := "";
    } else {
      t := Target(groups, plan.free);
      TargetGathers(running, plan.positions, plan.free);
      GuestsOfKnown(c, running);
      WithinMovesTheRest(c, plan, rule, {t});
    }
  }

  lemma WithinMovesTheRest(c: Cluster, plan: Plan, rule: Rule, only: set<string>)
    requires c.Valid() && Tracks(c, plan)
    requires Known(c, GuestsOf(c, Running(rule.vmids, plan.positions)))
    ensures var after := MoveEach(c, plan, GuestsOf(c, Running(rule.vmids, plan.positions)), rule.name, Some(only));
            forall v :: v in plan.positions ==>
              if v !in rule.vmids || plan.positions[v] in only then after.positions[v] == plan.positions[v]
              else Settled(plan, after, v, rule.name, Some(only))
  {
    var gs := GuestsOf(c, Running(rule.vmids, plan.positions));
    var after := MoveEach(c, plan, gs, rule.name, Some(only));
    forall v | v in plan.positions
      ensures if v !in rule.vmids || plan.positions[v] in only then after.positions[v] == plan.positions[v]
              else Settled(plan, after, v, rule.name, Some(only))
    {
      NamedAmong(c, Running(rule.vmids, plan.positions), v);
      if v !in rule.vmids || plan.positions[v] in only {
        OthersStay(c, plan, gs, rule.name, Some(only), v);
      } else {
        EachSettles(c, plan, gs, rule.name, only, v);
      }
    }
  }

  /** Correcting a preference moves exactly its guests outside the nodes it names, refusals aside. */
  lemma PreferenceMovesTheRest(c: Cluster, plan: Plan, rule: Rule)
    requires c.Valid() && Tracks(c, plan) && rule.kind == PreferNodes
    ensures var after, wanted := Fix(c, plan, rule), set n | n in rule.nodes;
            forall v :: v in plan.positions ==>
              if v !in rule.vmids || plan.positions[v] in wanted then after.positions[v] == plan.positions[v]
              else Settled(plan, after, v, rule.name, Some(wanted))
  {
    GuestsOfKnown(c, Running(rule.vmids, plan.positions));
    WithinMovesTheRest(c, plan, rule, set n | n in rule.nodes);
  }

  // ---------------------------------------------------------------------------
  // Who leaves a node that is shared
  // ---------------------------------------------------------------------------

  function OfMemory(memory: nat): Guest -> bool {
    (g: Guest) => g.memory == memory
  }

  /** All of a group but the first leave, the smallest first, and equals in their order. */
  lemma LeavingSmallestFirst(c: Cluster, group: seq<int>)
    requires c.Valid() && GroupKnown(c, group)
    ensures var gs, rest := Leaving(c, group), GuestsOf(c, group[1..]);
            && multiset(gs) == multiset(rest)
            && Ascending(gs)
            && forall m :: Filter(gs, OfMemory(m)) == Filter(rest, OfMemory(m))
  {
    var rest := GuestsOf(c, group[1..]);
    StableSortSorts(rest, NoLarger);
    assert forall i, j :: 0 <= i < j < |Leaving(c, group)| ==> NoLarger(Leaving(c, group)[i], Leaving(c, group)[j]);
    forall m ensures Filter(Leaving(c, group), OfMemory(m)) == Filter(rest, OfMemory(m)) {
      StableSortKeepsOrder(rest, NoLarger, OfMemory(m));
    }
  }

  /** Of two that leave one node the smaller goes first; of two nodes, the guests of the one first met. */
  ghost predicate LeavesBefore(vs: seq<int>, positions: Positions, g: Guest, h: Guest) {
    && g.vmid in positions && h.vmid in positions
    && if positions[g.vmid] == positions[h.vmid] then g.memory <= h.memory
       else MetBefore(vs, positions, positions[g.vmid], positions[h.vmid])
  }

  /** All of them run on the node. */
  ghost predicate AllAt(positions: Positions, gs: seq<Guest>, node: string) {
    forall g :: g in gs ==> IsAt(positions, g.vmid, node)
  }

  ghost predicate Ascending(gs: seq<Guest>) {
    forall i, j :: 0 <= i < j < |gs| ==> gs[i].memory <= gs[j].memory
  }

  ghost predicate InLeavingOrder(vs: seq<int>, positions: Positions, gs: seq<Guest>) {
    forall i, j :: 0 <= i < j < |gs| ==> LeavesBefore(vs, positions, gs[i], gs[j])
  }

  function Joined(parts: seq<seq<Guest>>): seq<Guest> {
    if parts == [] then [] else Joined(parts[..|parts| - 1]) + parts[|parts| - 1]
  }

  lemma {:induction false} InSomePart(parts: seq<seq<Guest>>, g: Guest)
    ensures g in Joined(parts) <==> exists k :: 0 <= k < |parts| && g in parts[k]
  {
    if parts != [] {
      var init := parts[..|parts| - 1];
      InSomePart(init, g);
      assert forall k :: 0 <= k < |init| ==> init[k] == parts[k];
    }
  }

  /** Part k leaves node k. */
  ghost predicate PartsLeave(positions: Positions, parts: seq<seq<Guest>>, nodes: seq<string>) {
    |parts| == |nodes| && forall k :: 0 <= k < |parts| ==> AllAt(positions, parts[k], nodes[k])
  }

  lemma JoinedAt(positions: Positions, parts: seq<seq<Guest>>, nodes: seq<string>, g: Guest) returns (k: nat)
    requires PartsLeave(positions, parts, nodes) && g in Joined(parts)
    ensures k < |nodes| && IsAt(positions, g.vmid, nodes[k])
  {
    InSomePart(parts, g);
    k :| 0 <= k < |parts| && g in parts[k];
    assert AllAt(positions, parts[k], nodes[k]);
  }

  lemma {:induction false} JoinedInOrder(vs: seq<int>, positions: Positions, parts: seq<seq<Guest>>, nodes: seq<string>)
    requires PartsLeave(positions, parts, nodes) && InOrderMet(nodes, vs, positions)
    requires forall k :: 0 <= k < |parts| ==> Ascending(parts[k])
    ensures InLeavingOrder(vs, positions, Joined(parts))
  {
    if parts != [] {
      var last := |parts| - 1;
      JoinedInOrder(vs, positions, parts[..last], nodes[..last]);
      OneMoreLeaves(vs, positions, parts, nodes, Joined(parts[..last]));
    }
  }

  lemma OneMoreLeaves(vs: seq<int>, positions: Positions, parts: seq<seq<Guest>>, nodes: seq<string>,
                      before: seq<Guest>)
    requires parts != [] && PartsLeave(positions, parts, nodes) && InOrderMet(nodes, vs, positions)
    requires Ascending(parts[|parts| - 1])
    requires before == Joined(parts[..|parts| - 1]) && InLeavingOrder(vs, positions, before)
    ensures InLeavingOrder(vs, positions, before + parts[|parts| - 1])
  {
    var last := |parts| - 1;
    var now := parts[last];
    var gs := before + now;
    assert AllAt(positions, now, nodes[last]);
    forall i, j | 0 <= i < j < |gs| ensures LeavesBefore(vs, positions, gs[i], gs[j]) {
      if j < |before| {
        assert LeavesBefore(vs, positions, before[i], before[j]);
      } else {
        assert gs[j] in now;
        if i < |before| {
          assert gs[i] in before;
          var k := JoinedAt(positions, parts[..last], nodes[..last], gs[i]);
          assert MetBefore(vs, positions, nodes[k], nodes[last]);
        } else {
          assert gs[i] in now;
        }
      }
    }
  }

  lemma {:induction false} JoinedDistinct(positions: Positions, parts: seq<seq<Guest>>, nodes: seq<string>)
    requires PartsLeave(positions, parts, nodes) && Distinct(nodes)
    requires forall k :: 0 <= k < |parts| ==> Distinct(parts[k])
    ensures Distinct(Joined(parts))
  {
    if parts != [] {
      var last := |parts| - 1;
      var before, now := Joined(parts[..last]), parts[last];
      JoinedDistinct(positions, parts[..last], nodes[..last]);
      assert AllAt(positions, now, nodes[last]);
      forall i, j | 0 <= i < |before| && 0 <= j < |now| ensures before[i] != now[j] {
        assert now[j] in now && before[i] in before;
        var k := JoinedAt(positions, parts[..last], nodes[..last], before[i]);
      }
    }
  }

  /** Who leaves each of the first `n` nodes. */
  function LeavingParts(c: Cluster, groups: OrderedMap<seq<int>>, n: nat): (r: seq<seq<Guest>>)
    requires GroupsKnown(c, groups) && n <= |groups.keys|
    ensures |r| == n
  {
    if n == 0 then []
    else
      assert groups.keys[n - 1] in groups.keys;
      LeavingParts(c, groups, n - 1) + [Leaving(c, groups.vals[groups.keys[n - 1]])]
  }

  lemma {:induction false} PartLeaves(c: Cluster, groups: OrderedMap<seq<int>>, n: nat, k: nat)
    requires GroupsKnown(c, groups) && k < n <= |groups.keys| && groups.keys[k] in groups.vals
    ensures LeavingParts(c, groups, n)[k] == Leaving(c, groups.vals[groups.keys[k]])
  {
    if k < n - 1 {
      PartLeaves(c, groups, n - 1, k);
      EarlierPart(c, groups, n, k);
    }
  }

  lemma EarlierPart(c: Cluster, groups: OrderedMap<seq<int>>, n: nat, k: nat)
    requires GroupsKnown(c, groups) && k < n - 1 && n <= |groups.keys|
    ensures LeavingParts(c, groups, n)[k] == LeavingParts(c, groups, n - 1)[k]
  {
  }

  lemma {:induction false} LeavingInParts(c: Cluster, groups: OrderedMap<seq<int>>, n: nat)
    requires GroupsKnown(c, groups) && n <= |groups.keys|
    ensures AllLeaving(c, groups, n) == Joined(LeavingParts(c, groups, n))
  {
    if n > 0 {
      LeavingInParts(c, groups, n - 1);
      JoinedMore(LeavingParts(c, groups, n - 1), Leaving(c, groups.vals[groups.keys[n - 1]]));
    }
  }

  lemma JoinedMore(parts: seq<seq<Guest>>, part: seq<Guest>)
    ensures Joined(parts + [part]) == Joined(parts) + part
  {
    assert (parts + [part])[..|parts|] == parts;
  }

  lemma PartsLeaveTheirs(c: Cluster, vs: seq<int>, positions: Positions, groups: OrderedMap<seq<int>>)
    requires c.Valid() && GroupsKnown(c, groups) && (forall v :: v in vs ==> v in positions)
    requires Groups(groups, vs, positions)
    ensures var parts := LeavingParts(c, groups, |groups.keys|);
            PartsLeave(positions, parts, groups.keys) && forall k :: 0 <= k < |parts| ==> Ascending(parts[k])
  {
    var parts := LeavingParts(c, groups, |groups.keys|);
    forall k | 0 <= k < |parts| ensures AllAt(positions, parts[k], groups.keys[k]) && Ascending(parts[k]) {
      var node := groups.keys[k];
      assert node in groups.keys;
      PartLeaves(c, groups, |groups.keys|, k);
      LeavingAreMembers(c, groups.vals[node], groups.vals[node]);
      LeavingSmallestFirst(c, groups.vals[node]);
    }
  }

  /** The guests that leave, in the order in which they do, told from the rule and the positions. */
  lemma LeaveInOrder(c: Cluster, vs: seq<int>, positions: Positions)
    requires c.Valid() && positions.Keys == c.guests.Keys && forall v :: v in vs ==> v in positions
    ensures var groups := ByNode(vs, positions);
            && GroupsKnown(c, groups)
            && InLeavingOrder(vs, positions, AllLeaving(c, groups, |groups.keys|))
  {
    var groups := ByNode(vs, positions);
    GroupsAreKnown(c, vs, positions);
    NodesInOrderMet(vs, positions);
    var parts := LeavingParts(c, groups, |groups.keys|);
    LeavingInParts(c, groups, |groups.keys|);
    PartsLeaveTheirs(c, vs, positions, groups);
    JoinedInOrder(vs, positions, parts, groups.keys);
  }

  /** None that a rule names before it runs on its node. */
  ghost predicate IsFirstThere(vmids: seq<int>, positions: Positions, v: int)
    requires v in positions
  {
    exists i :: 0 <= i < |vmids| && vmids[i] == v && NoneAt(vmids[..i], positions, positions[v])
  }

  lemma {:induction false} FilterStart<T>(s: seq<T>, p: T -> bool) returns (i: nat)
    requires Filter(s, p) != []
    ensures i < |s| && s[i] == Filter(s, p)[0] && p(s[i]) && forall k :: 0 <= k < i ==> !p(s[k])
  {
    if p(s[0]) {
      i := 0;
    } else {
      i := FilterStart(s[1..], p);
      i := i + 1;
    }
  }

  lemma FirstThereIs(vmids: seq<int>, positions: Positions, v: int)
    requires Distinct(vmids) && v in vmids && v in positions
    ensures var group := On(Running(vmids, positions), positions, positions[v]);
            group != [] && (IsFirstThere(vmids, positions, v) <==> group[0] == v)
  {
    var node := positions[v];
    var group := On(Running(vmids, positions), positions, node);
    assert v in group;
    OnAre(vmids, positions, node);
    var i := FilterStart(vmids, RunsAt(positions, node));
    assert NoneAt(vmids[..i], positions, node);
    if IsFirstThere(vmids, positions, v) {
      var k :| 0 <= k < |vmids| && vmids[k] == v && NoneAt(vmids[..k], positions, node);
      if i < k {
        assert IsAt(positions, vmids[..k][i], node);
      }
      assert k == i;
    }
  }

  lemma LeaversDistinct(c: Cluster, vs: seq<int>, positions: Positions)
    requires c.Valid() && positions.Keys == c.guests.Keys && (forall v :: v in vs ==> v in positions) && Distinct(vs)
    ensures var groups := ByNode(vs, positions);
            GroupsKnown(c, groups) && Distinct(AllLeaving(c, groups, |groups.keys|))
  {
    var groups := ByNode(vs, positions);
    GroupsAreKnown(c, vs, positions);
    ByNodeDistinct(vs, positions);
    var parts := LeavingParts(c, groups, |groups.keys|);
    LeavingInParts(c, groups, |groups.keys|);
    PartsLeaveTheirs(c, vs, positions, groups);
    forall k | 0 <= k < |parts| ensures Distinct(parts[k]) {
      assert groups.keys[k] in groups.keys;
      PartLeaves(c, groups, |groups.keys|, k);
      OnDistinct(vs, positions, groups.keys[k]);
      OneNodeDistinct(c, groups.vals[groups.keys[k]]);
    }
    JoinedDistinct(positions, parts, groups.keys);
  }

  lemma OneNodeDistinct(c: Cluster, group: seq<int>)
    requires c.Valid() && GroupKnown(c, group) && Distinct(group)
    ensures Distinct(Leaving(c, group))
  {
    var gs := GuestsOf(c, group[1..]);
    assert forall i :: 0 <= i < |gs| ==> gs[i].vmid == group[i + 1];
    StableSortDistinct(gs, NoLarger);
  }

  /** Listed once each, every guest ends on another node, or it is said that it could not move. */
  lemma {:induction false} EachLeaves(c: Cluster, plan: Plan, gs: seq<Guest>, name: string, v: int)
    requires c.Valid() && Tracks(c, plan) && Known(c, gs) && v in plan.positions && Distinct(gs) && Includes(gs, v)
    ensures Settled(plan, MoveEach(c, plan, gs, name, None), v, name, None)
    decreases |gs|
  {
    var g, rest := gs[0], gs[1..];
    var next := MoveGuest(c, plan, g, name, None);
    var after := MoveEach(c, next, rest, name, None);
    MoveLandsOrIsRefused(c, plan, g, name, None);
    if Includes(rest, v) {
      LaterIsAnother(c, gs, v);
      EachLeaves(c, next, rest, name, v);
      if Said(next, after, v, name) {
        SaidLater(plan, next, after, v, name);
      }
    } else {
      FirstOrLater(gs, v);
      OthersStay(c, next, rest, name, None, v);
      if next.positions[v] == plan.positions[v] {
        assert next.unresolved[|plan.unresolved|].vmid == v;
        SaidLater(plan, next, after, v, name);
      }
    }
  }

  lemma LaterIsAnother(c: Cluster, gs: seq<Guest>, v: int)
    requires gs != [] && Known(c, gs) && Distinct(gs) && Includes(gs[1..], v)
    ensures gs[0].vmid != v
  {
    var k :| 0 <= k < |gs| - 1 && gs[1..][k].vmid == v;
    assert gs[k + 1] in gs && gs[0] in gs && gs[k + 1] != gs[0];
  }

  lemma LeavesUnlessFirst(c: Cluster, plan: Plan, rule: Rule, v: int)
    requires c.Valid() && Tracks(c, plan) && Distinct(rule.vmids) && v in plan.positions
    ensures var groups := ByNode(Running(rule.vmids, plan.positions), plan.positions);
            && GroupsKnown(c, groups)
            && (Includes(AllLeaving(c, groups, |groups.keys|), v) <==>
                v in rule.vmids && !IsFirstThere(rule.vmids, plan.positions, v))
  {
    var running := Running(rule.vmids, plan.positions);
    var groups := ByNode(running, plan.positions);
    GroupsAreKnown(c, running, plan.positions);
    RunningDistinct(rule.vmids, plan.positions);
    var node := plan.positions[v];
    if Includes(AllLeaving(c, groups, |groups.keys|), v) {
      LeaverIsLater(c, running, plan.positions, groups, v);
    }
    if v in rule.vmids {
      FirstThereIs(rule.vmids, plan.positions, v);
      var group := On(running, plan.positions, node);
      assert v in group;
      var i :| 0 <= i < |group| && group[i] == v;
      if i > 0 {
        var k :| 0 <= k < |groups.keys| && groups.keys[k] == node;
        var g := LeaversOf(c, groups, |groups.keys|, k, i);
      }
    }
  }

  /** Who leaves is one of the group on its node, and not the first. */
  lemma LeaverIsLater(c: Cluster, vs: seq<int>, positions: Positions, groups: OrderedMap<seq<int>>, v: int)
    requires c.Valid() && GroupsKnown(c, groups) && (forall u :: u in vs ==> u in positions) && Distinct(vs)
    requires Groups(groups, vs, positions) && v in positions && Includes(AllLeaving(c, groups, |groups.keys|), v)
    ensures v in vs && v in On(vs, positions, positions[v]) && On(vs, positions, positions[v])[0] != v
  {
    var gs := AllLeaving(c, groups, |groups.keys|);
    var parts := LeavingParts(c, groups, |groups.keys|);
    LeavingInParts(c, groups, |groups.keys|);
    var i :| 0 <= i < |gs| && gs[i].vmid == v;
    assert gs[i] in gs;
    InSomePart(parts, gs[i]);
    var k :| 0 <= k < |parts| && gs[i] in parts[k];
    var node := groups.keys[k];
    assert node in groups.keys;
    PartLeaves(c, groups, |groups.keys|, k);
    OnDistinct(vs, positions, node);
    NotTheFirst(c, groups.vals[node], gs[i]);
  }

  lemma NotTheFirst(c: Cluster, group: seq<int>, g: Guest)
    requires c.Valid() && GroupKnown(c, group) && Distinct(group) && g in Leaving(c, group)
    ensures g.vmid in group && g.vmid != group[0]
  {
    var gs := GuestsOf(c, group[1..]);
    StableSortElements(gs, NoLarger);
    var i :| 0 <= i < |gs| && gs[i] == g;
    assert g.vmid == group[1..][i] == group[i + 1];
  }

  /** Correcting a rule to keep apart moves exactly its guests that are not the first on their node, refusals aside. */
  lemma ApartMovesTheRest(c: Cluster, plan: Plan, rule: Rule)
    requires c.Valid() && Tracks(c, plan) && rule.kind == KeepApart && Distinct(rule.vmids)
    ensures var after := Fix(c, plan, rule);
            forall v :: v in plan.positions ==>
              if v !in rule.vmids || IsFirstThere(rule.vmids, plan.positions, v)
              then after.positions[v] == plan.positions[v]
              else Settled(plan, after, v, rule.name, None)
  {
    var running := Running(rule.vmids, plan.positions);
    var groups := ByNode(running, plan.positions);
    GroupsAreKnown(c, running, plan.positions);
    RunningDistinct(rule.vmids, plan.positions);
    LeaversDistinct(c, running, plan.positions);
    AllLeavingKnown(c, groups, |groups.keys|);
    var gs := AllLeaving(c, groups, |groups.keys|);
    forall v | v in plan.positions
      ensures if v !in rule.vmids || IsFirstThere(rule.vmids, plan.positions, v)
              then Fix(c, plan, rule).positions[v] == plan.positions[v]
              else Settled(plan, Fix(c, plan, rule), v, rule.name, None)
    {
      LeavesUnlessFirst(c, plan, rule, v);
      if v !in rule.vmids || IsFirstThere(rule.vmids, plan.positions, v) {
        OthersStay(c, plan, gs, rule.name, None, v);
      } else {
        EachLeaves(c, plan, gs, rule.name, v);
      }
    }
  }

  // ---------------------------------------------------------------------------
  // Which node takes a guest
  // ---------------------------------------------------------------------------

  /** The node is another one, among those wanted, with room, and every rule admits the guest there. */
  ghost predicate Takes(c: Cluster, plan: Plan, g: Guest, only: Option<set<string>>, node: string)
    requires g.vmid in plan.positions
  {
    && node in plan.free.vals && node != plan.positions[g.vmid]
    && (only.Some? ==> node in only.value)
    && plan.free.vals[node] >= g.memory
    && forall rule :: rule in c.rules ==> Admits(rule, plan.positions - {g.vmid}, g.vmid, node)
  }

  /** Every enabled preference that names the guest names the node. */
  ghost predicate WantedOn(rules: seq<Rule>, vmid: int, node: string) {
    forall rule ::
      rule in rules && rule.enabled && rule.kind == PreferNodes && vmid in rule.vmids ==> node in rule.nodes
  }

  ghost predicate ComesBefore(nodes: seq<string>, a: string, b: string) {
    exists i :: 0 <= i < |nodes| && nodes[i] == a && b !in nodes[..i]
  }

  /** The guest is wanted on `a` and not on `b`; or on both or neither, and `a` has more memory free, or comes first. */
  ghost predicate BetterFor(rules: seq<Rule>, free: Memory, vmid: int, a: string, b: string)
    requires a in free.vals && b in free.vals
  {
    if WantedOn(rules, vmid, a) != WantedOn(rules, vmid, b) then WantedOn(rules, vmid, a)
    else free.vals[a] > free.vals[b] || (free.vals[a] == free.vals[b] && ComesBefore(free.keys, a, b))
  }

  lemma RankIsWanted(rules: seq<Rule>, vmid: int, a: string, b: string)
    ensures Rank(rules, vmid, a) < Rank(rules, vmid, b) <==> WantedOn(rules, vmid, a) && !WantedOn(rules, vmid, b)
  {
    assert forall n :: WantedOn(rules, vmid, n) <==>
      forall rule :: rule in rules && Prefers(rule, vmid) ==> n in rule.nodes;
  }

  lemma BestIsBetter(req: Request, free: Memory, b: nat, node: string)
    requires free.Valid() && b < |free.keys| && IsBest(req, free, |free.keys|, Some(b))
    requires node in free.vals && Eligible(req, free, node) && node != free.keys[b]
    ensures free.keys[b] in free.vals && BetterFor(req.rules, free, req.guest.vmid, free.keys[b], node)
  {
    var to, vmid := free.keys[b], req.guest.vmid;
    var k :| 0 <= k < |free.keys| && free.keys[k] == node;
    RankIsWanted(req.rules, vmid, to, node);
    RankIsWanted(req.rules, vmid, node, to);
    assert to in free.keys && !Better(req, free, node, to);
    if node in free.keys[..b] {
      var j :| 0 <= j < b && free.keys[j] == node;
      assert Better(req, free, to, node);
    } else {
      assert ComesBefore(free.keys, to, node);
    }
  }

  /**
   * A guest that may move goes to the best of the nodes that take it; if none does, that is said, and if it is
   * blocked, by what.
   */
  lemma BestNodeTakesIt(c: Cluster, plan: Plan, g: Guest, rule: string, only: Option<set<string>>)
    returns (to: Option<string>)
    requires Tracks(c, plan) && g.vmid in plan.positions
    ensures to == None ==> forall node :: !Takes(c, plan, g, only, node)
    ensures to.Some? ==>
      && Takes(c, plan, g, only, to.value)
      && forall node :: Takes(c, plan, g, only, node) && node != to.value ==>
          BetterFor(c.rules, plan.free, g.vmid, to.value, node)
    ensures var after := MoveGuest(c, plan, g, rule, only);
            if g.blocker.Some? && g.blocker.value != "" then
              after == plan.(unresolved := plan.unresolved + [CannotMoveLive(g.vmid, g.blocker.value, rule)])
            else if to == None || to.value == "" then
              after == plan.(unresolved := plan.unresolved + [NoNodeTakes(g.vmid, rule)])
            else after.positions == plan.positions[g.vmid := to.value] && after.unresolved == plan.unresolved
  {
    var req := RequestFor(c, plan, g, only);
    to := Chosen(req, plan.free);
    BestIsBest(req, plan.free, |plan.free.keys|);
    EligibleTakes(c, plan, g, only);
    var best := Best(req, plan.free, |plan.free.keys|);
    if best.Some? {
      forall node | Takes(c, plan, g, only, node) && node != to.value
        ensures BetterFor(c.rules, plan.free, g.vmid, to.value, node)
      {
        BestIsBetter(req, plan.free, best.value, node);
      }
    } else {
      NoneTakes(c, plan, g, only);
    }
  }

  lemma EligibleTakes(c: Cluster, plan: Plan, g: Guest, only: Option<set<string>>)
    requires Tracks(c, plan) && g.vmid in plan.positions
    ensures forall node :: Takes(c, plan, g, only, node) <==> Eligible(RequestFor(c, plan, g, only), plan.free, node)
  {
  }

  lemma NoneTakes(c: Cluster, plan: Plan, g: Guest, only: Option<set<string>>)
    requires Tracks(c, plan) && g.vmid in plan.positions
    requires IsBest(RequestFor(c, plan, g, only), plan.free, |plan.free.keys|, None)
    ensures forall node :: !Takes(c, plan, g, only, node)
  {
    EligibleTakes(c, plan, g, only);
    forall node | node in plan.free.keys ensures !Eligible(RequestFor(c, plan, g, only), plan.free, node) {
      var k :| 0 <= k < |plan.free.keys| && plan.free.keys[k] == node;
    }
  }

  // ---------------------------------------------------------------------------
  // One after the other
  // ---------------------------------------------------------------------------

  lemma BothKnown(c: Cluster, gs: seq<Guest>, hs: seq<Guest>)
    requires Known(c, gs) && Known(c, hs)
    ensures Known(c, gs + hs)
  {
  }

  lemma FirstMoves(c: Cluster, plan: Plan, g: Guest, rest: seq<Guest>, name: string, only: Option<set<string>>)
    requires Tracks(c, plan) && Known(c, [g]) && Known(c, rest)
    ensures Known(c, [g] + rest) && g.vmid in plan.positions
    ensures MoveEach(c, plan, [g] + rest, name, only) ==
      var next :=
        if only.Some? && plan.positions[g.vmid] in only.value then plan else MoveGuest(c, plan, g, name, only);
      MoveEach(c, next, rest, name, only)
  {
    assert g in [g] && ([g] + rest)[1..] == rest;
    BothKnown(c, [g], rest);
  }

  /** Moving a list of guests is moving the first, then the others from where that leads. */
  lemma {:induction false} MovesInTurn(c: Cluster, plan: Plan, gs: seq<Guest>, hs: seq<Guest>, name: string,
                                       only: Option<set<string>>)
    requires Tracks(c, plan) && Known(c, gs) && Known(c, hs)
    ensures Known(c, gs + hs)
    ensures MoveEach(c, plan, gs + hs, name, only) == MoveEach(c, MoveEach(c, plan, gs, name, only), hs, name, only)
    decreases |gs|
  {
    BothKnown(c, gs, hs);
    if gs == [] {
      assert gs + hs == hs;
    } else {
      var g, rest := gs[0], gs[1..];
      assert gs == [g] + rest && gs + hs == [g] + (rest + hs);
      var next :=
        if only.Some? && plan.positions[g.vmid] in only.value then plan else MoveGuest(c, plan, g, name, only);
      BothKnown(c, rest, hs);
      FirstMoves(c, plan, g, rest, name, only);
      FirstMoves(c, plan, g, rest + hs, name, only);
      MovesInTurn(c, next, rest, hs, name, only);
    }
  }

  // ---------------------------------------------------------------------------
  // The order of the rules
  // ---------------------------------------------------------------------------

  /** Keeping apart comes before keeping together, that before preferences, and of one kind the strict ones first. */
  ghost predicate MayPrecede(a: Rule, b: Rule) {
    match (a.kind, b.kind)
    case (KeepTogether, KeepApart) => false
    case (PreferNodes, KeepApart) => false
    case (PreferNodes, KeepTogether) => false
    case _ => a.kind == b.kind ==> a.strict || !b.strict
  }

  function Alike(kind: Kind, strict: bool): Rule -> bool {
    (r: Rule) => r.enabled && r.kind == kind && r.strict == strict
  }

  lemma {:induction false} EnabledAre(rules: seq<Rule>, kind: Kind, strict: bool)
    ensures Filter(Enabled(rules), Alike(kind, strict)) == Filter(rules, Alike(kind, strict))
  {
    if rules != [] {
      EnabledAre(rules[1..], kind, strict);
      var rest := Enabled(rules[1..]);
      if rules[0].enabled {
        assert Enabled(rules) == [rules[0]] + rest;
        FilterFirst(rules[0], rest, Alike(kind, strict));
      } else {
        assert Enabled(rules) == [] + rest == rest;
      }
    }
  }

  /** The rules have their turns in that order, those of one kind and strictness as they are given. */
  lemma TurnsInOrder(rules: seq<Rule>)
    ensures forall i, j :: 0 <= i < j < |Sorted(rules)| ==> MayPrecede(Sorted(rules)[i], Sorted(rules)[j])
    ensures forall kind, strict :: Filter(Sorted(rules), Alike(kind, strict)) == Filter(rules, Alike(kind, strict))
  {
    RulesTakenInOrder(rules);
    forall i, j | 0 <= i < j < |Sorted(rules)| ensures MayPrecede(Sorted(rules)[i], Sorted(rules)[j]) {
      assert InOrder(Sorted(rules)[i], Sorted(rules)[j]);
    }
    forall kind, strict ensures Filter(Sorted(rules), Alike(kind, strict)) == Filter(rules, Alike(kind, strict)) {
      StableSortKeepsOrder(Enabled(rules), InOrder, Alike(kind, strict));
      EnabledAre(rules, kind, strict);
    }
  }

  // ---------------------------------------------------------------------------
  // What moves and messages say
  // ---------------------------------------------------------------------------

  /** An enabled rule of this name lists the guest. */
  ghost predicate NamesRuleOf(c: Cluster, vmid: int, name: string) {
    exists rule :: rule in c.rules && rule.enabled && vmid in rule.vmids && rule.name == name
  }

  ghost predicate MoveExplained(c: Cluster, m: Move) {
    m.vmid in c.guests && m.kind == c.guests[m.vmid].kind && NamesRuleOf(c, m.vmid, m.reason)
  }

  ghost predicate RefusalExplained(c: Cluster, u: Unresolved) {
    && u.vmid in c.guests && NamesRuleOf(c, u.vmid, u.ruleName)
    && (u.CannotMoveLive? ==> c.guests[u.vmid].blocker == Some(u.blocker) && u.blocker != "")
  }

  /** Each move and each message is of a guest of the cluster, and names a rule it is for. */
  ghost predicate Explained(c: Cluster, plan: Plan) {
    && (forall k :: 0 <= k < |plan.moves| ==> MoveExplained(c, plan.moves[k]))
    && (forall k :: 0 <= k < |plan.unresolved| ==> RefusalExplained(c, plan.unresolved[k]))
  }

  lemma OneMoveExplained(c: Cluster, plan: Plan, g: Guest, rule: Rule, only: Option<set<string>>)
    requires c.Valid() && Tracks(c, plan) && Explained(c, plan)
    requires g.vmid in c.guests && c.guests[g.vmid] == g
    requires rule in c.rules && rule.enabled && g.vmid in rule.vmids
    ensures Explained(c, MoveGuest(c, plan, g, rule.name, only))
  {
    assert NamesRuleOf(c, g.vmid, rule.name);
    MoveLandsOrIsRefused(c, plan, g, rule.name, only);
    var to := BestNodeTakesIt(c, plan, g, rule.name, only);
  }

  lemma {:induction false} MovesExplained(c: Cluster, plan: Plan, gs: seq<Guest>, rule: Rule, only: Option<set<string>>)
    requires c.Valid() && Tracks(c, plan) && Explained(c, plan) && Known(c, gs)
    requires rule in c.rules && rule.enabled && forall g :: g in gs ==> g.vmid in rule.vmids
    ensures Explained(c, MoveEach(c, plan, gs, rule.name, only))
    decreases |gs|
  {
    if gs != [] {
      var g := gs[0];
      assert g in gs;
      OneMoveExplained(c, plan, g, rule, only);
      var next :=
        if only.Some? && plan.positions[g.vmid] in only.value then plan else MoveGuest(c, plan, g, rule.name, only);
      MovesExplained(c, next, gs[1..], rule, only);
    }
  }

  lemma ApartExplained(c: Cluster, plan: Plan, rule: Rule)
    requires c.Valid() && Tracks(c, plan) && Explained(c, plan) && rule in c.rules && rule.enabled
    requires rule.kind == KeepApart
    ensures Explained(c, Fix(c, plan, rule))
  {
    var groups := ByNode(Running(rule.vmids, plan.positions), plan.positions);
    LeaversNamed(c, plan, rule);
    AllLeavingKnown(c, groups, |groups.keys|);
    MovesExplained(c, plan, AllLeaving(c, groups, |groups.keys|), rule, None);
  }

  lemma RunningListed(c: Cluster, vs: seq<int>, vmids: seq<int>)
    requires c.Valid() && forall v :: v in vs ==> v in c.guests && v in vmids
    ensures forall g :: g in GuestsOf(c, vs) ==> g.vmid in vmids
  {
    forall g | g in GuestsOf(c, vs) ensures g.vmid in vmids {
      var i :| 0 <= i < |vs| && GuestsOf(c, vs)[i] == g;
      assert vs[i] in vs && c.guests[vs[i]].vmid == vs[i];
    }
  }

  lemma WithinExplained(c: Cluster, plan: Plan, rule: Rule, only: Option<set<string>>)
    requires c.Valid() && Tracks(c, plan) && Explained(c, plan) && rule in c.rules && rule.enabled
    ensures Known(c, GuestsOf(c, Running(rule.vmids, plan.positions)))
    ensures Explained(c, MoveEach(c, plan, GuestsOf(c, Running(rule.vmids, plan.positions)), rule.name, only))
  {
    var running := Running(rule.vmids, plan.positions);
    var gs := GuestsOf(c, running);
    GuestsOfKnown(c, running);
    RunningListed(c, running, rule.vmids);
    MovesExplained(c, plan, gs, rule, only);
  }

  lemma FixExplained(c: Cluster, plan: Plan, rule: Rule)
    requires c.Valid() && Tracks(c, plan) && Explained(c, plan) && rule in c.rules && rule.enabled
    ensures Explained(c, Fix(c, plan, rule))
  {
    match rule.kind {
      case KeepApart => ApartExplained(c, plan, rule);
      case KeepTogether =>
        var groups := ByNode(Running(rule.vmids, plan.positions), plan.positions);
        if |groups.keys| >= 2 {
          WithinExplained(c, plan, rule, Some({Target(groups, plan.free)}));
        }
      case PreferNodes => WithinExplained(c, plan, rule, Some(set n | n in rule.nodes));
    }
  }

  lemma {:induction false} FixAllExplained(c: Cluster, plan: Plan, rules: seq<Rule>)
    requires c.Valid() && Tracks(c, plan) && Explained(c, plan)
    requires forall rule :: rule in rules ==> rule in c.rules && rule.enabled
    ensures Explained(c, FixAll(c, plan, rules))
    decreases |rules|
  {
    if rules != [] {
      assert rules[0] in rules;
      FixExplained(c, plan, rules[0]);
      FixAllExplained(c, Fix(c, plan, rules[0]), rules[1..]);
    }
  }

  /** Whatever is planned or left undone is put down to an enabled rule that lists the guest. */
  lemma PlanIsExplained(c: Cluster, free: Memory)
    requires c.Valid() && free.Valid()
    ensures Explained(c, FinalPlan(c, free))
  {
    RulesTakenInOrder(c.rules);
    FixAllExplained(c, StartPlan(c.guests, free), Sorted(c.rules));
  }
}
