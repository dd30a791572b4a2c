/**
 * Evening out memory use across the nodes, one move at a time
 * (packages/shared/src/placement.ts).
 */
module PlacementBalance {
  import opened Prelude
  import opened PlacementRules
  import opened PlacementPlanner

  datatype NodeLoad = NodeLoad(node: string, total: nat, used: int)

  type Loads = OrderedMap<NodeLoad>

  datatype Balance = Balance(move: Option<Move>, spread: real)

  function LoadsOf(nodes: seq<NodeLoad>): (r: Loads)
    ensures r.Valid()
    ensures forall n :: n in r.vals ==> r.vals[n].node == n
  {
    if nodes == [] then OrderedMap([], map[])
    else
      var last := nodes[|nodes| - 1];
      LoadsOf(nodes[..|nodes| - 1]).Set(last.node, last)
  }

  ghost predicate WellNamed(loads: Loads) {
    loads.Valid() && forall n :: n in loads.vals ==> loads.vals[n].node == n
  }

  function Entries(loads: Loads, n: nat): (r: seq<NodeLoad>)
    requires WellNamed(loads) && n <= |loads.keys|
    ensures |r| == n
    ensures forall l :: l in r ==> l.node in loads.vals && loads.vals[l.node] == l
  {
    if n == 0 then []
    else
      var node := loads.keys[n - 1];
      Entries(loads, n - 1) + [loads.vals[node]]
  }

  function All(loads: Loads): (r: seq<NodeLoad>)
    requires WellNamed(loads)
    ensures |r| == |loads.keys|
    ensures forall l :: l in r ==> l.node in loads.vals && loads.vals[l.node] == l
  {
    Entries(loads, |loads.keys|)
  }

  function Share(l: NodeLoad): real {
    if l.total == 0 then 0.0 else l.used as real / l.total as real
  }

  function Highest(ls: seq<NodeLoad>): real
    requires ls != []
  {
    if |ls| == 1 then Share(ls[0])
    else if Share(ls[0]) > Highest(ls[1..]) then Share(ls[0]) else Highest(ls[1..])
  }

  function Lowest(ls: seq<NodeLoad>): real
    requires ls != []
  {
    if |ls| == 1 then Share(ls[0])
    else if Share(ls[0]) < Lowest(ls[1..]) then Share(ls[0]) else Lowest(ls[1..])
  }

  /** How far the busiest and the quietest node are apart, in percentage points. */
  function Spread(loads: Loads): real
    requires WellNamed(loads) && loads.keys != []
  {
    Highest(All(loads)) * 100.0 - Lowest(All(loads)) * 100.0
  }

  predicate Busier(a: NodeLoad, b: NodeLoad) {
    Share(b) <= Share(a)
  }

  predicate Quieter(a: NodeLoad, b: NodeLoad) {
    Share(a) <= Share(b)
  }

  function Busiest(loads: Loads): (b: NodeLoad)
    requires WellNamed(loads) && loads.keys != []
    ensures b.node in loads.vals && loads.vals[b.node] == b
  {
    StableSortElements(All(loads), Busier);
    var first := StableSort(All(loads), Busier)[0];
    assert first in StableSort(All(loads), Busier);
    first
  }

  function Movable(guests: seq<Guest>, node: string): (r: seq<Guest>)
    ensures forall g :: g in r <==> g in guests && g.node == node && !g.Blocked()
  {
    if guests == [] then []
    else (if guests[0].node == node && !guests[0].Blocked() then [guests[0]] else []) + Movable(guests[1..], node)
  }

  function Others(ls: seq<NodeLoad>, node: string): (r: seq<NodeLoad>)
    ensures forall l :: l in r <==> l in ls && l.node != node
  {
    if ls == [] then []
    else (if ls[0].node != node then [ls[0]] else []) + Others(ls[1..], node)
  }

  function Candidates(guests: seq<Guest>, busiest: string): seq<Guest> {
    StableSort(Movable(guests, busiest), NoLarger)
  }

  function Targets(loads: Loads, busiest: string): (r: seq<NodeLoad>)
    requires WellNamed(loads)
    ensures forall l :: l in r ==> l.node in loads.vals && loads.vals[l.node] == l && l.node != busiest
  {
    var others := Others(All(loads), busiest);
    StableSortElements(others, Quieter);
    StableSort(others, Quieter)
  }

  /** The loads once `memory` has gone from one node to another. */
  function Trial(loads: Loads, from: string, to: string, memory: nat): (r: Loads)
    requires WellNamed(loads) && from in loads.vals && to in loads.vals
    ensures WellNamed(r) && r.keys == loads.keys
  {
    var without := loads.Set(from, loads.vals[from].(used := loads.vals[from].used - memory));
    without.Set(to, without.vals[to].(used := without.vals[to].used + memory))
  }

  /** The guest may go to the node, and going there narrows the spread. */
  predicate Accepts(rules: seq<Rule>, loads: Loads, positions: Positions, g: Guest, to: NodeLoad)
    requires WellNamed(loads) && g.node in loads.vals && to.node in loads.vals
  {
    && to.total - to.used >= g.memory
    && Forbids(rules, positions - {g.vmid}, g.vmid, to.node).None?
    && Rank(rules, g.vmid, to.node) <= Rank(rules, g.vmid, g.node)
    && Spread(Trial(loads, g.node, to.node, g.memory)) < Spread(loads)
  }

  function FirstTarget(rules: seq<Rule>, loads: Loads, positions: Positions, g: Guest,
                       targets: seq<NodeLoad>): (r: Option<NodeLoad>)
    requires WellNamed(loads) && g.node in loads.vals && forall l :: l in targets ==> l.node in loads.vals
    ensures r.Some? ==> r.value in targets && Accepts(rules, loads, positions, g, r.value)
  {
    if targets == [] then None
    else
      var first := targets[0];
      assert first in targets;
      if Accepts(rules, loads, positions, g, first) then Some(first)
      else FirstTarget(rules, loads, positions, g, targets[1..])
  }

  /** A guest that finds no target is put back on its own node. */
  function FirstMove(rules: seq<Rule>, loads: Loads, positions: Positions, gs: seq<Guest>,
                     targets: seq<NodeLoad>): (r: Option<(Guest, NodeLoad)>)
    requires WellNamed(loads) && forall l :: l in targets ==> l.node in loads.vals
    requires forall g :: g in gs ==> g.node in loads.vals
    ensures r.Some? ==> r.value.0 in gs && r.value.1 in targets
    decreases |gs|
  {
    if gs == [] then None
    else
      var g := gs[0];
      assert g in gs;
      var to := FirstTarget(rules, loads, positions, g, targets);
      if to.Some? then Some((g, to.value)) else FirstMove(rules, loads, positions[g.vmid := g.node], gs[1..], targets)
  }

  /** A VMID names one guest of a cluster. */
  ghost predicate Unique(guests: seq<Guest>) {
    forall i, j :: 0 <= i < j < |guests| ==> guests[i].vmid != guests[j].vmid
  }

  predicate Placed(positions: Positions, g: Guest) {
    g.vmid in positions && positions[g.vmid] == g.node
  }

  function PositionsOf(guests: seq<Guest>): Positions {
    if guests == [] then map[] else map[guests[0].vmid := guests[0].node] + PositionsOf(guests[1..])
  }

  /** The move to make next, if the nodes are uneven enough and one helps. */
  function NextMove(rules: seq<Rule>, guests: seq<Guest>, loads: Loads, threshold: real): (r: Option<(Guest, NodeLoad)>)
    requires WellNamed(loads)
  {
    if |loads.keys| < 2 || Spread(loads) <= threshold then None
    else
      var busiest := Busiest(loads).node;
      StableSortElements(Movable(guests, busiest), NoLarger);
      FirstMove(rules, loads, PositionsOf(guests), Candidates(guests, busiest), Targets(loads, busiest))
  }

  method PlanBalance(rules: seq<Rule>, guests: seq<Guest>, nodes: seq<NodeLoad>, threshold: real)
    returns (result: Balance)
    ensures var loads := LoadsOf(nodes);
            && result.spread == (if |loads.keys| > 1 then Spread(loads) else 0.0)
            && match NextMove(rules, guests, loads, threshold)
               case None => result.move == None
               case Some(next) =>
                 result.move == Some(Move(next.0.vmid, next.0.kind, next.0.node, next.1.node, "balance"))
  {
    var loads := LoadsOf(nodes);
    var before := if |loads.keys| > 1 then Spread(loads) else 0.0;
    if |loads.keys| < 2 || before <= threshold {
      return Balance(None, before);
    }
    var busiest := Busiest(loads);
    var positions := PositionsOf(guests);
    var candidates := Candidates(guests, busiest.node);
    StableSortElements(Movable(guests, busiest.node), NoLarger);
    var next := TryCandidates(rules, loads, positions, candidates, Targets(loads, busiest.node), before);
    if next.None? {
      return Balance(None, before);
    }
    var (guest, target) := next.value;
    return Balance(Some(Move(guest.vmid, guest.kind, guest.node, target.node, "balance")), before);
  }

  /** The outer loop: the first guest some target takes; each is left out of the positions in its turn. */
  method TryCandidates(rules: seq<Rule>, loads: Loads, start: Positions, candidates: seq<Guest>, targets: seq<NodeLoad>,
                       before: real)
    returns (next: Option<(Guest, NodeLoad)>)
    requires WellNamed(loads) && loads.keys != [] && before == Spread(loads)
    requires forall l :: l in targets ==> l.node in loads.vals
    requires forall g :: g in candidates ==> g.node in loads.vals
    ensures next == FirstMove(rules, loads, start, candidates, targets)
  {
    var positions := start;
    for k := 0 to |candidates|
      invariant FirstMove(rules, loads, start, candidates, targets)
        == FirstMove(rules, loads, positions, candidates[k..], targets)
    {
      var guest := candidates[k];
      assert candidates[k..][1..] == candidates[k + 1..];
      assert guest in candidates;
      ghost var all := positions;
      positions := positions - {guest.vmid};
      var target := TryTargets(rules, loads, positions, guest, targets, before, all);
      if target.Some? {
        return Some((guest, target.value));
      }
      positions := positions[guest.vmid := guest.node];
      assert positions == all[guest.vmid := guest.node];
    }
    return None;
  }

  /** The inner loop: the first target that takes the guest, which is left out of `positions`. */
  method TryTargets(rules: seq<Rule>, loads: Loads, positions: Positions, guest: Guest, targets: seq<NodeLoad>,
                    before: real, ghost all: Positions)
    returns (found: Option<NodeLoad>)
    requires WellNamed(loads) && guest.node in loads.vals && forall l :: l in targets ==> l.node in loads.vals
    requires positions == all - {guest.vmid} && before == Spread(loads)
    ensures found == FirstTarget(rules, loads, all, guest, targets)
  {
    for t := 0 to |targets|
      invariant FirstTarget(rules, loads, all, guest, targets) == FirstTarget(rules, loads, all, guest, targets[t..])
    {
      var target := targets[t];
      assert targets[t..][0] == target && targets[t..][1..] == targets[t + 1..];
      if target.total - target.used < guest.memory {
        continue;
      }
      if Forbids(rules, positions, guest.vmid, target.node).Some? {
        continue;
      }
      if Rank(rules, guest.vmid, target.node) > Rank(rules, guest.vmid, guest.node) {
        continue;
      }
      if Spread(Trial(loads, guest.node, target.node, guest.memory)) < before {
        return Some(target);
      }
    }
    return None;
  }

  lemma {:induction false} PositionOfGuest(guests: seq<Guest>, g: Guest)
    requires Unique(guests) && g in guests
    ensures Placed(PositionsOf(guests), g)
  {
    if g == guests[0] {
      NotPlaced(guests[1..], g.vmid);
    } else {
      PositionOfGuest(guests[1..], g);
    }
  }

  lemma {:induction false} NotPlaced(guests: seq<Guest>, vmid: int)
    requires forall k :: 0 <= k < |guests| ==> guests[k].vmid != vmid
    ensures vmid !in PositionsOf(guests)
  {
    if guests != [] {
      NotPlaced(guests[1..], vmid);
    }
  }

  lemma {:induction false} NoTargetAccepted(rules: seq<Rule>, loads: Loads, positions: Positions, g: Guest,
                                            targets: seq<NodeLoad>, l: NodeLoad)
    requires WellNamed(loads) && g.node in loads.vals && forall l :: l in targets ==> l.node in loads.vals
    requires FirstTarget(rules, loads, positions, g, targets).None? && l in targets
    ensures !Accepts(rules, loads, positions, g, l)
  {
    if l != targets[0] {
      NoTargetAccepted(rules, loads, positions, g, targets[1..], l);
    }
  }

  /** When each guest is where the positions have it, putting it back changes nothing. */
  lemma {:induction false} FirstMoveAccepted(rules: seq<Rule>, loads: Loads, positions: Positions, gs: seq<Guest>,
                                             targets: seq<NodeLoad>)
    requires WellNamed(loads) && forall l :: l in targets ==> l.node in loads.vals
    requires forall g :: g in gs ==> g.node in loads.vals && Placed(positions, g)
    ensures var r := FirstMove(rules, loads, positions, gs, targets);
            r.Some? ==> Accepts(rules, loads, positions, r.value.0, r.value.1)
    decreases |gs|
  {
    if gs != [] && FirstTarget(rules, loads, positions, gs[0], targets).None? {
      assert gs[0] in gs;
      assert positions[gs[0].vmid := gs[0].node] == positions;
      FirstMoveAccepted(rules, loads, positions, gs[1..], targets);
    }
  }

  lemma {:induction false} NoMoveAccepted(rules: seq<Rule>, loads: Loads, positions: Positions, gs: seq<Guest>,
                                          targets: seq<NodeLoad>, g: Guest, l: NodeLoad)
    requires WellNamed(loads) && forall l :: l in targets ==> l.node in loads.vals
    requires forall g :: g in gs ==> g.node in loads.vals && Placed(positions, g)
    requires FirstMove(rules, loads, positions, gs, targets).None? && g in gs && l in targets
    ensures !Accepts(rules, loads, positions, g, l)
  {
    if g == gs[0] {
      NoTargetAccepted(rules, loads, positions, g, targets, l);
    } else {
      assert gs[0] in gs;
      assert positions[gs[0].vmid := gs[0].node] == positions;
      NoMoveAccepted(rules, loads, positions, gs[1..], targets, g, l);
    }
  }
}
