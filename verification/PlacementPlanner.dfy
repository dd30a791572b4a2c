/**
 * Planning the moves that bring guests back within the placement rules
 * (packages/shared/src/placement.ts).
 *
 * The functions say what the planner does to its working state; the class is the
 * planner itself, whose methods update that state in place.
 */
module PlacementPlanner {
  import opened Prelude
  import opened PlacementRules

  datatype GuestKind = Qemu | Lxc

  datatype Guest = Guest(vmid: int, kind: GuestKind, node: string, memory: nat, blocker: Option<string>) {
    /** An empty reason does not keep a guest from moving. */
    predicate Blocked() {
      blocker.Some? && blocker.value != ""
    }
  }

  datatype Move = Move(vmid: int, kind: GuestKind, from: string, to: string, reason: string)

  datatype Unresolved =
    | CannotMoveLive(vmid: int, blocker: string, ruleName: string)
    | NoNodeTakes(vmid: int, ruleName: string)

  type Memory = OrderedMap<int>

  /** The planner's working state. */
  datatype Plan = Plan(positions: Positions, free: Memory, moves: seq<Move>, unresolved: seq<Unresolved>)

  /** What the planner is given besides free memory: the rules, and each guest by its VMID. */
  datatype Cluster = Cluster(rules: seq<Rule>, guests: map<int, Guest>) {
    ghost predicate Valid() {
      forall v :: v in guests ==> guests[v].vmid == v
    }
  }

  // ---------------------------------------------------------------------------
  // The best node for one guest
  // ---------------------------------------------------------------------------

  datatype Request = Request(
    guest: Guest,
    rules: seq<Rule>,
    positions: Positions,
    exclude: set<string>,
    only: Option<set<string>>
  )

  predicate Eligible(req: Request, free: Memory, node: string) {
    && node in free.vals
    && node !in req.exclude
    && (req.only.Some? ==> node in req.only.value)
    && free.vals[node] >= req.guest.memory
    && Forbids(req.rules, req.positions, req.guest.vmid, node).None?
  }

  /** Node `a` is strictly to be preferred to node `b`. */
  predicate Better(req: Request, free: Memory, a: string, b: string)
    requires a in free.vals && b in free.vals
  {
    var ra, rb := Rank(req.rules, req.guest.vmid, a), Rank(req.rules, req.guest.vmid, b);
    ra < rb || (ra == rb && free.vals[a] > free.vals[b])
  }

  /** Place `best` holds the first of the most preferred eligible nodes among the first `n`. */
  ghost predicate IsBest(req: Request, free: Memory, n: nat, best: Option<nat>)
    requires free.Valid() && n <= |free.keys|
  {
    match best
    case None =>
      forall k :: 0 <= k < n ==> !Eligible(req, free, free.keys[k])
    case Some(b) =>
      && b < n
      && Eligible(req, free, free.keys[b])
      && (forall k ::
          0 <= k < n && Eligible(req, free, free.keys[k]) ==> !Better(req, free, free.keys[k], free.keys[b]))
      && (forall k :: 0 <= k < b && Eligible(req, free, free.keys[k]) ==> Better(req, free, free.keys[b], free.keys[k]))
  }

  function Best(req: Request, free: Memory, n: nat): (best: Option<nat>)
    requires free.Valid() && n <= |free.keys|
    ensures best.Some? ==> best.value < n
  {
    if n == 0 then None
    else
      var best, node := Best(req, free, n - 1), free.keys[n - 1];
      if Eligible(req, free, node) && (best.None? || Better(req, free, node, free.keys[best.value]))
      then Some(n - 1)
      else best
  }

  lemma {:induction false} BestIsBest(req: Request, free: Memory, n: nat)
    requires free.Valid() && n <= |free.keys|
    ensures IsBest(req, free, n, Best(req, free, n))
  {
    if n > 0 {
      BestIsBest(req, free, n - 1);
    }
  }

  /** A name is found when there is one and it is not empty. */
  predicate Found(node: Option<string>) {
    node.Some? && node.value != ""
  }

  function Chosen(req: Request, free: Memory): Option<string>
    requires free.Valid()
  {
    var best := Best(req, free, |free.keys|);
    if best.None? then None else Some(free.keys[best.value])
  }

  function Reserved(req: Request, free: Memory): (r: Memory)
    requires free.Valid()
    ensures r.Valid()
  {
    var best := Chosen(req, free);
    if Found(best) then free.Set(best.value, free.vals[best.value] - req.guest.memory) else free
  }

  /** Looks at the nodes one by one, and takes the guest's memory from the one chosen. */
  method PlaceGuest(req: Request, free: Memory) returns (best: Option<string>, left: Memory)
    requires free.Valid()
    ensures best == Chosen(req, free) && left == Reserved(req, free)
  {
    best := None;
    var bestRank := 0;
    for k := 0 to |free.keys|
      invariant best == var b := Best(req, free, k); if b.None? then None else Some(free.keys[b.value])
      invariant best.Some? ==> bestRank == Rank(req.rules, req.guest.vmid, best.value)
    {
      var node := free.keys[k];
      var bytes := free.vals[node];
      if node in req.exclude || (req.only.Some? && node !in req.only.value) || bytes < req.guest.memory {
        continue;
      }
      if Forbids(req.rules, req.positions, req.guest.vmid, node).Some? {
        continue;
      }
      var rank := Rank(req.rules, req.guest.vmid, node);
      if best.None? || rank < bestRank || (rank == bestRank && bytes > free.vals[best.value]) {
        best, bestRank := Some(node), rank;
      }
    }
    left := free;
    if Found(best) {
      left := free.Set(best.value, free.vals[best.value] - req.guest.memory);
    }
  }

  // ---------------------------------------------------------------------------
  // Moving one guest
  // ---------------------------------------------------------------------------

  /** The place in the list of the guest's move, or the length of the list. */
  function FindMove(moves: seq<Move>, vmid: int): (k: nat)
    ensures k <= |moves|
    ensures k < |moves| ==> moves[k].vmid == vmid
    ensures forall i :: 0 <= i < k ==> moves[i].vmid != vmid
  {
    if moves == [] || moves[0].vmid == vmid then 0 else 1 + FindMove(moves[1..], vmid)
  }

  function Recorded(moves: seq<Move>, move: Move): seq<Move> {
    var k := FindMove(moves, move.vmid);
    if k < |moves| then moves[k := moves[k].(to := move.to)] else moves + [move]
  }

  ghost predicate Tracks(c: Cluster, plan: Plan) {
    plan.positions.Keys == c.guests.Keys && plan.free.Valid()
  }

  function RequestFor(c: Cluster, plan: Plan, guest: Guest, only: Option<set<string>>): Request
    requires guest.vmid in plan.positions
  {
    Request(guest, c.rules, plan.positions - {guest.vmid}, {plan.positions[guest.vmid]}, only)
  }

  /** Going to a node with what is left there, and giving back what was taken where it was. */
  function Gone(plan: Plan, guest: Guest, rule: string, to: string, left: Memory): Plan
    requires guest.vmid in plan.positions
  {
    var from := plan.positions[guest.vmid];
    Plan(
      plan.positions[guest.vmid := to],
      left.Set(from, left.GetOr(from, 0) + guest.memory),
      Recorded(plan.moves, Move(guest.vmid, guest.kind, from, to, rule)),
      plan.unresolved)
  }

  function MoveGuest(c: Cluster, plan: Plan, guest: Guest, rule: string, only: Option<set<string>>): (r: Plan)
    requires Tracks(c, plan) && guest.vmid in plan.positions
    ensures Tracks(c, r)
    ensures plan.unresolved <= r.unresolved
  {
    if guest.Blocked() then
      plan.(unresolved := plan.unresolved + [CannotMoveLive(guest.vmid, guest.blocker.value, rule)])
    else
      var req := RequestFor(c, plan, guest, only);
      var to := Chosen(req, plan.free);
      if !Found(to) then plan.(unresolved := plan.unresolved + [NoNodeTakes(guest.vmid, rule)])
      else Gone(plan, guest, rule, to.value, Reserved(req, plan.free))
  }

  lemma MoveGuestLands(c: Cluster, plan: Plan, guest: Guest, rule: string, only: Option<set<string>>, to: string,
                       left: Memory)
    requires Tracks(c, plan) && guest.vmid in plan.positions && !guest.Blocked() && to != ""
    requires Some(to) == Chosen(RequestFor(c, plan, guest, only), plan.free)
    requires left == Reserved(RequestFor(c, plan, guest, only), plan.free)
    ensures MoveGuest(c, plan, guest, rule, only) == Gone(plan, guest, rule, to, left)
  {
  }

  // ---------------------------------------------------------------------------
  // Correcting one rule, then all of them
  // ---------------------------------------------------------------------------

  function GuestsOf(c: Cluster, vs: seq<int>): (r: seq<Guest>)
    requires forall v :: v in vs ==> v in c.guests
    ensures |r| == |vs| && forall i :: 0 <= i < |vs| ==> vs[i] in c.guests && r[i] == c.guests[vs[i]]
  {
    if vs == [] then []
    else
      var v := vs[0];
      [c.guests[v]] + GuestsOf(c, vs[1..])
  }

  predicate NoLarger(a: Guest, b: Guest) {
    a.memory <= b.memory
  }

  /** The guests that leave the node they share: all but the first, smallest first. */
  function Leaving(c: Cluster, group: seq<int>): seq<Guest>
    requires GroupKnown(c, group)
  {
    StableSort(GuestsOf(c, group[1..]), NoLarger)
  }

  ghost predicate GroupKnown(c: Cluster, group: seq<int>) {
    group != [] && forall v :: v in group ==> v in c.guests
  }

  ghost predicate GroupsKnown(c: Cluster, groups: OrderedMap<seq<int>>) {
    && groups.Valid()
    && forall n :: n in groups.vals ==> GroupKnown(c, groups.vals[n])
  }

  function AllLeaving(c: Cluster, groups: OrderedMap<seq<int>>, n: nat): seq<Guest>
    requires GroupsKnown(c, groups) && n <= |groups.keys|
  {
    if n == 0 then []
    else AllLeaving(c, groups, n - 1) + Leaving(c, groups.vals[groups.keys[n - 1]])
  }

  ghost predicate Known(c: Cluster, gs: seq<Guest>) {
    forall g :: g in gs ==> g.vmid in c.guests && c.guests[g.vmid] == g
  }

  /** One after another; a guest already on a node of `only` stays. */
  function MoveEach(c: Cluster, plan: Plan, gs: seq<Guest>, rule: string, only: Option<set<string>>): (r: Plan)
    requires Tracks(c, plan) && Known(c, gs)
    ensures Tracks(c, r)
    ensures plan.unresolved <= r.unresolved
    decreases |gs|
  {
    if gs == [] then plan
    else
      var g := gs[0];
      var next :=
        if only.Some? && plan.positions[g.vmid] in only.value then plan
        else MoveGuest(c, plan, g, rule, only);
      MoveEach(c, next, gs[1..], rule, only)
  }

  datatype Entry = Entry(node: string, count: nat, free: int)

  predicate MostFirst(a: Entry, b: Entry) {
    b.count < a.count || (b.count == a.count && b.free <= a.free)
  }

  function Entries(groups: OrderedMap<seq<int>>, free: Memory, n: nat): (r: seq<Entry>)
    requires groups.Valid() && n <= |groups.keys|
    ensures |r| == n
    ensures forall k ::
      0 <= k < n ==> r[k] == Entry(groups.keys[k], |groups.vals[groups.keys[k]]|, free.GetOr(groups.keys[k], 0))
  {
    if n == 0 then []
    else
      var node := groups.keys[n - 1];
      Entries(groups, free, n - 1) + [Entry(node, |groups.vals[node]|, free.GetOr(node, 0))]
  }

  /** Where kept-together guests are brought: where most of them are, then most memory is free. */
  function Target(groups: OrderedMap<seq<int>>, free: Memory): (t: string)
    requires groups.Valid() && groups.keys != []
    ensures t in groups.vals
  {
    var entries := Entries(groups, free, |groups.keys|);
    StableSortElements(entries, MostFirst);
    var first := StableSort(entries, MostFirst)[0];
    assert first in entries;
    first.node
  }

  function Fix(c: Cluster, plan: Plan, rule: Rule): (r: Plan)
    requires c.Valid() && Tracks(c, plan)
    ensures Tracks(c, r)
    ensures plan.unresolved <= r.unresolved
  {
    var running := Running(rule.vmids, plan.positions);
    match rule.kind
    case KeepApart =>
      var groups := ByNode(running, plan.positions);
      GroupsAreKnown(c, running, plan.positions);
      AllLeavingKnown(c, groups, |groups.keys|);
      MoveEach(c, plan, AllLeaving(c, groups, |groups.keys|), rule.name, None)
    case KeepTogether =>
      var groups := ByNode(running, plan.positions);
      if |groups.keys| < 2 then plan
      else
        GuestsOfKnown(c, running);
        MoveEach(c, plan, GuestsOf(c, running), rule.name, Some({Target(groups, plan.free)}))
    case PreferNodes =>
      GuestsOfKnown(c, running);
      MoveEach(c, plan, GuestsOf(c, running), rule.name, Some(set n | n in rule.nodes))
  }

  lemma GroupsAreKnown(c: Cluster, vs: seq<int>, positions: Positions)
    requires positions.Keys == c.guests.Keys && forall v :: v in vs ==> v in positions
    ensures GroupsKnown(c, ByNode(vs, positions))
  {
  }

  lemma GuestsOfKnown(c: Cluster, vs: seq<int>)
    requires c.Valid() && forall v :: v in vs ==> v in c.guests
    ensures Known(c, GuestsOf(c, vs))
  {
  }

  lemma LeavingKnown(c: Cluster, group: seq<int>)
    requires c.Valid() && GroupKnown(c, group)
    ensures Known(c, Leaving(c, group))
  {
    GuestsOfKnown(c, group[1..]);
    StableSortElements(GuestsOf(c, group[1..]), NoLarger);
  }

  lemma {:induction false} AllLeavingKnown(c: Cluster, groups: OrderedMap<seq<int>>, n: nat)
    requires c.Valid() && GroupsKnown(c, groups) && n <= |groups.keys|
    ensures Known(c, AllLeaving(c, groups, n))
  {
    if n > 0 {
      AllLeavingKnown(c, groups, n - 1);
      LeavingKnown(c, groups.vals[groups.keys[n - 1]]);
    }
  }

  function Order(rule: Rule): nat {
    match rule.kind
    case KeepApart => if rule.strict then 0 else 1
    case KeepTogether => if rule.strict then 2 else 3
    case PreferNodes => if rule.strict then 4 else 5
  }

  predicate InOrder(a: Rule, b: Rule) {
    Order(a) <= Order(b)
  }

  function Enabled(rules: seq<Rule>): (r: seq<Rule>)
    ensures forall rule :: rule in r <==> rule in rules && rule.enabled
  {
    if rules == [] then []
    else (if rules[0].enabled then [rules[0]] else []) + Enabled(rules[1..])
  }

  /** The enabled rules, hard ones first. */
  function Sorted(rules: seq<Rule>): seq<Rule> {
    StableSort(Enabled(rules), InOrder)
  }

  function FixAll(c: Cluster, plan: Plan, rules: seq<Rule>): (r: Plan)
    requires c.Valid() && Tracks(c, plan)
    ensures Tracks(c, r)
    ensures plan.unresolved <= r.unresolved
    decreases |rules|
  {
    if rules == [] then plan
    else FixAll(c, Fix(c, plan, rules[0]), rules[1..])
  }

  function ByVmid(guests: seq<Guest>): (m: map<int, Guest>)
    ensures forall v :: v in m ==> m[v].vmid == v && m[v] in guests
  {
    if guests == [] then map[]
    else
      var last := guests[|guests| - 1];
      ByVmid(guests[..|guests| - 1])[last.vmid := last]
  }

  function StartPositions(guests: map<int, Guest>): Positions {
    map v | v in guests :: guests[v].node
  }

  function StartPlan(guests: map<int, Guest>, free: Memory): Plan {
    Plan(StartPositions(guests), free, [], [])
  }

  /** The state in which the planner stops. */
  function FinalPlan(c: Cluster, free: Memory): (r: Plan)
    requires c.Valid() && free.Valid()
    ensures Tracks(c, r)
  {
    FixAll(c, StartPlan(c.guests, free), Sorted(c.rules))
  }

  function Changed(moves: seq<Move>): (r: seq<Move>)
    ensures forall m :: m in r <==> m in moves && m.from != m.to
  {
    if moves == [] then []
    else (if moves[0].from != moves[0].to then [moves[0]] else []) + Changed(moves[1..])
  }

  // ---------------------------------------------------------------------------
  // The planner
  // ---------------------------------------------------------------------------

  class Planner {
    ghost const cluster: Cluster
    const rules: seq<Rule>
    const byVmid: map<int, Guest>
    var positions: Positions
    var free: Memory
    var moves: seq<Move>
    var unresolved: seq<Unresolved>

    ghost predicate Valid()
      reads this
    {
      cluster == Cluster(rules, byVmid) && cluster.Valid() && Tracks(cluster, State())
    }

    ghost function State(): Plan
      reads this
    {
      Plan(positions, free, moves, unresolved)
    }

    constructor (rules: seq<Rule>, guests: seq<Guest>, freeMemory: Memory)
      requires freeMemory.Valid()
      ensures Valid() && cluster == Cluster(rules, ByVmid(guests))
      ensures State() == StartPlan(ByVmid(guests), freeMemory)
    {
      this.rules := rules;
      byVmid := ByVmid(guests);
      positions := StartPositions(ByVmid(guests));
      free := freeMemory;
      moves, unresolved := [], [];
      cluster := Cluster(rules, ByVmid(guests));
    }

    /** Moves one guest, or says why it cannot be. */
    method MoveOne(guest: Guest, rule: Rule, only: Option<set<string>>) returns (moved: bool)
      requires Valid() && guest.vmid in positions
      modifies this
      ensures Valid() && State() == MoveGuest(cluster, old(State()), guest, rule.name, only)
      ensures moved <==> unresolved == old(unresolved)
    {
      var from := positions[guest.vmid];
      if guest.Blocked() {
        unresolved := unresolved + [CannotMoveLive(guest.vmid, guest.blocker.value, rule.name)];
        return false;
      }
      var req := Request(guest, rules, positions - {guest.vmid}, {from}, only);
      assert req == RequestFor(cluster, State(), guest, only);
      var to, left := PlaceGuest(req, free);
      if !Found(to) {
        unresolved := unresolved + [NoNodeTakes(guest.vmid, rule.name)];
        return false;
      }
      MoveGuestLands(cluster, State(), guest, rule.name, only, to.value, left);
      Land(guest, rule.name, from, to.value, left);
      return true;
    }

    /** Puts the guest on its new node, gives its memory back to the old one, and records the move. */
    method Land(guest: Guest, rule: string, from: string, to: string, left: Memory)
      requires guest.vmid in positions && from == positions[guest.vmid]
      modifies this`positions, this`free, this`moves
      ensures State() == Gone(old(State()), guest, rule, to, left)
    {
      positions := positions[guest.vmid := to];
      free := left.Set(from, left.GetOr(from, 0) + guest.memory);
      var earlier := FindMove(moves, guest.vmid);
      if earlier < |moves| {
        moves := moves[earlier := moves[earlier].(to := to)];
      } else {
        moves := moves + [Move(guest.vmid, guest.kind, from, to, rule)];
      }
    }

    /** Moves the guests of a list in turn, but for those already on a node of `only`. */
    method MoveInTurn(gs: seq<Guest>, rule: Rule, only: Option<set<string>>)
      requires Valid() && Known(cluster, gs)
      modifies this
      ensures Valid() && State() == MoveEach(cluster, old(State()), gs, rule.name, only)
    {
      for k := 0 to |gs|
        invariant Valid()
        invariant MoveEach(cluster, State(), gs[k..], rule.name, only)
          == MoveEach(cluster, old(State()), gs, rule.name, only)
      {
        assert gs[k] in gs;
        assert gs[k..][1..] == gs[k + 1..];
        if only.Some? && positions[gs[k].vmid] in only.value {
          continue;
        }
        var _ := MoveOne(gs[k], rule, only);
      }
    }

    method Correct(rule: Rule)
      requires Valid()
      modifies this
      ensures Valid() && State() == Fix(cluster, old(State()), rule)
    {
      var running := Running(rule.vmids, positions);
      match rule.kind {
        case KeepApart =>
          var groups := GroupByNode(running, positions);
          GroupsAreKnown(cluster, running, positions);
          AllLeavingKnown(cluster, groups, |groups.keys|);
          MoveInTurn(AllLeaving(Cluster(rules, byVmid), groups, |groups.keys|), rule, None);
        case KeepTogether =>
          var groups := GroupByNode(running, positions);
          if |groups.keys| < 2 {
            return;
          }
          var target := Target(groups, free);
          GuestsOfKnown(cluster, running);
          MoveInTurn(GuestsOf(Cluster(rules, byVmid), running), rule, Some({target}));
        case PreferNodes =>
          GuestsOfKnown(cluster, running);
          MoveInTurn(GuestsOf(Cluster(rules, byVmid), running), rule, Some(set n | n in rule.nodes));
      }
    }
  }

  /** The moves that bring the guests back within the rules, and what could not be fixed. */
  method PlanCorrections(rules: seq<Rule>, guests: seq<Guest>, freeMemory: Memory)
    returns (moves: seq<Move>, unresolved: seq<Unresolved>)
    requires freeMemory.Valid()
    ensures var final := FinalPlan(Cluster(rules, ByVmid(guests)), freeMemory);
            moves == Changed(final.moves) && unresolved == final.unresolved
  {
    var planner := new Planner(rules, guests, freeMemory);
    var sorted := Sorted(rules);
    ghost var start := planner.State();
    for k := 0 to |sorted|
      invariant planner.Valid() && planner.cluster == Cluster(rules, ByVmid(guests))
      invariant FixAll(planner.cluster, planner.State(), sorted[k..]) == FixAll(planner.cluster, start, sorted)
    {
      assert sorted[k..][1..] == sorted[k + 1..];
      planner.Correct(sorted[k]);
    }
    moves, unresolved := Changed(planner.moves), planner.unresolved;
  }
}
