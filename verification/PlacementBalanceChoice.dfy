/** Which move balancing makes, told from the loads and the guests alone (packages/shared/src/placement.ts). */
module PlacementBalanceChoice {
  import opened Prelude
  import opened PlacementRules
  import opened PlacementPlanner
  import opened PlacementChoices
  import opened PlacementBalance
  import opened PlacementBalanceRun

  // ---------------------------------------------------------------------------
  // The spread
  // ---------------------------------------------------------------------------

  /** The part of its memory a node uses; none when it has no memory. */
  ghost predicate IsShare(l: NodeLoad, x: real) {
    if l.total == 0 then x == 0.0 else x * l.total as real == l.used as real
  }

  lemma ShareIs(l: NodeLoad, x: real)
    ensures IsShare(l, x) <==> x == Share(l)
  {
    if l.total != 0 {
      assert l.used as real / l.total as real * l.total as real == l.used as real;
      if x * l.total as real == l.used as real {
        assert x == l.used as real / l.total as real;
      }
    }
  }

  lemma {:induction false} HighestIs(ls: seq<NodeLoad>) returns (i: nat)
    requires ls != []
    ensures i < |ls| && Share(ls[i]) == Highest(ls) && forall j :: 0 <= j < |ls| ==> Share(ls[j]) <= Highest(ls)
  {
    i := 0;
    if |ls| > 1 {
      var j := HighestIs(ls[1..]);
      i := if Share(ls[0]) > Highest(ls[1..]) then 0 else j + 1;
      assert forall k :: 1 <= k < |ls| ==> ls[k] == ls[1..][k - 1];
    }
  }

  lemma {:induction false} LowestIs(ls: seq<NodeLoad>) returns (i: nat)
    requires ls != []
    ensures i < |ls| && Share(ls[i]) == Lowest(ls) && forall j :: 0 <= j < |ls| ==> Lowest(ls) <= Share(ls[j])
  {
    i := 0;
    if |ls| > 1 {
      var j := LowestIs(ls[1..]);
      i := if Share(ls[0]) < Lowest(ls[1..]) then 0 else j + 1;
      assert forall k :: 1 <= k < |ls| ==> ls[k] == ls[1..][k - 1];
    }
  }

  /** The nodes of a cluster, each under its place. */
  lemma {:induction false} EntryAt(loads: Loads, n: nat, k: nat)
    requires WellNamed(loads) && k < n <= |loads.keys|
    ensures loads.keys[k] in loads.vals && PlacementBalance.Entries(loads, n)[k] == loads.vals[loads.keys[k]]
  {
    assert loads.keys[n - 1] in loads.keys;
    if k < n - 1 {
      EntryAt(loads, n - 1, k);
    }
  }

  lemma PlaceOfNode(loads: Loads, node: string) returns (k: nat)
    requires WellNamed(loads) && node in loads.vals
    ensures k < |loads.keys| && loads.keys[k] == node && All(loads)[k] == loads.vals[node]
  {
    k :| 0 <= k < |loads.keys| && loads.keys[k] == node;
    EntryAt(loads, |loads.keys|, k);
  }

  ghost predicate SpreadBetween(loads: Loads, a: string, b: string, s: real)
    requires a in loads.vals && b in loads.vals
  {
    exists x, y :: IsShare(loads.vals[a], x) && IsShare(loads.vals[b], y) && s == (x - y) * 100.0
  }

  /** The spread is the most, in percentage points, by which one node's share exceeds another's. */
  lemma SpreadIs(loads: Loads)
    requires WellNamed(loads) && loads.keys != []
    ensures exists a, b :: a in loads.vals && b in loads.vals && SpreadBetween(loads, a, b, Spread(loads))
    ensures forall a, b, s :: a in loads.vals && b in loads.vals && SpreadBetween(loads, a, b, s) ==> s <= Spread(loads)
  {
    var all := All(loads);
    var i := HighestIs(all);
    var j := LowestIs(all);
    assert all[i] in all && all[j] in all;
    ShareIs(all[i], Share(all[i]));
    ShareIs(all[j], Share(all[j]));
    assert SpreadBetween(loads, all[i].node, all[j].node, Spread(loads));
    forall a, b, s | a in loads.vals && b in loads.vals && SpreadBetween(loads, a, b, s) ensures s <= Spread(loads) {
      SpreadAtMost(loads, a, b, s);
    }
  }

  lemma SpreadAtMost(loads: Loads, a: string, b: string, s: real)
    requires WellNamed(loads) && a in loads.vals && b in loads.vals && SpreadBetween(loads, a, b, s)
    ensures s <= Spread(loads)
  {
    var i := PlaceOfNode(loads, a);
    var j := PlaceOfNode(loads, b);
    var _ := HighestIs(All(loads));
    var _ := LowestIs(All(loads));
    var x, y :| IsShare(loads.vals[a], x) && IsShare(loads.vals[b], y) && s == (x - y) * 100.0;
    ShareIs(loads.vals[a], x);
    ShareIs(loads.vals[b], y);
  }

  // ---------------------------------------------------------------------------
  // The busiest node
  // ---------------------------------------------------------------------------

  /** No node uses more of its memory, and those that use as much come later. */
  ghost predicate IsBusiest(loads: Loads, node: string) {
    && node in loads.vals
    && forall n :: n in loads.vals && n != node ==>
        || Share(loads.vals[n]) < Share(loads.vals[node])
        || (Share(loads.vals[n]) == Share(loads.vals[node]) && ComesBefore(loads.keys, node, n))
  }

  lemma BusiestIs(loads: Loads)
    requires WellNamed(loads) && loads.keys != []
    ensures IsBusiest(loads, Busiest(loads).node)
  {
    var all, any := All(loads), (l: NodeLoad) => true;
    assert any(all[0]);
    var i := FirstIsLeast(all, Busier, any);
    FilterAll(StableSort(all, Busier), any);
    var b := Busiest(loads).node;
    EntryAt(loads, |loads.keys|, i);
    forall n | n in loads.vals && n != b
      ensures Share(loads.vals[n]) < Share(loads.vals[b])
              || (Share(loads.vals[n]) == Share(loads.vals[b]) && ComesBefore(loads.keys, b, n))
    {
      var j := PlaceOfNode(loads, n);
      assert any(all[j]) && Busier(all[i], all[j]);
      if Share(loads.vals[n]) == Share(loads.vals[b]) {
        FirstPlace(loads, i, n);
      }
    }
  }

  /** A node as busy as the first of them is not before it. */
  lemma FirstPlace(loads: Loads, i: nat, n: string)
    requires WellNamed(loads) && i < |loads.keys| && n in loads.vals && n != loads.keys[i]
    requires forall j :: 0 <= j < i ==> !Busier(All(loads)[j], All(loads)[i])
    requires Share(loads.vals[n]) == Share(All(loads)[i])
    ensures ComesBefore(loads.keys, loads.keys[i], n)
  {
    forall j | 0 <= j < i ensures loads.keys[j] != n {
      EntryAt(loads, |loads.keys|, j);
      assert !Busier(All(loads)[j], All(loads)[i]);
    }
    assert n !in loads.keys[..i];
  }

  // ---------------------------------------------------------------------------
  // The move
  // ---------------------------------------------------------------------------

  /** The node is another one that accepts the guest. */
  ghost predicate CanTake(rules: seq<Rule>, st: State, g: Guest, node: string)
    requires st.Valid()
  {
    && g.node in st.loads.vals && node in st.loads.vals && node != g.node
    && Accepts(rules, st.loads, PositionsOf(st.guests), g, st.loads.vals[node])
  }

  /** The guest is on the node, nothing keeps it from moving, and some other node accepts it. */
  ghost predicate CanLeave(rules: seq<Rule>, st: State, g: Guest, node: string)
    requires st.Valid()
  {
    g.node == node && !g.Blocked() && exists n :: CanTake(rules, st, g, n)
  }

  /** It is the smallest guest of the busiest node that can leave it, the first of that size. */
  ghost predicate IsNextGuest(rules: seq<Rule>, st: State, k: nat)
    requires st.Valid()
  {
    && k < |st.guests| && IsBusiest(st.loads, st.guests[k].node)
    && CanLeave(rules, st, st.guests[k], st.guests[k].node)
    && forall j :: 0 <= j < |st.guests| && j != k && CanLeave(rules, st, st.guests[j], st.guests[k].node) ==>
        || st.guests[k].memory < st.guests[j].memory
        || (st.guests[k].memory == st.guests[j].memory && k < j)
  }

  /** It is the least used node that can take the guest, the first of those used as little. */
  ghost predicate IsNextNode(rules: seq<Rule>, st: State, g: Guest, node: string)
    requires st.Valid()
  {
    && CanTake(rules, st, g, node)
    && forall n :: CanTake(rules, st, g, n) && n != node ==>
        || Share(st.loads.vals[node]) < Share(st.loads.vals[n])
        || (Share(st.loads.vals[node]) == Share(st.loads.vals[n]) && ComesBefore(st.loads.keys, node, n))
  }

  function MayGo(node: string): Guest -> bool {
    (g: Guest) => g.node == node && !g.Blocked()
  }

  function IsOther(node: string): NodeLoad -> bool {
    (l: NodeLoad) => l.node != node
  }

  lemma {:induction false} MovableAre(guests: seq<Guest>, node: string)
    ensures Movable(guests, node) == Filter(guests, MayGo(node))
  {
    if guests != [] {
      MovableAre(guests[1..], node);
    }
  }

  lemma {:induction false} OthersAre(ls: seq<NodeLoad>, node: string)
    ensures Others(ls, node) == Filter(ls, IsOther(node))
  {
    if ls != [] {
      OthersAre(ls[1..], node);
    }
  }

  ghost function Accepting(rules: seq<Rule>, loads: Loads, positions: Positions, g: Guest): NodeLoad -> bool
    requires WellNamed(loads)
  {
    (l: NodeLoad) => g.node in loads.vals && l.node in loads.vals && Accepts(rules, loads, positions, g, l)
  }

  ghost function Finding(rules: seq<Rule>, loads: Loads, positions: Positions, targets: seq<NodeLoad>): Guest -> bool
    requires WellNamed(loads)
  {
    (g: Guest) => SomePicked(targets, Accepting(rules, loads, positions, g))
  }

  lemma {:induction false} FirstTargetIs(rules: seq<Rule>, loads: Loads, positions: Positions, g: Guest,
                                         targets: seq<NodeLoad>)
    requires WellNamed(loads) && g.node in loads.vals && forall l :: l in targets ==> l.node in loads.vals
    ensures var to, picked := FirstTarget(rules, loads, positions, g, targets),
                              Filter(targets, Accepting(rules, loads, positions, g));
            if picked == [] then to == None else to == Some(picked[0])
    ensures FirstTarget(rules, loads, positions, g, targets).Some? <==>
      SomePicked(targets, Accepting(rules, loads, positions, g))
  {
    if targets != [] {
      var p := Accepting(rules, loads, positions, g);
      assert targets[0] in targets;
      FirstTargetIs(rules, loads, positions, g, targets[1..]);
      PickedFirstOrLater(targets, p);
    }
  }

  lemma PickedFirstOrLater<T>(s: seq<T>, p: T -> bool)
    requires s != []
    ensures SomePicked(s, p) <==> p(s[0]) || SomePicked(s[1..], p)
  {
    assert forall k :: 1 <= k < |s| ==> s[k] == s[1..][k - 1];
  }

  lemma {:induction false} FirstMoveIs(rules: seq<Rule>, loads: Loads, positions: Positions, gs: seq<Guest>,
                                       targets: seq<NodeLoad>)
    requires WellNamed(loads) && forall l :: l in targets ==> l.node in loads.vals
    requires forall g :: g in gs ==> g.node in loads.vals && Placed(positions, g)
    requires FirstMove(rules, loads, positions, gs, targets).Some?
    ensures var (g, to) := FirstMove(rules, loads, positions, gs, targets).value;
            var picked := Filter(gs, Finding(rules, loads, positions, targets));
            && SomePicked(gs, Finding(rules, loads, positions, targets))
            && picked != [] && picked[0] == g
            && g.node in loads.vals && FirstTarget(rules, loads, positions, g, targets) == Some(to)
    decreases |gs|
  {
    var g, p := gs[0], Finding(rules, loads, positions, targets);
    assert g in gs;
    FirstTargetIs(rules, loads, positions, g, targets);
    PickedFirstOrLater(gs, p);
    if FirstTarget(rules, loads, positions, g, targets).None? {
      assert positions[g.vmid := g.node] == positions;
      FirstMoveIs(rules, loads, positions, gs[1..], targets);
    }
  }

  lemma TargetsAre(loads: Loads, busiest: string, l: NodeLoad)
    requires WellNamed(loads)
    ensures l in Targets(loads, busiest) <==> l.node in loads.vals && loads.vals[l.node] == l && l.node != busiest
  {
    StableSortElements(Others(All(loads), busiest), Quieter);
    if l.node in loads.vals && loads.vals[l.node] == l {
      var k := PlaceOfNode(loads, l.node);
      assert All(loads)[k] in All(loads);
    }
  }

  /** A guest on the busiest node finds a target exactly when some node can take it. */
  lemma FindsIffCanTake(rules: seq<Rule>, st: State, busiest: string, g: Guest)
    requires st.Valid() && g.node == busiest && busiest in st.loads.vals
    ensures Finding(rules, st.loads, PositionsOf(st.guests), Targets(st.loads, busiest))(g) <==>
      exists n :: CanTake(rules, st, g, n)
  {
    var targets := Targets(st.loads, busiest);
    var p := Accepting(rules, st.loads, PositionsOf(st.guests), g);
    if n :| CanTake(rules, st, g, n) {
      var l := st.loads.vals[n];
      TargetsAre(st.loads, busiest, l);
      var k :| 0 <= k < |targets| && targets[k] == l;
      assert p(targets[k]);
    }
    if k :| 0 <= k < |targets| && p(targets[k]) {
      assert targets[k] in targets;
      assert CanTake(rules, st, g, targets[k].node);
    }
  }

  lemma LeastCandidate(guests: seq<Guest>, busiest: string, p: Guest -> bool, g: Guest) returns (k: nat)
    requires SomePicked(Movable(guests, busiest), p)
    requires var picked := Filter(Candidates(guests, busiest), p); picked != [] && picked[0] == g
    ensures IsLeast(guests, NoLarger, Both(MayGo(busiest), p), k) && guests[k] == g
  {
    var i := FirstIsLeast(Movable(guests, busiest), NoLarger, p);
    MovableAre(guests, busiest);
    k := LeastOfPicked(guests, MayGo(busiest), NoLarger, p, i);
  }

  /** Which guest moves. */
  lemma FirstCandidate(rules: seq<Rule>, st: State, busiest: string, p: Guest -> bool, k: nat)
    requires st.Valid() && IsBusiest(st.loads, busiest) && IsLeast(st.guests, NoLarger, Both(MayGo(busiest), p), k)
    requires p == Finding(rules, st.loads, PositionsOf(st.guests), Targets(st.loads, busiest))
    ensures IsNextGuest(rules, st, k)
  {
    var g := st.guests[k];
    FindsIffCanTake(rules, st, busiest, g);
    forall j | 0 <= j < |st.guests| && j != k && CanLeave(rules, st, st.guests[j], busiest)
      ensures g.memory < st.guests[j].memory || (g.memory == st.guests[j].memory && k < j)
    {
      FindsIffCanTake(rules, st, busiest, st.guests[j]);
      LeastOutdoes(st.guests, Both(MayGo(busiest), p), k, j);
    }
  }

  lemma LeastOutdoes(guests: seq<Guest>, p: Guest -> bool, k: nat, j: nat)
    requires IsLeast(guests, NoLarger, p, k) && j < |guests| && j != k && p(guests[j])
    ensures guests[k].memory < guests[j].memory || (guests[k].memory == guests[j].memory && k < j)
  {
  }

  lemma LeastTarget(loads: Loads, busiest: string, p: NodeLoad -> bool, to: NodeLoad) returns (m: nat)
    requires WellNamed(loads)
    requires var picked := Filter(Targets(loads, busiest), p); picked != [] && picked[0] == to
    ensures IsLeast(All(loads), Quieter, Both(IsOther(busiest), p), m) && All(loads)[m] == to
  {
    var others := Others(All(loads), busiest);
    PickedOfFilter(StableSort(others, Quieter), p);
    SortedStillPicked(others, Quieter, p);
    var i := FirstIsLeast(others, Quieter, p);
    OthersAre(All(loads), busiest);
    m := LeastOfPicked(All(loads), IsOther(busiest), Quieter, p, i);
  }

  lemma PickedOfFilter<T>(s: seq<T>, p: T -> bool)
    requires Filter(s, p) != []
    ensures SomePicked(s, p)
  {
    var x := Filter(s, p)[0];
    FilterElement(s, p, x);
    var k :| 0 <= k < |s| && s[k] == x;
  }

  /** Which node it moves to. */
  lemma FirstTaker(rules: seq<Rule>, st: State, g: Guest, p: NodeLoad -> bool, m: nat)
    requires st.Valid() && g.node in st.loads.vals
    requires p == Accepting(rules, st.loads, PositionsOf(st.guests), g)
    requires IsLeast(All(st.loads), Quieter, Both(IsOther(g.node), p), m)
    ensures IsNextNode(rules, st, g, All(st.loads)[m].node)
  {
    var all := All(st.loads);
    var to := all[m].node;
    EntryAt(st.loads, |st.loads.keys|, m);
    assert Both(IsOther(g.node), p)(all[m]);
    forall n | CanTake(rules, st, g, n) && n != to
      ensures Share(st.loads.vals[to]) < Share(st.loads.vals[n])
              || (Share(st.loads.vals[to]) == Share(st.loads.vals[n]) && ComesBefore(st.loads.keys, to, n))
    {
      var j := PlaceOfNode(st.loads, n);
      assert Both(IsOther(g.node), p)(all[j]);
      QuietestOutdoes(st.loads, Both(IsOther(g.node), p), m, n, j);
    }
  }

  lemma QuietestOutdoes(loads: Loads, p: NodeLoad -> bool, m: nat, n: string, j: nat)
    requires WellNamed(loads) && IsLeast(All(loads), Quieter, p, m) && m < |loads.keys|
    requires All(loads)[m].node == loads.keys[m] && n != loads.keys[m]
    requires j < |loads.keys| && loads.keys[j] == n && n in loads.vals && p(loads.vals[n])
    requires All(loads)[j] == loads.vals[n]
    ensures Share(All(loads)[m]) < Share(loads.vals[n])
            || (Share(All(loads)[m]) == Share(loads.vals[n]) && ComesBefore(loads.keys, loads.keys[m], n))
  {
    if Share(All(loads)[m]) >= Share(loads.vals[n]) {
      forall i | 0 <= i < m ensures loads.keys[i] != n {
        EntryAt(loads, |loads.keys|, i);
      }
      assert n !in loads.keys[..m];
    }
  }

  lemma SortedStillPicked<T(!new)>(s: seq<T>, leq: (T, T) -> bool, p: T -> bool)
    requires SomePicked(StableSort(s, leq), p)
    ensures SomePicked(s, p)
  {
    StableSortElements(s, leq);
    var k :| 0 <= k < |StableSort(s, leq)| && p(StableSort(s, leq)[k]);
    var x := StableSort(s, leq)[k];
    assert x in s;
    var j :| 0 <= j < |s| && s[j] == x;
  }

  /**
   * The move made: of the first smallest guest that can leave the busiest node, to the first quietest that takes it.
   */
  lemma NextMoveIsFirst(rules: seq<Rule>, st: State, threshold: real) returns (k: nat)
    requires st.Valid() && NextMove(rules, st.guests, st.loads, threshold).Some?
    ensures var (g, to) := NextMove(rules, st.guests, st.loads, threshold).value;
            IsNextGuest(rules, st, k) && st.guests[k] == g && IsNextNode(rules, st, g, to.node)
  {
    var busiest := Busiest(st.loads).node;
    var targets, movable := Targets(st.loads, busiest), Movable(st.guests, busiest);
    var (g, to) := NextMove(rules, st.guests, st.loads, threshold).value;
    BusiestIs(st.loads);
    StableSortElements(movable, NoLarger);
    AllPlaced(st.guests, Candidates(st.guests, busiest));
    FirstMoveIs(rules, st.loads, PositionsOf(st.guests), Candidates(st.guests, busiest), targets);
    SortedStillPicked(movable, NoLarger, Finding(rules, st.loads, PositionsOf(st.guests), targets));
    k := LeastCandidate(st.guests, busiest, Finding(rules, st.loads, PositionsOf(st.guests), targets), g);
    FirstCandidate(rules, st, busiest, Finding(rules, st.loads, PositionsOf(st.guests), targets), k);
    FirstTargetIs(rules, st.loads, PositionsOf(st.guests), g, targets);
    var m := LeastTarget(st.loads, busiest, Accepting(rules, st.loads, PositionsOf(st.guests), g), to);
    FirstTaker(rules, st, g, Accepting(rules, st.loads, PositionsOf(st.guests), g), m);
  }

  // ---------------------------------------------------------------------------
  // What a node accepts
  // ---------------------------------------------------------------------------

  /**
   * The node has room, every rule admits the guest, it is wanted there if it is where it is, and the spread narrows.
   */
  lemma AcceptsIff(rules: seq<Rule>, loads: Loads, positions: Positions, g: Guest, to: NodeLoad)
    requires WellNamed(loads) && g.node in loads.vals && to.node in loads.vals
    ensures Accepts(rules, loads, positions, g, to) <==>
      && to.used + g.memory <= to.total
      && (forall rule :: rule in rules ==> Admits(rule, positions - {g.vmid}, g.vmid, to.node))
      && (WantedOn(rules, g.vmid, g.node) ==> WantedOn(rules, g.vmid, to.node))
      && Spread(Trial(loads, g.node, to.node, g.memory)) < Spread(loads)
  {
    RankIsWanted(rules, g.vmid, g.node, to.node);
  }
}
