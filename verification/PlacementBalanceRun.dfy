/** Repeating the balancing move on its own outcome (packages/shared/src/placement.ts). */
module PlacementBalanceRun {
  import opened Prelude
  import opened PlacementRules
  import opened PlacementPlanner
  import opened PlacementBalance

  /** The running guests, and the loads of the nodes they run on. */
  datatype State = State(guests: seq<Guest>, loads: Loads) {
    ghost predicate Valid() {
      WellNamed(loads) && Unique(guests)
    }
  }

  function Moved(guests: seq<Guest>, vmid: int, to: string): (r: seq<Guest>)
    ensures |r| == |guests|
    ensures forall k :: 0 <= k < |guests| ==>
      r[k] == if guests[k].vmid == vmid then guests[k].(node := to) else guests[k]
  {
    if guests == [] then []
    else
      var first := if guests[0].vmid == vmid then guests[0].(node := to) else guests[0];
      [first] + Moved(guests[1..], vmid, to)
  }

  /** The state once the planned move has been made, if there is one. */
  function Next(rules: seq<Rule>, st: State, threshold: real): (r: Option<State>)
    requires st.Valid()
    ensures r.Some? ==> r.value.Valid()
  {
    match NextMove(rules, st.guests, st.loads, threshold)
    case None => None
    case Some((g, to)) =>
      NextMoveIsSound(rules, st, threshold);
      Some(State(Moved(st.guests, g.vmid, to.node), Trial(st.loads, g.node, to.node, g.memory)))
  }

  /** What the planned move is: an unblocked guest of the busiest node that another node accepts. */
  lemma NextMoveIsSound(rules: seq<Rule>, st: State, threshold: real)
    requires st.Valid() && NextMove(rules, st.guests, st.loads, threshold).Some?
    ensures var (g, to) := NextMove(rules, st.guests, st.loads, threshold).value;
            && g in st.guests && !g.Blocked()
            && g.node in st.loads.vals && to.node in st.loads.vals && st.loads.vals[to.node] == to
            && g.node != to.node
            && Accepts(rules, st.loads, PositionsOf(st.guests), g, to)
  {
    var busiest := Busiest(st.loads).node;
    StableSortElements(Movable(st.guests, busiest), NoLarger);
    AllPlaced(st.guests, Candidates(st.guests, busiest));
    FirstMoveAccepted(rules, st.loads, PositionsOf(st.guests), Candidates(st.guests, busiest),
                      Targets(st.loads, busiest));
  }

  lemma AllPlaced(guests: seq<Guest>, some: seq<Guest>)
    requires Unique(guests) && forall g :: g in some ==> g in guests
    ensures forall g :: g in some ==> Placed(PositionsOf(guests), g)
  {
    forall g | g in some ensures Placed(PositionsOf(guests), g) {
      PositionOfGuest(guests, g);
    }
  }

  /**
   * When no move is planned though the spread is over the threshold, no node accepts any of the busiest node's guests.
   */
  lemma NoMoveMeansNoneHelps(rules: seq<Rule>, st: State, threshold: real, g: Guest, to: NodeLoad)
    requires st.Valid() && NextMove(rules, st.guests, st.loads, threshold).None?
    requires |st.loads.keys| >= 2 && Spread(st.loads) > threshold
    requires g in st.guests && g.node == Busiest(st.loads).node && !g.Blocked()
    requires to in All(st.loads) && to.node != g.node
    ensures !Accepts(rules, st.loads, PositionsOf(st.guests), g, to)
  {
    var busiest := Busiest(st.loads).node;
    StableSortElements(Movable(st.guests, busiest), NoLarger);
    StableSortElements(Others(All(st.loads), busiest), Quieter);
    AllPlaced(st.guests, Candidates(st.guests, busiest));
    NoMoveAccepted(rules, st.loads, PositionsOf(st.guests), Candidates(st.guests, busiest), Targets(st.loads, busiest),
                   g, to);
  }

  lemma MovedAbsent(guests: seq<Guest>, vmid: int, to: string)
    requires forall k :: 0 <= k < |guests| ==> guests[k].vmid != vmid
    ensures Moved(guests, vmid, to) == guests
  {
  }

  lemma {:induction false} PositionsAfterMove(guests: seq<Guest>, k: nat, to: string)
    requires k < |guests| && forall j :: 0 <= j < |guests| && j != k ==> guests[j].vmid != guests[k].vmid
    ensures PositionsOf(Moved(guests, guests[k].vmid, to)) == PositionsOf(guests)[guests[k].vmid := to]
  {
    if k == 0 {
      MovedAbsent(guests[1..], guests[0].vmid, to);
      NotPlaced(guests[1..], guests[0].vmid);
    } else {
      PositionsAfterMove(guests[1..], k - 1, to);
    }
  }

  /** A node that accepts a guest may take it without breaking a hard rule that holds. */
  lemma AcceptedKeepsRule(rules: seq<Rule>, loads: Loads, positions: Positions, g: Guest, to: NodeLoad, rule: Rule)
    requires WellNamed(loads) && g.node in loads.vals && to.node in loads.vals
    requires Accepts(rules, loads, positions, g, to)
    requires rule in rules && WellFormed(rule) && Hard(rule) && Holds(rule, positions)
    ensures Holds(rule, positions[g.vmid := to.node])
  {
    var without := positions - {g.vmid};
    assert positions[g.vmid := to.node] == without[g.vmid := to.node];
    HoldsWithoutGuest(rule, positions, g.vmid);
    if g.vmid in rule.vmids {
      AdmitsIffHolds(rule, without, g.vmid, to.node);
    }
  }

  /** One balancing move narrows the spread, fits, and takes no guest to a node it prefers less. */
  lemma BalanceStepHelps(rules: seq<Rule>, st: State, threshold: real)
    requires st.Valid() && Next(rules, st, threshold).Some?
    ensures var next := Next(rules, st, threshold).value;
            var (g, to) := NextMove(rules, st.guests, st.loads, threshold).value;
            && st.loads.keys != [] && next.loads.keys == st.loads.keys
            && threshold < Spread(st.loads) && Spread(next.loads) < Spread(st.loads)
            && to.node in next.loads.vals && next.loads.vals[to.node].used <= next.loads.vals[to.node].total
            && Rank(rules, g.vmid, to.node) <= Rank(rules, g.vmid, g.node)
  {
    NextMoveIsSound(rules, st, threshold);
  }

  lemma AcceptedMoveKeepsRule(rules: seq<Rule>, guests: seq<Guest>, loads: Loads, g: Guest, to: NodeLoad, rule: Rule)
    requires WellNamed(loads) && Unique(guests) && g in guests && g.node in loads.vals && to.node in loads.vals
    requires Accepts(rules, loads, PositionsOf(guests), g, to)
    requires rule in rules && WellFormed(rule) && Hard(rule) && Holds(rule, PositionsOf(guests))
    ensures Holds(rule, PositionsOf(Moved(guests, g.vmid, to.node)))
  {
    var k :| 0 <= k < |guests| && guests[k] == g;
    PositionsAfterMove(guests, k, to.node);
    AcceptedKeepsRule(rules, loads, PositionsOf(guests), g, to, rule);
  }

  /** One balancing move leaves every hard rule that held holding. */
  lemma BalanceStepKeepsRule(rules: seq<Rule>, st: State, threshold: real, rule: Rule)
    requires st.Valid() && Next(rules, st, threshold).Some?
    requires rule in rules && WellFormed(rule) && Hard(rule) && Holds(rule, PositionsOf(st.guests))
    ensures Holds(rule, PositionsOf(Next(rules, st, threshold).value.guests))
  {
    NextMoveIsSound(rules, st, threshold);
    var (g, to) := NextMove(rules, st.guests, st.loads, threshold).value;
    AcceptedMoveKeepsRule(rules, st.guests, st.loads, g, to, rule);
  }

  // ---------------------------------------------------------------------------
  // Runs
  // ---------------------------------------------------------------------------

  /** Each state is the one before with its planned move made. */
  ghost predicate IsRun(rules: seq<Rule>, threshold: real, run: seq<State>) {
    && (forall i :: 0 <= i < |run| ==> run[i].Valid())
    && (forall i :: 0 <= i < |run| - 1 ==> Next(rules, run[i], threshold) == Some(run[i + 1]))
  }

  /** The memory of the guests on a node. */
  ghost function OnNode(guests: seq<Guest>, node: string): int {
    if guests == [] then 0
    else (if guests[0].node == node then guests[0].memory else 0) + OnNode(guests[1..], node)
  }

  /** Both states are of the same guests, and what a node uses differs only by the guests on it. */
  ghost predicate SameBase(a: State, b: State) {
    && a.loads.keys == b.loads.keys
    && |a.guests| == |b.guests|
    && (forall k :: 0 <= k < |a.guests| ==> b.guests[k] == a.guests[k].(node := b.guests[k].node))
    && (forall n :: n in a.loads.vals <==> n in b.loads.vals)
    && (forall n :: n in a.loads.vals ==> SameNodeBase(a, b, n))
  }

  ghost predicate SameNodeBase(a: State, b: State, n: string)
    requires n in a.loads.vals && n in b.loads.vals
  {
    && a.loads.vals[n].node == b.loads.vals[n].node
    && a.loads.vals[n].total == b.loads.vals[n].total
    && a.loads.vals[n].used - OnNode(a.guests, n) == b.loads.vals[n].used - OnNode(b.guests, n)
  }

  lemma {:induction false} OnNodeAfterMove(guests: seq<Guest>, k: nat, to: string, node: string)
    requires Unique(guests) && k < |guests|
    ensures OnNode(Moved(guests, guests[k].vmid, to), node)
         == OnNode(guests, node) + (if to == node then guests[k].memory else 0)
            - (if guests[k].node == node then guests[k].memory else 0)
  {
    if k == 0 {
      MovedAbsent(guests[1..], guests[0].vmid, to);
    } else {
      OnNodeAfterMove(guests[1..], k - 1, to, node);
    }
  }

  lemma MoveSameBase(st: State, k: nat, to: string)
    requires st.Valid() && k < |st.guests| && st.guests[k].node in st.loads.vals && to in st.loads.vals
    requires to != st.guests[k].node
    ensures var g := st.guests[k];
            Follows(st, State(Moved(st.guests, g.vmid, to), Trial(st.loads, g.node, to, g.memory)))
  {
    var g := st.guests[k];
    var next := State(Moved(st.guests, g.vmid, to), Trial(st.loads, g.node, to, g.memory));
    forall n | n in st.loads.vals ensures n in next.loads.vals && SameNodeBase(st, next, n) {
      OnNodeAfterMove(st.guests, k, to, n);
    }
  }

  /** Moves lead from `a` to `b`: the base is the same, and guests that moved are on nodes of the cluster. */
  ghost predicate Follows(a: State, b: State) {
    && SameBase(a, b)
    && forall k :: 0 <= k < |a.guests| ==> b.guests[k].node == a.guests[k].node || b.guests[k].node in a.loads.vals
  }

  /** And the spread is smaller. */
  ghost predicate Narrower(a: State, b: State) {
    && Follows(a, b)
    && WellNamed(a.loads) && WellNamed(b.loads) && a.loads.keys != [] && b.loads.keys != []
    && Spread(b.loads) < Spread(a.loads)
  }

  lemma NextNarrower(rules: seq<Rule>, st: State, threshold: real)
    requires st.Valid() && Next(rules, st, threshold).Some?
    ensures Narrower(st, Next(rules, st, threshold).value)
  {
    NextMoveIsSound(rules, st, threshold);
    BalanceStepHelps(rules, st, threshold);
    var (g, to) := NextMove(rules, st.guests, st.loads, threshold).value;
    var k :| 0 <= k < |st.guests| && st.guests[k] == g;
    MoveSameBase(st, k, to.node);
  }

  lemma SameBaseTransitive(a: State, b: State, c: State)
    requires SameBase(a, b) && SameBase(b, c)
    ensures SameBase(a, c)
  {
    forall n | n in a.loads.vals ensures SameNodeBase(a, c, n) {
      assert SameNodeBase(a, b, n) && SameNodeBase(b, c, n);
    }
  }

  lemma NarrowerTransitive(a: State, b: State, c: State)
    requires Narrower(a, b) && Narrower(b, c)
    ensures Narrower(a, c)
  {
    SameBaseTransitive(a, b, c);
  }

  /** What holds between neighbours of a chain and is transitive holds along it. */
  lemma {:induction false} AlongChain<T(!new)>(s: seq<T>, r: (T, T) -> bool, i: nat, j: nat)
    requires forall k :: 0 <= k < |s| - 1 ==> r(s[k], s[k + 1])
    requires forall a, b, c :: r(a, b) && r(b, c) ==> r(a, c)
    requires i < j < |s|
    ensures r(s[i], s[j])
  {
    assert r(s[j - 1], s[j - 1 + 1]);
    if i < j - 1 {
      AlongChain(s, r, i, j - 1);
    }
  }

  lemma RunNarrows(rules: seq<Rule>, threshold: real, run: seq<State>, i: nat, j: nat)
    requires IsRun(rules, threshold, run) && i < j < |run|
    ensures Narrower(run[i], run[j])
  {
    ghost var r := (a: State, b: State) => Narrower(a, b);
    forall k | 0 <= k < |run| - 1 ensures r(run[k], run[k + 1]) {
      assert run[k].Valid() && Next(rules, run[k], threshold) == Some(run[k + 1]);
      NextNarrower(rules, run[k], threshold);
    }
    forall a, b, c | r(a, b) && r(b, c) ensures r(a, c) {
      NarrowerTransitive(a, b, c);
    }
    AlongChain(run, r, i, j);
  }

  /** Where the guests are, in order. */
  function Placement(guests: seq<Guest>): (r: seq<string>)
    ensures |r| == |guests| && forall k :: 0 <= k < |guests| ==> r[k] == guests[k].node
  {
    if guests == [] then [] else [guests[0].node] + Placement(guests[1..])
  }

  /** With the same base, the placement decides the loads. */
  lemma PlacementDecidesLoads(a: State, b: State)
    requires SameBase(a, b) && Placement(a.guests) == Placement(b.guests)
    ensures a.loads == b.loads
  {
    forall k | 0 <= k < |a.guests| ensures a.guests[k] == b.guests[k] {
      assert Placement(a.guests)[k] == Placement(b.guests)[k];
    }
    assert a.guests == b.guests;
    forall n | n in a.loads.vals ensures a.loads.vals[n] == b.loads.vals[n] {
      assert SameNodeBase(a, b, n);
    }
    assert a.loads.vals == b.loads.vals;
  }

  /** Balancing never comes back to where the guests were before. */
  lemma NeverRevisits(rules: seq<Rule>, threshold: real, run: seq<State>, i: nat, j: nat)
    requires IsRun(rules, threshold, run) && i < j < |run|
    ensures Placement(run[i].guests) != Placement(run[j].guests)
  {
    RunNarrows(rules, threshold, run, i, j);
    if Placement(run[i].guests) == Placement(run[j].guests) {
      PlacementDecidesLoads(run[i], run[j]);
      assert false;
    }
  }

  // ---------------------------------------------------------------------------
  // Termination
  // ---------------------------------------------------------------------------

  function Power(base: nat, exponent: nat): nat {
    if exponent == 0 then 1 else base * Power(base, exponent - 1)
  }

  /** Every way of putting `count` guests on the nodes of `names`. */
  function Arrangements(names: set<string>, count: nat): (r: set<seq<string>>)
    ensures forall p :: p in r <==> |p| == count && forall k :: 0 <= k < count ==> p[k] in names
  {
    if count == 0 then {[]}
    else
      var rest := Arrangements(names, count - 1);
      var r := set n, p | n in names && p in rest :: [n] + p;
      assert forall p :: p in r ==> |p| == count && p[1..] in rest;
      assert forall p :: |p| == count && (forall k :: 0 <= k < count ==> p[k] in names) ==> p == [p[0]] + p[1..];
      r
  }

  lemma {:induction false} CountArrangements(names: set<string>, count: nat)
    ensures |Arrangements(names, count)| == Power(|names|, count)
  {
    if count > 0 {
      CountArrangements(names, count - 1);
      CountPairs(names, Arrangements(names, count - 1));
      ArrangementsOfMore(names, count);
    }
  }

  lemma ArrangementsOfMore(names: set<string>, count: nat)
    requires count > 0
    ensures Arrangements(names, count) == set n, p | n in names && p in Arrangements(names, count - 1) :: [n] + p
  {
  }

  lemma {:induction false} CountPairs(names: set<string>, rest: set<seq<string>>)
    ensures |set n, p | n in names && p in rest :: [n] + p| == |names| * |rest|
  {
    if names == {} {
      assert (set n, p | n in names && p in rest :: [n] + p) == {};
    } else {
      var m :| m in names;
      var less := names - {m};
      CountPairs(less, rest);
      CountPrefixed(m, rest);
      SplitPairs(names, m, rest);
      assert |names| * |rest| == |less| * |rest| + |rest| by { assert |names| == |less| + 1; }
    }
  }

  lemma SplitPairs(names: set<string>, m: string, rest: set<seq<string>>)
    requires m in names
    ensures |set n, p | n in names && p in rest :: [n] + p|
         == |set n, p | n in names - {m} && p in rest :: [n] + p| + |set p | p in rest :: [m] + p|
  {
    var a, b := set n, p | n in names - {m} && p in rest :: [n] + p, set p | p in rest :: [m] + p;
    forall x | x in a ensures x !in b {
      assert x[0] != m;
    }
    assert (set n, p | n in names && p in rest :: [n] + p) == a + b;
  }

  lemma {:induction false} CountPrefixed(m: string, rest: set<seq<string>>)
    ensures |set p | p in rest :: [m] + p| == |rest|
  {
    if rest != {} {
      var q :| q in rest;
      CountPrefixed(m, rest - {q});
      var a := set p | p in rest - {q} :: [m] + p;
      forall p | p in rest - {q} ensures [m] + p != [m] + q {
        assert ([m] + p)[1..] == p && ([m] + q)[1..] == q;
      }
      assert (set p | p in rest :: [m] + p) == a + {[m] + q};
    }
  }

  function Placements(run: seq<State>): (r: seq<seq<string>>)
    ensures |r| == |run| && forall k :: 0 <= k < |run| ==> r[k] == Placement(run[k].guests)
  {
    if run == [] then [] else [Placement(run[0].guests)] + Placements(run[1..])
  }

  /** A run of balancing moves is no longer than there are placements of its guests. */
  lemma BalancingEnds(rules: seq<Rule>, threshold: real, run: seq<State>, names: set<string>)
    requires IsRun(rules, threshold, run) && run != []
    requires forall n :: n in run[0].loads.vals ==> n in names
    requires forall g :: g in run[0].guests ==> g.node in names
    ensures |run| <= Power(|names|, |run[0].guests|)
  {
    var all, seen := Arrangements(names, |run[0].guests|), Placements(run);
    forall i, j | 0 <= i < j < |seen| ensures seen[i] != seen[j] {
      NeverRevisits(rules, threshold, run, i, j);
    }
    forall i | 0 <= i < |seen| ensures seen[i] in all {
      if i > 0 {
        RunNarrows(rules, threshold, run, 0, i);
      }
    }
    DistinctCardinality(seen);
    var visited := set p | p in seen;
    assert visited <= all;
    SubsetSize(visited, all);
    CountArrangements(names, |run[0].guests|);
  }
}
