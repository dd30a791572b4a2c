/**
 * Placement rules: which guests may share a node, which must, and which nodes a
 * guest belongs on (packages/shared/src/placement.ts).
 */
module PlacementRules {
  import opened Prelude

  datatype Kind = KeepApart | KeepTogether | PreferNodes

  datatype Rule = Rule(
    id: string,
    name: string,
    kind: Kind,
    vmids: seq<int>,
    nodes: seq<string>,
    strict: bool,
    enabled: bool
  )

  /** Where each running guest is; a stopped guest is nowhere. */
  type Positions = map<int, string>

  datatype Violation = Violation(ruleId: string, ruleName: string, kind: Kind, soft: bool, vmids: seq<int>)

  // ---------------------------------------------------------------------------
  // What a rule means
  // ---------------------------------------------------------------------------

  /** The guests a rule names are where the rule wants them. */
  ghost predicate Holds(rule: Rule, positions: Positions) {
    match rule.kind
    case KeepApart =>
      forall i, j :: 0 <= i < j < |rule.vmids| && rule.vmids[i] in positions && rule.vmids[j] in positions
        ==> positions[rule.vmids[i]] != positions[rule.vmids[j]]
    case KeepTogether =>
      forall v, w :: v in rule.vmids && w in rule.vmids && v in positions && w in positions
        ==> positions[v] == positions[w]
    case PreferNodes =>
      forall v :: v in rule.vmids && v in positions ==> positions[v] in rule.nodes
  }

  /** A rule that may not be broken; a preference that is not strict may. */
  predicate Hard(rule: Rule) {
    rule.enabled && (rule.kind == PreferNodes ==> rule.strict)
  }

  /** A rule to be kept apart names no guest twice; a request that does is refused. */
  ghost predicate WellFormed(rule: Rule) {
    rule.enabled && rule.kind == KeepApart ==> Distinct(rule.vmids)
  }

  // ---------------------------------------------------------------------------
  // Which rules are not met
  // ---------------------------------------------------------------------------

  function Running(vmids: seq<int>, positions: Positions): (r: seq<int>)
    ensures forall v :: v in r <==> v in vmids && v in positions
  {
    if vmids == [] then []
    else
      var rest := Running(vmids[..|vmids| - 1], positions);
      if vmids[|vmids| - 1] in positions then rest + [vmids[|vmids| - 1]] else rest
  }

  /** The guests of `vs` on one node, in order. */
  function On(vs: seq<int>, positions: Positions, node: string): (r: seq<int>)
    requires forall v :: v in vs ==> v in positions
    ensures forall v :: v in r <==> v in vs && positions[v] == node
  {
    if vs == [] then []
    else
      var rest, last := On(vs[..|vs| - 1], positions, node), vs[|vs| - 1];
      if positions[last] == node then rest + [last] else rest
  }

  /** `groups` holds for each node the guests of `vs` on it, and no empty group. */
  ghost predicate Groups(groups: OrderedMap<seq<int>>, vs: seq<int>, positions: Positions)
    requires forall v :: v in vs ==> v in positions
  {
    && groups.Valid()
    && (forall n :: n in groups.vals <==> On(vs, positions, n) != [])
    && (forall n :: n in groups.vals ==> groups.vals[n] == On(vs, positions, n))
  }

  /** The guests of `vs` by node, nodes in the order they are first met. */
  function ByNode(vs: seq<int>, positions: Positions): (r: OrderedMap<seq<int>>)
    requires forall v :: v in vs ==> v in positions
    ensures Groups(r, vs, positions)
  {
    if vs == [] then OrderedMap([], map[])
    else
      var init, v := vs[..|vs| - 1], vs[|vs| - 1];
      var rest := ByNode(init, positions);
      assert vs == init + [v];
      rest.Set(positions[v], rest.GetOr(positions[v], []) + [v])
  }

  function Outside(vs: seq<int>, positions: Positions, wanted: seq<string>): (r: seq<int>)
    requires forall v :: v in vs ==> v in positions
    ensures forall v :: v in r <==> v in vs && positions[v] !in wanted
  {
    if vs == [] then []
    else
      var rest, last := Outside(vs[..|vs| - 1], positions, wanted), vs[|vs| - 1];
      if positions[last] in wanted then rest else rest + [last]
  }

  /** One violation for each node that two or more of the guests share. */
  function Shared(rule: Rule, groups: OrderedMap<seq<int>>, n: nat): seq<Violation>
    requires n <= |groups.keys| && groups.Valid()
  {
    if n == 0 then []
    else
      var vmids := groups.vals[groups.keys[n - 1]];
      Shared(rule, groups, n - 1)
      + (if |vmids| < 2 then [] else [Violation(rule.id, rule.name, rule.kind, false, vmids)])
  }

  function ViolationsOf(rule: Rule, positions: Positions): seq<Violation> {
    if !rule.enabled then []
    else
      var running := Running(rule.vmids, positions);
      match rule.kind
      case KeepApart =>
        var groups := ByNode(running, positions);
        Shared(rule, groups, |groups.keys|)
      case KeepTogether =>
        if |ByNode(running, positions).keys| > 1
        then [Violation(rule.id, rule.name, rule.kind, false, running)]
        else []
      case PreferNodes =>
        var outside := Outside(running, positions, rule.nodes);
        if outside == [] then []
        else [Violation(rule.id, rule.name, rule.kind, !rule.strict, outside)]
  }

  function Violations(rules: seq<Rule>, positions: Positions): seq<Violation> {
    if rules == [] then []
    else Violations(rules[..|rules| - 1], positions) + ViolationsOf(rules[|rules| - 1], positions)
  }

  method PlacementViolations(rules: seq<Rule>, positions: Positions) returns (out: seq<Violation>)
    ensures out == Violations(rules, positions)
  {
    out := [];
    for k := 0 to |rules|
      invariant out == Violations(rules[..k], positions)
    {
      assert rules[..k + 1][..k] == rules[..k];
      if !rules[k].enabled {
        continue;
      }
      var broken := RuleViolations(rules[k], positions);
      out := out + broken;
    }
    assert rules[..|rules|] == rules;
  }

  /** The body of the loop over the rules. */
  method RuleViolations(rule: Rule, positions: Positions) returns (out: seq<Violation>)
    requires rule.enabled
    ensures out == ViolationsOf(rule, positions)
  {
    out := [];
    var running := Running(rule.vmids, positions);
    match rule.kind {
      case KeepApart =>
        var groups := GroupByNode(running, positions);
        for g := 0 to |groups.keys|
          invariant out == Shared(rule, groups, g)
        {
          var vmids := groups.vals[groups.keys[g]];
          if |vmids| >= 2 {
            out := out + [Violation(rule.id, rule.name, rule.kind, false, vmids)];
          }
        }
      case KeepTogether =>
        var groups := GroupByNode(running, positions);
        if |groups.keys| > 1 {
          out := [Violation(rule.id, rule.name, rule.kind, false, running)];
        }
      case PreferNodes =>
        var outside := Outside(running, positions, rule.nodes);
        if outside != [] {
          out := [Violation(rule.id, rule.name, rule.kind, !rule.strict, outside)];
        }
    }
  }

  /** Fills the map of guests by node one guest at a time. */
  method GroupByNode(vs: seq<int>, positions: Positions) returns (groups: OrderedMap<seq<int>>)
    requires forall v :: v in vs ==> v in positions
    ensures groups == ByNode(vs, positions)
  {
    groups := OrderedMap([], map[]);
    for k := 0 to |vs|
      invariant groups == ByNode(vs[..k], positions)
    {
      assert vs[..k + 1][..k] == vs[..k];
      var v := vs[k];
      groups := groups.Set(positions[v], groups.GetOr(positions[v], []) + [v]);
    }
    assert vs[..|vs|] == vs;
  }

  // ---------------------------------------------------------------------------
  // May a guest go to a node?
  // ---------------------------------------------------------------------------

  /** `rule` lets `vmid` go to `node`, the guest itself being left out of `positions`. */
  predicate Admits(rule: Rule, positions: Positions, vmid: int, node: string) {
    if !rule.enabled || vmid !in rule.vmids then true
    else
      match rule.kind
      case KeepApart =>
        forall v :: v in rule.vmids && v != vmid && v in positions ==> positions[v] != node
      case KeepTogether =>
        (exists v :: v in rule.vmids && v != vmid && v in positions)
        ==> exists v :: v in rule.vmids && v != vmid && v in positions && positions[v] == node
      case PreferNodes =>
        rule.strict ==> node in rule.nodes
  }

  /** The first rule that forbids it, if any. */
  function Forbids(rules: seq<Rule>, positions: Positions, vmid: int, node: string): (r: Option<Rule>)
    ensures r.None? <==> forall rule :: rule in rules ==> Admits(rule, positions, vmid, node)
    ensures r.Some? ==> r.value in rules && !Admits(r.value, positions, vmid, node)
  {
    if rules == [] then None
    else if !Admits(rules[0], positions, vmid, node) then Some(rules[0])
    else Forbids(rules[1..], positions, vmid, node)
  }

  predicate Prefers(rule: Rule, vmid: int) {
    rule.enabled && rule.kind == PreferNodes && vmid in rule.vmids
  }

  /** 0 for a node that every preference naming the guest lists, 1 otherwise. */
  function Rank(rules: seq<Rule>, vmid: int, node: string): (r: nat) {
    if forall r :: r in rules && Prefers(r, vmid) ==> node in r.nodes then 0 else 1
  }

  // ---------------------------------------------------------------------------
  // Properties
  // ---------------------------------------------------------------------------

  /** A rule has no violation exactly when it is disabled or holds. */
  lemma ViolatedIffNotHeld(rule: Rule, positions: Positions)
    ensures ViolationsOf(rule, positions) == [] <==> !rule.enabled || Holds(rule, positions)
  {
    if rule.enabled {
      var running := Running(rule.vmids, positions);
      match rule.kind {
        case KeepApart =>
          var groups := ByNode(running, positions);
          SharedEmptyIff(rule, groups, |groups.keys|);
          assert AllAlone(groups) <==> forall g :: 0 <= g < |groups.keys| ==> |groups.vals[groups.keys[g]]| < 2;
          ApartIffAllAlone(rule, positions);
        case KeepTogether =>
          TogetherIffOneNode(rule, positions);
        case PreferNodes =>
          var outside := Outside(running, positions, rule.nodes);
          if outside != [] {
            var v := outside[0];
            assert v in outside && v in running;
          }
      }
    }
  }

  lemma {:induction false} SharedEmptyIff(rule: Rule, groups: OrderedMap<seq<int>>, n: nat)
    requires n <= |groups.keys| && groups.Valid()
    ensures Shared(rule, groups, n) == [] <==> forall g :: 0 <= g < n ==> |groups.vals[groups.keys[g]]| < 2
  {
    if n > 0 {
      SharedEmptyIff(rule, groups, n - 1);
    }
  }

  /** The guest a rule names at a place runs on the node. */
  predicate RunsOn(vmids: seq<int>, positions: Positions, i: nat, node: string)
    requires i < |vmids|
  {
    vmids[i] in positions && positions[vmids[i]] == node
  }

  lemma OnInit(vmids: seq<int>, positions: Positions, node: string)
    requires vmids != []
    ensures On(Running(vmids, positions), positions, node)
         == On(Running(vmids[..|vmids| - 1], positions), positions, node)
            + (if RunsOn(vmids, positions, |vmids| - 1, node) then [vmids[|vmids| - 1]] else [])
  {
    var rest, last := Running(vmids[..|vmids| - 1], positions), vmids[|vmids| - 1];
    assert (rest + [last])[..|rest|] == rest;
  }

  /** A place in the rule that names a guest running on a node gives the node an entry, and two give it two. */
  lemma {:induction false} PlaceGivesEntry(vmids: seq<int>, positions: Positions, node: string, i: nat)
    requires i < |vmids| && RunsOn(vmids, positions, i, node)
    ensures |On(Running(vmids, positions), positions, node)| >= 1
  {
    OnInit(vmids, positions, node);
    if i < |vmids| - 1 {
      PlaceGivesEntry(vmids[..|vmids| - 1], positions, node, i);
    }
  }

  lemma {:induction false} TwoPlacesTwoEntries(vmids: seq<int>, positions: Positions, node: string, i: nat, j: nat)
    requires i < j < |vmids| && RunsOn(vmids, positions, i, node) && RunsOn(vmids, positions, j, node)
    ensures |On(Running(vmids, positions), positions, node)| >= 2
  {
    OnInit(vmids, positions, node);
    if j < |vmids| - 1 {
      TwoPlacesTwoEntries(vmids[..|vmids| - 1], positions, node, i, j);
    } else {
      PlaceGivesEntry(vmids[..|vmids| - 1], positions, node, i);
    }
  }

  /** An entry comes from a place in the rule, and two entries from two. */
  lemma {:induction false} EntriesHavePlaces(vmids: seq<int>, positions: Positions, node: string)
    returns (i: nat, j: nat)
    requires |On(Running(vmids, positions), positions, node)| >= 1
    ensures i <= j < |vmids| && RunsOn(vmids, positions, i, node) && RunsOn(vmids, positions, j, node)
    ensures |On(Running(vmids, positions), positions, node)| >= 2 ==> i < j
  {
    OnInit(vmids, positions, node);
    var init := vmids[..|vmids| - 1];
    if |On(Running(init, positions), positions, node)| == 0 {
      i, j := |vmids| - 1, |vmids| - 1;
    } else {
      i, j := EntriesHavePlaces(init, positions, node);
      assert RunsOn(vmids, positions, i, node) && RunsOn(vmids, positions, j, node);
      if RunsOn(vmids, positions, |vmids| - 1, node) {
        j := |vmids| - 1;
      }
    }
  }

  /** No node holds two of the guests. */
  ghost predicate AllAlone(groups: OrderedMap<seq<int>>) {
    forall n :: n in groups.vals ==> |groups.vals[n]| < 2
  }

  lemma AloneIff(groups: OrderedMap<seq<int>>, vs: seq<int>, positions: Positions)
    requires forall v :: v in vs ==> v in positions
    requires Groups(groups, vs, positions)
    ensures AllAlone(groups) <==> forall n :: |On(vs, positions, n)| < 2
  {
    if AllAlone(groups) {
      forall n ensures |On(vs, positions, n)| < 2 {
        assert n !in groups.vals ==> On(vs, positions, n) == [];
      }
    } else {
      var n :| n in groups.vals && |groups.vals[n]| >= 2;
      assert |On(vs, positions, n)| >= 2;
    }
  }

  lemma ApartIffAllAlone(rule: Rule, positions: Positions)
    requires rule.kind == KeepApart
    ensures Holds(rule, positions) <==> AllAlone(ByNode(Running(rule.vmids, positions), positions))
  {
    var running := Running(rule.vmids, positions);
    AloneIff(ByNode(running, positions), running, positions);
    if Holds(rule, positions) {
      forall n ensures |On(running, positions, n)| < 2 {
        if |On(running, positions, n)| >= 2 {
          var i, j := EntriesHavePlaces(rule.vmids, positions, n);
          assert false;
        }
      }
    } else {
      var i, j :| 0 <= i < j < |rule.vmids| && rule.vmids[i] in positions && rule.vmids[j] in positions
                  && positions[rule.vmids[i]] == positions[rule.vmids[j]];
      TwoPlacesTwoEntries(rule.vmids, positions, positions[rule.vmids[i]], i, j);
    }
  }

  lemma NodeOfMember(groups: OrderedMap<seq<int>>, vs: seq<int>, positions: Positions, v: int)
    requires v in vs && forall w :: w in vs ==> w in positions
    requires Groups(groups, vs, positions)
    ensures positions[v] in groups.vals && positions[v] in groups.keys && v in groups.vals[positions[v]]
  {
    assert v in On(vs, positions, positions[v]);
  }

  lemma MemberOfNode(groups: OrderedMap<seq<int>>, vs: seq<int>, positions: Positions, n: string, v: int)
    requires forall w :: w in vs ==> w in positions
    requires Groups(groups, vs, positions) && n in groups.vals && v in groups.vals[n]
    ensures v in vs && positions[v] == n
  {
  }

  /** None of these lists repeats anything that the rule does not. */
  lemma {:induction false} RunningDistinct(vmids: seq<int>, positions: Positions)
    requires Distinct(vmids)
    ensures Distinct(Running(vmids, positions))
  {
    if vmids != [] {
      RunningDistinct(vmids[..|vmids| - 1], positions);
    }
  }

  lemma {:induction false} OnDistinct(vs: seq<int>, positions: Positions, node: string)
    requires Distinct(vs) && forall v :: v in vs ==> v in positions
    ensures Distinct(On(vs, positions, node))
  {
    if vs != [] {
      OnDistinct(vs[..|vs| - 1], positions, node);
    }
  }

  lemma {:induction false} ByNodeDistinct(vs: seq<int>, positions: Positions)
    requires forall v :: v in vs ==> v in positions
    ensures Distinct(ByNode(vs, positions).keys)
  {
    if vs != [] {
      ByNodeDistinct(vs[..|vs| - 1], positions);
    }
  }

  lemma OneNodeShared(groups: OrderedMap<seq<int>>, vs: seq<int>, positions: Positions, v: int, w: int)
    requires v in vs && w in vs && forall u :: u in vs ==> u in positions
    requires Groups(groups, vs, positions) && |groups.keys| <= 1
    ensures positions[v] == positions[w]
  {
    NodeOfMember(groups, vs, positions, v);
    NodeOfMember(groups, vs, positions, w);
  }

  lemma TwoNodes(groups: OrderedMap<seq<int>>, vs: seq<int>, positions: Positions) returns (v: int, w: int)
    requires forall u :: u in vs ==> u in positions
    requires Groups(groups, vs, positions) && Distinct(groups.keys) && |groups.keys| > 1
    ensures v in vs && w in vs && positions[v] != positions[w]
  {
    var a, b := groups.keys[0], groups.keys[1];
    assert a in groups.vals && b in groups.vals;
    v, w := groups.vals[a][0], groups.vals[b][0];
    MemberOfNode(groups, vs, positions, a, v);
    MemberOfNode(groups, vs, positions, b, w);
  }

  lemma TogetherIffOneNode(rule: Rule, positions: Positions)
    requires rule.kind == KeepTogether
    ensures Holds(rule, positions) <==> |ByNode(Running(rule.vmids, positions), positions).keys| <= 1
  {
    var running := Running(rule.vmids, positions);
    var groups := ByNode(running, positions);
    if |groups.keys| > 1 {
      ByNodeDistinct(running, positions);
      var v, w := TwoNodes(groups, running, positions);
    } else {
      forall v, w | v in rule.vmids && w in rule.vmids && v in positions && w in positions
        ensures positions[v] == positions[w]
      {
        OneNodeShared(groups, running, positions, v, w);
      }
    }
  }

  /**
   * What a placement decision is for: when a hard rule holds without the guest,
   * it still holds with the guest on `node` exactly when the rule admits it there.
   */
  lemma AdmitsIffHolds(rule: Rule, positions: Positions, vmid: int, node: string)
    requires Hard(rule) && WellFormed(rule) && vmid in rule.vmids && vmid !in positions
    requires Holds(rule, positions)
    ensures Admits(rule, positions, vmid, node) <==> Holds(rule, positions[vmid := node])
  {
    var after := positions[vmid := node];
    if rule.kind == KeepApart {
      var k :| 0 <= k < |rule.vmids| && rule.vmids[k] == vmid;
      if Admits(rule, positions, vmid, node) {
        forall i, j | 0 <= i < j < |rule.vmids| && rule.vmids[i] in after && rule.vmids[j] in after
          ensures after[rule.vmids[i]] != after[rule.vmids[j]]
        {
          assert rule.vmids[i] != rule.vmids[j];
        }
      } else {
        var v :| v in rule.vmids && v != vmid && v in positions && positions[v] == node;
        var j :| 0 <= j < |rule.vmids| && rule.vmids[j] == v;
        assert after[rule.vmids[j]] == after[rule.vmids[k]];
      }
    }
  }

  /** Taking a running guest away never breaks a rule. */
  lemma HoldsWithoutGuest(rule: Rule, positions: Positions, vmid: int)
    requires Holds(rule, positions)
    ensures Holds(rule, positions - {vmid})
  {
  }

  /** A keep-apart rule that names a running guest twice is met nowhere, though it forbids no node on that account. */
  lemma NamedTwiceIsNeverApart(rule: Rule, positions: Positions, i: nat, j: nat, node: string)
    requires rule.kind == KeepApart && i < j < |rule.vmids| && rule.vmids[i] == rule.vmids[j]
      && rule.vmids[i] !in positions
    ensures !Holds(rule, positions[rule.vmids[i] := node])
    ensures (forall v :: v in rule.vmids && v in positions ==> positions[v] != node) ==>
      Admits(rule, positions, rule.vmids[i], node)
  {
    var after := positions[rule.vmids[i] := node];
    assert rule.vmids[i] in after && rule.vmids[j] in after && after[rule.vmids[i]] == after[rule.vmids[j]];
  }
}
