/** Rules that cannot both hold (packages/shared/src/placement.ts). */
module PlacementContradictions {
  import opened Prelude
  import opened PlacementRules

  function SharedGuests(other: Rule, vmids: seq<int>): seq<int> {
    SharedAmong(other.vmids, vmids)
  }

  function SharedAmong(named: seq<int>, vmids: seq<int>): (r: seq<int>)
    ensures forall v :: v in r <==> v in named && v in vmids
  {
    if named == [] then []
    else (if named[0] in vmids then [named[0]] else []) + SharedAmong(named[1..], vmids)
  }

  predicate Opposite(a: Kind, b: Kind) {
    (a == KeepApart && b == KeepTogether) || (a == KeepTogether && b == KeepApart)
  }

  predicate ContradictedBy(kind: Kind, vmids: seq<int>, other: Rule) {
    Opposite(kind, other.kind) && other.enabled && |SharedGuests(other, vmids)| >= 2
  }

  /** The name of the first rule that the new one contradicts. */
  function Contradicts(kind: Kind, vmids: seq<int>, others: seq<Rule>): (r: Option<string>)
    ensures r.None? <==> forall other :: other in others ==> !ContradictedBy(kind, vmids, other)
    ensures r.Some? ==> exists other :: other in others && ContradictedBy(kind, vmids, other) && other.name == r.value
  {
    if others == [] then None
    else if ContradictedBy(kind, vmids, others[0]) then Some(others[0].name)
    else
      var r := Contradicts(kind, vmids, others[1..]);
      assert r.Some? ==>
        exists other :: other in others[1..] && ContradictedBy(kind, vmids, other) && other.name == r.value;
      r
  }

  /** There is a way to run every guest of both rules that meets both. */
  ghost predicate Compatible(a: Rule, b: Rule) {
    exists positions: Positions ::
      && (forall v :: v in a.vmids || v in b.vmids ==> v in positions)
      && Holds(a, positions) && Holds(b, positions)
  }

  /** A node name for each number, no two the same. */
  function Named(n: nat): (s: string)
    ensures |s| == n
  {
    if n == 0 then "" else "x" + Named(n - 1)
  }

  /** Kept-together guests on one node, each other guest on its own. */
  function Spread(apart: seq<int>, together: seq<int>): (r: Positions)
    ensures forall v :: v in r <==> v in apart || v in together
    ensures forall v :: v in together ==> r[v] == Named(0)
    ensures forall v :: v in apart && v !in together ==> 0 < |r[v]| <= |apart|
  {
    if apart == [] then map v | v in together :: Named(0)
    else
      var rest := Spread(apart[1..], together);
      if apart[0] in rest then rest else rest[apart[0] := Named(|apart|)]
  }

  lemma {:induction false} SpreadApart(apart: seq<int>, together: seq<int>, v: int, w: int)
    requires Distinct(apart) && v in apart && w in apart && v != w && !(v in together && w in together)
    ensures Spread(apart, together)[v] != Spread(apart, together)[w]
  {
    var rest := Spread(apart[1..], together);
    assert forall u :: u in apart <==> u == apart[0] || u in apart[1..];
    assert apart[0] !in apart[1..];
    if v != apart[0] && w != apart[0] {
      SpreadApart(apart[1..], together, v, w);
    }
  }

  lemma {:induction false} TwoShared(named: seq<int>, vmids: seq<int>)
    requires Distinct(named)
    ensures |SharedAmong(named, vmids)| >= 1 <==> exists v :: v in named && v in vmids
    ensures |SharedAmong(named, vmids)| >= 2
      <==> exists v, w :: v in named && v in vmids && w in named && w in vmids && v != w
  {
    if named != [] {
      TwoShared(named[1..], vmids);
      assert forall u :: u in named <==> u == named[0] || u in named[1..];
      assert named[0] !in named[1..];
    }
  }

  lemma SharingBreaks(apart: Rule, together: Rule, positions: Positions, v: int, w: int)
    requires apart.kind == KeepApart && together.kind == KeepTogether && v != w
    requires v in apart.vmids && w in apart.vmids && v in together.vmids && w in together.vmids
    requires v in positions && w in positions
    ensures !Holds(apart, positions) || !Holds(together, positions)
  {
    var i :| 0 <= i < |apart.vmids| && apart.vmids[i] == v;
    var j :| 0 <= j < |apart.vmids| && apart.vmids[j] == w;
    if i < j {
      assert positions[apart.vmids[i]] == positions[apart.vmids[j]] || !Holds(together, positions);
    } else {
      assert positions[apart.vmids[j]] == positions[apart.vmids[i]] || !Holds(together, positions);
    }
  }

  lemma SpreadHolds(apart: Rule, together: Rule)
    requires apart.kind == KeepApart && together.kind == KeepTogether && Distinct(apart.vmids)
    requires forall v, w ::
      v in apart.vmids && w in apart.vmids && v in together.vmids && w in together.vmids ==> v == w
    ensures var positions := Spread(apart.vmids, together.vmids);
            Holds(apart, positions) && Holds(together, positions)
  {
    var positions := Spread(apart.vmids, together.vmids);
    forall i, j | 0 <= i < j < |apart.vmids| ensures positions[apart.vmids[i]] != positions[apart.vmids[j]] {
      SpreadApart(apart.vmids, together.vmids, apart.vmids[i], apart.vmids[j]);
    }
  }

  /** A node of its own for each guest. */
  function Own(v: int): (s: string)
    ensures |s| == if v >= 0 then 2 * v else -2 * v - 1
  {
    Named(if v >= 0 then 2 * v else -2 * v - 1)
  }

  /** Two rules to keep apart, or two to keep together, can always both be met. */
  lemma AlikeAreCompatible(a: Rule, b: Rule)
    requires Distinct(a.vmids) && Distinct(b.vmids)
    requires a.kind == b.kind && (a.kind == KeepApart || a.kind == KeepTogether)
    ensures Compatible(a, b)
  {
    var all := (set v | v in a.vmids) + set v | v in b.vmids;
    var positions: Positions := map v | v in all :: if a.kind == KeepApart then Own(v) else Named(0);
    if a.kind == KeepApart {
      EachOnItsOwn(a, positions);
      EachOnItsOwn(b, positions);
    }
    assert Holds(a, positions) && Holds(b, positions);
  }

  lemma EachOnItsOwn(rule: Rule, positions: Positions)
    requires rule.kind == KeepApart && Distinct(rule.vmids)
    requires forall v :: v in positions ==> positions[v] == Own(v)
    ensures Holds(rule, positions)
  {
    forall i, j | 0 <= i < j < |rule.vmids| && rule.vmids[i] in positions && rule.vmids[j] in positions
      ensures positions[rule.vmids[i]] != positions[rule.vmids[j]]
    {
      assert |Own(rule.vmids[i])| != |Own(rule.vmids[j])|;
    }
  }

  /**
   * Of two rules that keep guests apart or together, one is reported as contradicting the other exactly when no
   * placement that runs all their guests meets both. With a preference none is, nor with a disabled rule.
   */
  lemma ContradictedIffIncompatible(rule: Rule, other: Rule)
    requires Distinct(rule.vmids) && Distinct(other.vmids)
    ensures other.enabled && rule.kind != PreferNodes && other.kind != PreferNodes ==>
      (ContradictedBy(rule.kind, rule.vmids, other) <==> !Compatible(rule, other))
    ensures !other.enabled || rule.kind == PreferNodes || other.kind == PreferNodes ==>
      !ContradictedBy(rule.kind, rule.vmids, other)
  {
    if rule.kind == other.kind {
      if rule.kind != PreferNodes {
        AlikeAreCompatible(rule, other);
      }
    } else if other.enabled && rule.kind != PreferNodes && other.kind != PreferNodes {
      OppositeIffIncompatible(rule, other);
    }
  }

  lemma OppositeIffIncompatible(rule: Rule, other: Rule)
    requires Distinct(rule.vmids) && Distinct(other.vmids) && other.enabled && Opposite(rule.kind, other.kind)
    ensures ContradictedBy(rule.kind, rule.vmids, other) <==> !Compatible(rule, other)
  {
    TwoShared(other.vmids, rule.vmids);
    var apart, together := if rule.kind == KeepApart then rule else other,
      if rule.kind == KeepApart then other else rule;
    if ContradictedBy(rule.kind, rule.vmids, other) {
      var v, w :| v in other.vmids && v in rule.vmids && w in other.vmids && w in rule.vmids && v != w;
      forall positions: Positions | v in positions && w in positions
        ensures !Holds(rule, positions) || !Holds(other, positions)
      {
        SharingBreaks(apart, together, positions, v, w);
      }
    } else {
      SpreadHolds(apart, together);
    }
  }
}
