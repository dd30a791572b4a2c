/** Rolling updates: node after node, the cluster never short of quorum (packages/shared/src/rolling.ts). */
module Rolling {
  import opened Prelude

  datatype Refusal = NoNodes | WouldLoseQuorum

  /** How many voting nodes may be unavailable at once. */
  function MaxUnavailableNodes(votingNodes: nat): nat {
    if votingNodes <= 1 then 1 else (votingNodes - 1) / 2
  }

  /** So many voters may be down, and no more, that those up are a majority of all; one alone may always be. */
  lemma MaxUnavailableIs(votingNodes: nat, down: nat)
    ensures votingNodes >= 2 ==>
      (down <= MaxUnavailableNodes(votingNodes) <==> votingNodes - down >= votingNodes / 2 + 1)
    ensures votingNodes <= 1 ==> (down <= MaxUnavailableNodes(votingNodes) <==> down <= 1)
  {
  }

  /** Each node once, where it is named first. */
  function Deduplicated(nodes: seq<string>): (r: seq<string>)
    ensures forall x :: x in r <==> x in nodes
  {
    if nodes == [] then []
    else
      var init, last := nodes[..|nodes| - 1], nodes[|nodes| - 1];
      assert nodes == init + [last];
      if last in init then Deduplicated(init) else Deduplicated(init) + [last]
  }

  lemma {:induction false} DeduplicatedIsDistinct(nodes: seq<string>)
    ensures Distinct(Deduplicated(nodes))
  {
    if nodes != [] {
      DeduplicatedIsDistinct(nodes[..|nodes| - 1]);
    }
  }

  /** Going through the nodes one meets `a` before `b`. */
  ghost predicate NamedBefore(nodes: seq<string>, a: string, b: string) {
    exists i :: 0 <= i < |nodes| && nodes[i] == a && b !in nodes[..i + 1]
  }

  /** In the order in which they are first named. */
  lemma {:induction false} DeduplicatedInOrder(nodes: seq<string>, i: nat, j: nat)
    requires i < j < |Deduplicated(nodes)|
    ensures NamedBefore(nodes, Deduplicated(nodes)[i], Deduplicated(nodes)[j])
  {
    var init, last := nodes[..|nodes| - 1], nodes[|nodes| - 1];
    var rest := Deduplicated(init);
    if j < |rest| {
      DeduplicatedInOrder(init, i, j);
      var k :| 0 <= k < |init| && init[k] == rest[i] && rest[j] !in init[..k + 1];
      assert nodes[k] == rest[i] && nodes[..k + 1] == init[..k + 1];
    } else {
      assert rest[i] in rest;
      var k :| 0 <= k < |init| && init[k] == rest[i];
      assert nodes[k] == rest[i] && nodes[..k + 1] == init[..k + 1];
    }
  }

  function Flatten(groups: seq<seq<string>>): seq<string> {
    if groups == [] then [] else Flatten(groups[..|groups| - 1]) + groups[|groups| - 1]
  }

  function Allowed(votingNodes: nat, alreadyDown: nat): int {
    if votingNodes <= 1 then 1 else MaxUnavailableNodes(votingNodes) - alreadyDown
  }

  function GroupSize(concurrency: real, allowed: int): (r: int)
    ensures r >= 1
  {
    var wanted := if concurrency.Floor < allowed then concurrency.Floor else allowed;
    if wanted < 1 then 1 else wanted
  }

  /** The nodes in order, cut into groups: all of one size but the last, which may be smaller. */
  ghost predicate Partition(groups: seq<seq<string>>, nodes: seq<string>, size: int) {
    && Flatten(groups) == nodes
    && (forall k :: 0 <= k < |groups| ==> 1 <= |groups[k]| <= size)
    && (forall k :: 0 <= k < |groups| - 1 ==> |groups[k]| == size)
  }

  /** No group has more nodes than may be worked on at once, but for one node alone. */
  ghost predicate WithinWhatIsAsked(groups: seq<seq<string>>, concurrency: real) {
    forall k :: 0 <= k < |groups| ==> |groups[k]| == 1 || |groups[k]| as real <= concurrency
  }

  lemma SizeIsWithinWhatIsAsked(groups: seq<seq<string>>, nodes: seq<string>, concurrency: real, allowed: int)
    requires Partition(groups, nodes, GroupSize(concurrency, allowed))
    ensures WithinWhatIsAsked(groups, concurrency)
  {
  }

  lemma FlattenMore(groups: seq<seq<string>>, group: seq<string>)
    ensures Flatten(groups + [group]) == Flatten(groups) + group
  {
    assert (groups + [group])[..|groups|] == groups;
  }

  method PlanRollingGroups(nodes: seq<string>, votingNodes: nat, concurrency: real, alreadyDown: nat)
      returns (r: Result<seq<seq<string>>, Refusal>)
    ensures r == Err(NoNodes) <==> nodes == []
    ensures r == Err(WouldLoseQuorum) <==> nodes != [] && Allowed(votingNodes, alreadyDown) < 1
    ensures r.Ok? ==> Distinct(Flatten(r.value))
    ensures r.Ok? ==> WithinWhatIsAsked(r.value, concurrency)
    ensures votingNodes <= 1 && nodes != [] ==> r.Ok?
    ensures r.Ok? && votingNodes <= 1 ==> forall k :: 0 <= k < |r.value| ==> |r.value[k]| == 1
    ensures r.Ok? ==> Partition(r.value, Deduplicated(nodes), GroupSize(concurrency, Allowed(votingNodes, alreadyDown)))
  {
    var unique := Deduplicated(nodes);
    assert nodes != [] ==> nodes[0] in unique;
    if unique == [] {
      return Err(NoNodes);
    }
    var allowed := Allowed(votingNodes, alreadyDown);
    if allowed < 1 {
      return Err(WouldLoseQuorum);
    }
    var size := GroupSize(concurrency, allowed);
    var groups: seq<seq<string>> := [];
    var i := 0;
    while i < |unique|
      invariant 0 <= i
      invariant i < |unique| ==> Flatten(groups) == unique[..i] && forall k :: 0 <= k < |groups| ==> |groups[k]| == size
      invariant i >= |unique| ==> Partition(groups, unique, size)
      decreases |unique| - i
    {
      var end := if i + size < |unique| then i + size else |unique|;
      FlattenMore(groups, unique[i..end]);
      assert unique[..end] == unique[..i] + unique[i..end];
      assert unique[..|unique|] == unique;
      groups := groups + [unique[i..end]];
      i := i + size;
    }
    DeduplicatedIsDistinct(nodes);
    SizeIsWithinWhatIsAsked(groups, unique, concurrency, allowed);
    r := Ok(groups);
  }

  // ---------------------------------------------------------------------------
  // Quorum
  // ---------------------------------------------------------------------------

  /** A majority of the voters is up. */
  predicate Quorate(voters: set<string>, down: set<string>) {
    |voters - down| >= |voters| / 2 + 1
  }

  lemma UpAtLeast(voters: set<string>, down: set<string>)
    ensures |voters - down| >= |voters| - |down|
  {
    assert voters == (voters - down) + (voters * down);
    SubsetSize(voters * down, down);
  }

  lemma ElementsAtMost(s: seq<string>)
    ensures |set x | x in s| <= |s|
  {
    if s != [] {
      var init, last := s[..|s| - 1], s[|s| - 1];
      ElementsAtMost(init);
      assert s == init + [last];
      assert (set x | x in s) == (set x | x in init) + {last};
    }
  }

  /** While any group is worked on, whichever of its nodes are down with those already down, there is quorum. */
  lemma QuorumThroughout(voters: set<string>, down: set<string>, groups: seq<seq<string>>, nodes: seq<string>,
                         concurrency: real, k: nat, now: set<string>)
    requires |voters| >= 2 && Allowed(|voters|, |down|) >= 1
    requires Partition(groups, nodes, GroupSize(concurrency, Allowed(|voters|, |down|)))
    requires k < |groups| && now <= down + set x | x in groups[k]
    ensures Quorate(voters, now)
  {
    var group := set x | x in groups[k];
    ElementsAtMost(groups[k]);
    UpAtLeast(voters, now);
    SubsetSize(now, down + group);
    assert |down + group| <= |down| + |group| by {
      UpAtLeast(down + group, group);
      SubsetSize((down + group) - group, down);
    }
  }

  /** A group kept smaller than asked for could not be one larger. */
  lemma OneMoreBreaksQuorum(voters: set<string>, down: set<string>, concurrency: real, more: set<string>)
    requires |voters| >= 2 && down <= voters && more <= voters - down
    requires GroupSize(concurrency, Allowed(|voters|, |down|)) < concurrency.Floor
    requires |more| == GroupSize(concurrency, Allowed(|voters|, |down|)) + 1
    ensures !Quorate(voters, down + more)
  {
    assert |down + more| == |down| + |more|;
    assert |voters - (down + more)| == |voters| - |down + more|;
  }

  /** A plan is refused for quorum exactly when taking any one node down would lose it. */
  lemma RefusedIffNoneMayGoDown(voters: set<string>, down: set<string>, node: string)
    requires |voters| >= 2 && down <= voters && node in voters - down
    ensures Allowed(|voters|, |down|) < 1 <==> !Quorate(voters, down + {node})
  {
    assert |voters - (down + {node})| == |voters| - |down| - 1;
  }
}
