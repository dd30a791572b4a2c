/** Shared vocabulary: failure datatypes, insertion-ordered maps, and a stable sort. */
module Prelude {

  datatype Option<+T> = None | Some(value: T)

  datatype Result<+T, +E> = Ok(value: T) | Err(error: E)

  ghost predicate Distinct<T>(s: seq<T>) {
    forall i, j :: 0 <= i < j < |s| ==> s[i] != s[j]
  }

  function Digit(n: nat): char
    requires n < 10
  {
    '0' + n as char
  }

  /** A number in decimal, as short as can be. */
  function Decimal(n: nat): string {
    if n < 10 then [Digit(n)] else Decimal(n / 10) + [Digit(n % 10)]
  }

  /** A map that remembers the order in which its keys were first set. */
  datatype OrderedMap<V> = OrderedMap(keys: seq<string>, vals: map<string, V>) {

    ghost predicate Valid() {
      forall k :: k in keys <==> k in vals
    }

    function GetOr(k: string, default: V): V {
      if k in vals then vals[k] else default
    }

    function Set(k: string, v: V): (r: OrderedMap<V>)
      ensures Valid() ==> r.Valid()
      ensures r.vals == vals[k := v]
      ensures keys <= r.keys
    {
      OrderedMap(if k in vals then keys else keys + [k], vals[k := v])
    }
  }

  /** The ordering a comparison function of `sort` must be for its result to be sorted. */
  ghost predicate TotalPreorder<T(!new)>(leq: (T, T) -> bool) {
    && (forall x, y :: leq(x, y) || leq(y, x))
    && (forall x, y, z :: leq(x, y) && leq(y, z) ==> leq(x, z))
  }

  ghost predicate SortedBy<T>(s: seq<T>, leq: (T, T) -> bool) {
    forall i, j :: 0 <= i < j < |s| ==> leq(s[i], s[j])
  }

  function Insert<T>(x: T, s: seq<T>, leq: (T, T) -> bool): (r: seq<T>)
    ensures multiset(r) == multiset([x]) + multiset(s)
  {
    if s == [] || leq(x, s[0]) then [x] + s
    else
      assert s == [s[0]] + s[1..];
      [s[0]] + Insert(x, s[1..], leq)
  }

  /** A stable sort: elements that compare equal keep their order. */
  function StableSort<T>(s: seq<T>, leq: (T, T) -> bool): (r: seq<T>)
    ensures multiset(r) == multiset(s)
  {
    if s == [] then []
    else
      assert s == [s[0]] + s[1..];
      Insert(s[0], StableSort(s[1..], leq), leq)
  }

  lemma {:induction false} InsertSorts<T(!new)>(x: T, s: seq<T>, leq: (T, T) -> bool)
    requires TotalPreorder(leq) && SortedBy(s, leq)
    ensures SortedBy(Insert(x, s, leq), leq)
  {
    if s == [] || leq(x, s[0]) {
    } else {
      InsertSorts(x, s[1..], leq);
      var t := Insert(x, s[1..], leq);
      forall j | 0 <= j < |t| ensures leq(s[0], t[j]) {
        assert t[j] in multiset(t);
        assert t[j] == x || t[j] in s[1..];
      }
    }
  }

  lemma {:induction false} StableSortSorts<T(!new)>(s: seq<T>, leq: (T, T) -> bool)
    requires TotalPreorder(leq)
    ensures SortedBy(StableSort(s, leq), leq)
  {
    if s != [] {
      StableSortSorts(s[1..], leq);
      InsertSorts(s[0], StableSort(s[1..], leq), leq);
    }
  }

  /** Sorting neither adds nor loses an element. */
  lemma StableSortElements<T>(s: seq<T>, leq: (T, T) -> bool)
    ensures forall x :: x in StableSort(s, leq) <==> x in s
    ensures |StableSort(s, leq)| == |s|
  {
    var r := StableSort(s, leq);
    assert forall x :: x in r <==> x in multiset(r);
    assert forall x :: x in s <==> x in multiset(s);
    assert |multiset(r)| == |r| && |multiset(s)| == |s|;
  }

  function Filter<T>(s: seq<T>, p: T -> bool): seq<T> {
    if s == [] then [] else if p(s[0]) then [s[0]] + Filter(s[1..], p) else Filter(s[1..], p)
  }

  lemma {:induction false} FilterElement<T>(s: seq<T>, p: T -> bool, x: T)
    ensures x in Filter(s, p) <==> x in s && p(x)
  {
    if s != [] {
      FilterElement(s[1..], p, x);
    }
  }

  lemma FilterFirst<T>(x: T, s: seq<T>, p: T -> bool)
    ensures Filter([x] + s, p) == if p(x) then [x] + Filter(s, p) else Filter(s, p)
  {
    assert ([x] + s)[1..] == s;
  }

  lemma {:induction false} FilterConcat<T>(s: seq<T>, t: seq<T>, p: T -> bool)
    ensures Filter(s + t, p) == Filter(s, p) + Filter(t, p)
  {
    if s == [] {
      assert s + t == t;
    } else {
      FilterConcat(s[1..], t, p);
      assert (s + t)[1..] == s[1..] + t;
    }
  }

  lemma {:induction false} InsertKeepsOrder<T>(x: T, s: seq<T>, leq: (T, T) -> bool, p: T -> bool)
    requires p(x) ==> forall k :: 0 <= k < |s| && p(s[k]) ==> leq(x, s[k])
    ensures Filter(Insert(x, s, leq), p) == if p(x) then [x] + Filter(s, p) else Filter(s, p)
  {
    if s == [] || leq(x, s[0]) {
      FilterFirst(x, s, p);
    } else {
      InsertKeepsOrder(x, s[1..], leq, p);
      FilterFirst(s[0], Insert(x, s[1..], leq), p);
    }
  }

  lemma {:induction false} FilterAll<T>(s: seq<T>, p: T -> bool)
    requires forall k :: 0 <= k < |s| ==> p(s[k])
    ensures Filter(s, p) == s
  {
    if s != [] {
      FilterAll(s[1..], p);
    }
  }

  /** The elements `p` picks all compare equal. */
  ghost predicate Level<T>(s: seq<T>, leq: (T, T) -> bool, p: T -> bool) {
    forall i, j :: 0 <= i < |s| && 0 <= j < |s| && p(s[i]) && p(s[j]) ==> leq(s[i], s[j])
  }

  /** Sorting leaves elements that compare equal in their order. */
  lemma {:induction false} StableSortKeepsOrder<T>(s: seq<T>, leq: (T, T) -> bool, p: T -> bool)
    requires Level(s, leq, p)
    ensures Filter(StableSort(s, leq), p) == Filter(s, p)
  {
    if s != [] {
      var t := StableSort(s[1..], leq);
      StableSortKeepsOrder(s[1..], leq, p);
      if p(s[0]) {
        forall k | 0 <= k < |t| && p(t[k]) ensures leq(s[0], t[k]) {
          assert t[k] in multiset(t);
          assert t[k] in s[1..];
          var j :| 0 <= j < |s| - 1 && s[1..][j] == t[k];
          assert s[j + 1] == t[k];
        }
      }
      InsertKeepsOrder(s[0], t, leq, p);
    }
  }

  /** Place `i` is that of the least element `p` picks, and of the first of its equals. */
  ghost predicate IsLeast<T>(s: seq<T>, leq: (T, T) -> bool, p: T -> bool, i: nat) {
    && i < |s| && p(s[i])
    && (forall j :: 0 <= j < |s| && p(s[j]) ==> leq(s[i], s[j]))
    && (forall j :: 0 <= j < i && p(s[j]) ==> !leq(s[j], s[i]))
  }

  lemma {:induction false} InsertLeast<T(!new)>(x: T, s: seq<T>, leq: (T, T) -> bool, p: T -> bool)
    requires TotalPreorder(leq) && SortedBy(s, leq)
    ensures var picked, more := Filter(s, p), Filter(Insert(x, s, leq), p);
            if !p(x) then more == picked
            else more != [] && more[0] == if picked == [] || leq(x, picked[0]) then x else picked[0]
  {
    if s == [] || leq(x, s[0]) {
      FilterFirst(x, s, p);
      if Filter(s, p) != [] {
        FilterElement(s, p, Filter(s, p)[0]);
      }
    } else {
      InsertLeast(x, s[1..], leq, p);
      FilterFirst(s[0], Insert(x, s[1..], leq), p);
    }
  }

  ghost predicate SomePicked<T>(s: seq<T>, p: T -> bool) {
    exists k :: 0 <= k < |s| && p(s[k])
  }

  /** The first of those `p` picks from the sorted elements is the least there is, the first of its equals. */
  lemma {:induction false} FirstIsLeast<T(!new)>(s: seq<T>, leq: (T, T) -> bool, p: T -> bool) returns (i: nat)
    requires TotalPreorder(leq) && SomePicked(s, p)
    ensures Filter(StableSort(s, leq), p) != []
    ensures IsLeast(s, leq, p, i) && s[i] == Filter(StableSort(s, leq), p)[0]
  {
    SortedFirst(s, leq, p);
    if SomePicked(s[1..], p) {
      var j := FirstIsLeast(s[1..], leq, p);
      i := if p(s[0]) && leq(s[0], s[1..][j]) then 0 else j + 1;
      LeastOfMore(s, leq, p, j, i);
    } else {
      NoneSorted(s[1..], leq, p);
      LeastAlone(s, leq, p);
      i := 0;
    }
  }

  lemma SortedFirst<T(!new)>(s: seq<T>, leq: (T, T) -> bool, p: T -> bool)
    requires TotalPreorder(leq) && s != []
    ensures var picked, more := Filter(StableSort(s[1..], leq), p), Filter(StableSort(s, leq), p);
            if !p(s[0]) then more == picked
            else more != [] && more[0] == if picked == [] || leq(s[0], picked[0]) then s[0] else picked[0]
  {
    StableSortSorts(s[1..], leq);
    InsertLeast(s[0], StableSort(s[1..], leq), leq, p);
  }

  lemma LeastAlone<T(!new)>(s: seq<T>, leq: (T, T) -> bool, p: T -> bool)
    requires TotalPreorder(leq) && SomePicked(s, p) && !SomePicked(s[1..], p)
    ensures p(s[0]) && IsLeast(s, leq, p, 0)
  {
    assert forall k :: 1 <= k < |s| ==> s[k] == s[1..][k - 1];
  }

  lemma LeastOfMore<T(!new)>(s: seq<T>, leq: (T, T) -> bool, p: T -> bool, j: nat, i: nat)
    requires TotalPreorder(leq) && s != [] && IsLeast(s[1..], leq, p, j)
    requires i == if p(s[0]) && leq(s[0], s[1..][j]) then 0 else j + 1
    ensures IsLeast(s, leq, p, i)
  {
    assert forall k :: 1 <= k < |s| ==> s[k] == s[1..][k - 1];
  }

  lemma NoneSorted<T>(s: seq<T>, leq: (T, T) -> bool, p: T -> bool)
    requires !SomePicked(s, p)
    ensures Filter(StableSort(s, leq), p) == []
  {
    StableSortElements(s, leq);
    var picked := Filter(StableSort(s, leq), p);
    if picked != [] {
      FilterElement(StableSort(s, leq), p, picked[0]);
    }
  }

  function Both<T>(q: T -> bool, p: T -> bool): T -> bool {
    x => q(x) && p(x)
  }

  /** The least of a picked part is the least of the whole among those picked. */
  lemma {:induction false} LeastOfPicked<T>(s: seq<T>, q: T -> bool, leq: (T, T) -> bool, p: T -> bool, i: nat)
    returns (k: nat)
    requires IsLeast(Filter(s, q), leq, p, i)
    ensures IsLeast(s, leq, Both(q, p), k) && s[k] == Filter(s, q)[i]
  {
    k := PlaceOfPicked(s, q, i);
    forall j | 0 <= j < |s| && q(s[j]) && p(s[j]) ensures leq(s[k], s[j]) && (j < k ==> !leq(s[j], s[k])) {
      var n := PickedFrom(s, q, j);
      if j < k {
        MorePicked(s, q, j, k);
      }
    }
  }

  /** How many are picked before a place. */
  lemma PickedFrom<T>(s: seq<T>, q: T -> bool, j: nat) returns (n: nat)
    requires j < |s| && q(s[j])
    ensures n == |Filter(s[..j], q)| < |Filter(s, q)| && Filter(s, q)[n] == s[j]
  {
    n := |Filter(s[..j], q)|;
    assert s == s[..j] + s[j..];
    FilterConcat(s[..j], s[j..], q);
  }

  lemma {:induction false} PlaceOfPicked<T>(s: seq<T>, q: T -> bool, i: nat) returns (k: nat)
    requires i < |Filter(s, q)|
    ensures k < |s| && q(s[k]) && s[k] == Filter(s, q)[i] && |Filter(s[..k], q)| == i
  {
    if q(s[0]) && i == 0 {
      k := 0;
    } else {
      var j := PlaceOfPicked(s[1..], q, if q(s[0]) then i - 1 else i);
      k := j + 1;
      assert s[..k] == [s[0]] + s[1..][..j];
      FilterFirst(s[0], s[1..][..j], q);
    }
  }

  lemma MorePicked<T>(s: seq<T>, q: T -> bool, j: nat, k: nat)
    requires j < k <= |s| && q(s[j])
    ensures |Filter(s[..j], q)| < |Filter(s[..k], q)|
  {
    assert s[..k] == s[..j] + s[j..k];
    FilterConcat(s[..j], s[j..k], q);
    assert s[j..k][0] == s[j];
  }

  lemma StableSortDistinct<T>(s: seq<T>, leq: (T, T) -> bool)
    requires Distinct(s)
    ensures Distinct(StableSort(s, leq))
  {
    MultiplicityOfDistinct(s);
    DistinctByMultiplicity(StableSort(s, leq));
  }

  lemma {:induction false} DistinctByMultiplicity<T>(s: seq<T>)
    requires forall x :: multiset(s)[x] <= 1
    ensures Distinct(s)
  {
    if s != [] {
      assert s == [s[0]] + s[1..];
      assert multiset(s) == multiset{s[0]} + multiset(s[1..]);
      forall x ensures multiset(s[1..])[x] <= 1 {
        assert multiset(s)[x] <= 1;
      }
      DistinctByMultiplicity(s[1..]);
      assert multiset(s)[s[0]] <= 1;
      assert s[0] !in s[1..] by { assert s[0] !in multiset(s[1..]); }
    }
  }

  lemma {:induction false} MultiplicityOfDistinct<T>(s: seq<T>)
    requires Distinct(s)
    ensures forall x :: multiset(s)[x] <= 1
  {
    if s != [] {
      assert s == [s[0]] + s[1..];
      MultiplicityOfDistinct(s[1..]);
      assert s[0] !in s[1..];
    }
  }

  /** How many elements a sequence without repetitions has, as a set. */
  lemma {:induction false} DistinctCardinality<T>(s: seq<T>)
    requires Distinct(s)
    ensures |set x | x in s| == |s|
  {
    if s != [] {
      DistinctCardinality(s[1..]);
      assert (set x | x in s) == {s[0]} + (set x | x in s[1..]);
    }
  }

  lemma {:induction false} SubsetSize<T>(a: set<T>, b: set<T>)
    requires a <= b
    ensures |a| <= |b|
  {
    if a != {} {
      var x :| x in a;
      SubsetSize(a - {x}, b - {x});
    }
  }
}
