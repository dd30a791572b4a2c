/**
 * Generated passwords (packages/shared/src/autoconfig.ts): uniform numbers by rejecting words, one character of
 * each class, and a shuffle that reaches every order in exactly one way.
 */
module Passwords {
  import opened Prelude
  import Calendar

  const UPPER := "ABCDEFGHJKLMNPQRSTUVWXYZ"
  const LOWER := "abcdefghijkmnopqrstuvwxyz"
  const DIGITS := "23456789"
  const SYMBOLS := "-_.+="

  // ---------------------------------------------------------------------------
  // What makes a password good enough
  // ---------------------------------------------------------------------------

  datatype PasswordProblem = TooShort | TooLong | TooSimple

  predicate IsUpper(c: char) { 'A' <= c <= 'Z' }

  predicate IsLower(c: char) { 'a' <= c <= 'z' }

  predicate IsDigit(c: char) { '0' <= c <= '9' }

  predicate IsSymbol(c: char) { !IsUpper(c) && !IsLower(c) && !IsDigit(c) }

  predicate Contains(p: char -> bool, s: string) {
    exists c :: c in s && p(c)
  }

  function Classes(s: string): nat {
    (if Contains(IsUpper, s) then 1 else 0) + (if Contains(IsLower, s) then 1 else 0)
    + (if Contains(IsDigit, s) then 1 else 0) + (if Contains(IsSymbol, s) then 1 else 0)
  }

  function ProblemWith(password: string): Option<PasswordProblem> {
    if |password| < 12 then Some(TooShort)
    else if |password| > 128 then Some(TooLong)
    else if Classes(password) >= 3 then None
    else Some(TooSimple)
  }

  /** Which kind of character it is: a capital, a small letter, a digit or anything else. */
  function KindOf(c: char): nat {
    if 'A' <= c <= 'Z' then 0 else if 'a' <= c <= 'z' then 1 else if '0' <= c <= '9' then 2 else 3
  }

  ghost predicate HasKind(s: string, kind: nat) {
    exists k :: 0 <= k < |s| && KindOf(s[k]) == kind
  }

  lemma ContainsKind(p: char -> bool, s: string, kind: nat)
    requires forall c :: p(c) <==> KindOf(c) == kind
    ensures Contains(p, s) <==> HasKind(s, kind)
  {
    if c :| c in s && p(c) {
      var k :| 0 <= k < |s| && s[k] == c;
    }
    if k :| 0 <= k < |s| && KindOf(s[k]) == kind {
      assert s[k] in s && p(s[k]);
    }
  }

  /** A password will do exactly when it has twelve to 128 characters and lacks no two of the four kinds. */
  lemma GoodIff(password: string)
    ensures ProblemWith(password) == None <==>
      && 12 <= |password| <= 128
      && forall a, b :: 0 <= a < b < 4 ==> HasKind(password, a) || HasKind(password, b)
  {
    ContainsKind(IsUpper, password, 0);
    ContainsKind(IsLower, password, 1);
    ContainsKind(IsDigit, password, 2);
    ContainsKind(IsSymbol, password, 3);
  }

  // ---------------------------------------------------------------------------
  // Uniform numbers
  // ---------------------------------------------------------------------------

  /** The random words, in the order they are drawn: 32 bits each, and never for ever in the upper half only. */
  ghost predicate Words(rand: nat -> nat) {
    && (forall k :: rand(k) < 0x1_0000_0000)
    && (forall k :: AcceptedFrom(rand, k))
  }

  ghost predicate AcceptedFrom(rand: nat -> nat, k: nat) {
    exists m :: m >= k && rand(m) < 0x8000_0000
  }

  /** Words from here on are rejected, so that the rest divides evenly. */
  function Limit(max: nat): nat
    requires 0 < max
  {
    0x1_0000_0000 - 0x1_0000_0000 % max
  }

  lemma LimitInUpperHalf(max: nat)
    requires 0 < max < 0x1_0000_0000
    ensures 0x8000_0000 <= Limit(max) <= 0x1_0000_0000
  {
    var q, r := 0x1_0000_0000 / max, 0x1_0000_0000 % max;
    assert 0x1_0000_0000 == max * q + r;
    if q == 0 {
      assert false;
    }
    assert max * q >= max by { Product(max, q); }
  }

  lemma Product(a: nat, b: nat)
    requires b >= 1
    ensures a * b >= a
  {
  }

  /** The first word from `at` on that is not rejected. */
  ghost predicate FirstAccepted(rand: nat -> nat, at: nat, max: nat, m: nat)
    requires 0 < max
  {
    && at <= m && rand(m) < Limit(max)
    && forall k :: at <= k < m ==> rand(k) >= Limit(max)
  }

  method Below(rand: nat -> nat, at: nat, max: nat) returns (r: nat, next: nat)
    requires Words(rand) && 0 < max < 0x1_0000_0000
    ensures r < max && next > at && FirstAccepted(rand, at, max, next - 1) && r == rand(next - 1) % max
  {
    LimitInUpperHalf(max);
    assert AcceptedFrom(rand, at);
    ghost var m :| m >= at && rand(m) < 0x8000_0000;
    next := at;
    while true
      invariant at <= next <= m
      invariant forall k :: at <= k < next ==> rand(k) >= Limit(max)
      decreases m - next
    {
      next := next + 1;
      if rand(next - 1) < Limit(max) {
        return rand(next - 1) % max, next;
      }
    }
  }

  /** Of the accepted words, the same number give each result. */
  lemma EachResultEquallyOften(max: nat, r: nat)
    requires r < max < 0x1_0000_0000
    ensures |WordsGiving(Limit(max), max, r)| == 0x1_0000_0000 / max
  {
    var q := 0x1_0000_0000 / max;
    assert Limit(max) == q * max;
    WithRemainder(max, r, q);
  }

  ghost function WordsGiving(bound: nat, max: nat, r: nat): set<nat>
    requires max > 0
  {
    set w: nat | w < bound && w % max == r
  }

  lemma {:induction false} WithRemainder(max: nat, r: nat, q: nat)
    requires r < max
    ensures |WordsGiving(q * max, max, r)| == q
  {
    if q > 0 {
      WithRemainder(max, r, q - 1);
      OneMore((q - 1) * max, max, r, q - 1);
      assert q * max == (q - 1) * max + max;
    }
  }

  /** Of `max` words in a row, exactly one gives the result. */
  lemma OneMore(bound: nat, max: nat, r: nat, q: nat)
    requires r < max && bound == q * max
    ensures |WordsGiving(bound + max, max, r)| == |WordsGiving(bound, max, r)| + 1
  {
    RemainderOf(max, r, q);
    forall w: nat | bound <= w < bound + max && w % max == r ensures w == bound + r {
      RemainderOf(max, w - bound, q);
    }
    assert WordsGiving(bound + max, max, r) == WordsGiving(bound, max, r) + {bound + r};
  }

  lemma RemainderOf(max: nat, r: nat, q: nat)
    requires r < max
    ensures (q * max + r) % max == r
  {
    Calendar.DivisionIsUnique(q * max + r, max, q, r);
  }

  // ---------------------------------------------------------------------------
  // The shuffle
  // ---------------------------------------------------------------------------

  function Swap<T>(s: seq<T>, i: nat, j: nat): (r: seq<T>)
    requires i < |s| && j < |s|
  {
    s[i := s[j]][j := s[i]]
  }

  /** One choice for each position but the first, from the last on: which of the ones up to it to put there. */
  ghost predicate ChoicesFor(n: nat, choices: seq<nat>) {
    && |choices| == (if n == 0 then 0 else n - 1)
    && forall k :: 0 <= k < |choices| ==> choices[k] < n - k
  }

  ghost function Shuffled<T>(s: seq<T>, choices: seq<nat>): (r: seq<T>)
    requires ChoicesFor(|s|, choices)
    ensures |r| == |s|
    decreases |s|
  {
    if |s| <= 1 then s
    else
      var last := |s| - 1;
      var t := Swap(s, last, choices[0]);
      Shuffled(t[..last], choices[1..]) + [t[last]]
  }

  lemma {:induction false} ShuffledKeepsAll<T>(s: seq<T>, choices: seq<nat>)
    requires ChoicesFor(|s|, choices)
    ensures multiset(Shuffled(s, choices)) == multiset(s)
    decreases |s|
  {
    if |s| > 1 {
      ShuffledLast(s, choices);
      ShuffledKeepsAll(Remaining(s, choices[0]), choices[1..]);
      RemainingElements(s, choices[0]);
      InitElements(Shuffled(s, choices));
    }
  }

  /** All but the element at j, the last one in its place. */
  function Remaining<T>(s: seq<T>, j: nat): (r: seq<T>)
    requires j < |s|
    ensures |r| == |s| - 1
  {
    if j == |s| - 1 then s[..j] else s[..|s| - 1][j := s[|s| - 1]]
  }

  /** Swapped to the end, the element at j leaves these. */
  lemma SwappedToEnd<T>(s: seq<T>, j: nat)
    requires j < |s|
    ensures Swap(s, |s| - 1, j) == Remaining(s, j) + [s[j]]
  {
  }

  /** What the last position gets, and what is left to shuffle. */
  lemma ShuffledLast<T>(s: seq<T>, choices: seq<nat>)
    requires |s| > 1 && ChoicesFor(|s|, choices)
    ensures Shuffled(s, choices)[|s| - 1] == s[choices[0]]
    ensures Shuffled(s, choices)[..|s| - 1] == Shuffled(Remaining(s, choices[0]), choices[1..])
  {
    SwappedToEnd(s, choices[0]);
  }

  lemma RemainingDistinct<T>(s: seq<T>, j: nat)
    requires Distinct(s) && j < |s|
    ensures Distinct(Remaining(s, j))
  {
  }

  /** Different choices give different orders. */
  lemma {:induction false} ShuffleIsOneToOne<T>(s: seq<T>, a: seq<nat>, b: seq<nat>)
    requires Distinct(s) && ChoicesFor(|s|, a) && ChoicesFor(|s|, b)
    requires Shuffled(s, a) == Shuffled(s, b)
    ensures a == b
    decreases |s|
  {
    if |s| > 1 {
      ShuffledLast(s, a);
      ShuffledLast(s, b);
      SameFirst(s, a[0], b[0]);
      RemainingDistinct(s, a[0]);
      ShuffleIsOneToOne(Remaining(s, a[0]), a[1..], b[1..]);
      assert a == [a[0]] + a[1..] && b == [b[0]] + b[1..];
    }
  }

  lemma SameFirst<T>(s: seq<T>, i: nat, j: nat)
    requires Distinct(s) && i < |s| && j < |s| && s[i] == s[j]
    ensures i == j
  {
  }

  lemma InitElements<T>(p: seq<T>)
    requires p != []
    ensures multiset(p[..|p| - 1]) == multiset(p) - multiset{p[|p| - 1]}
  {
    assert p == p[..|p| - 1] + [p[|p| - 1]];
  }

  lemma UpdatedElements<T>(s: seq<T>, j: nat, x: T)
    requires j < |s|
    ensures multiset(s[j := x]) == multiset(s) - multiset{s[j]} + multiset{x} && s[j] in multiset(s)
  {
  }

  lemma TakenFromEither<T>(a: multiset<T>, x: T, y: T)
    requires x in a
    ensures a - multiset{x} + multiset{y} == a + multiset{y} - multiset{x}
  {
  }

  lemma RemainingElements<T>(s: seq<T>, j: nat)
    requires j < |s|
    ensures multiset(Remaining(s, j)) == multiset(s) - multiset{s[j]}
  {
    var init, last := s[..|s| - 1], s[|s| - 1];
    if j == |s| - 1 {
      InitElements(s);
    } else {
      UpdatedElements(init, j, last);
      TakenFromEither(multiset(init), s[j], last);
      assert s == init + [last];
    }
  }

  lemma SameSize<T>(s: seq<T>, p: seq<T>)
    requires multiset(p) == multiset(s)
    ensures |p| == |s|
  {
    assert |p| == |multiset(p)| == |multiset(s)| == |s|;
  }

  lemma Somewhere<T>(s: seq<T>, p: seq<T>, k: nat) returns (j: nat)
    requires multiset(p) == multiset(s) && k < |p|
    ensures j < |s| && s[j] == p[k]
  {
    assert p[k] in multiset(s);
    j :| j < |s| && s[j] == p[k];
  }

  lemma ShuffledFrom<T>(s: seq<T>, j: nat, rest: seq<nat>, p: seq<T>)
    requires |p| == |s| > 1 && j < |s| && p[|s| - 1] == s[j] && ChoicesFor(|s| - 1, rest)
    requires Shuffled(Remaining(s, j), rest) == p[..|s| - 1]
    ensures ChoicesFor(|s|, [j] + rest) && Shuffled(s, [j] + rest) == p
  {
    var choices, last := [j] + rest, |s| - 1;
    assert choices[1..] == rest;
    ShuffledLast(s, choices);
    var r := Shuffled(s, choices);
    assert r == r[..last] + [r[last]] && p == p[..last] + [p[last]];
  }

  lemma OneOrder<T>(s: seq<T>, p: seq<T>)
    requires multiset(p) == multiset(s) && |p| == |s| <= 1
    ensures s == p
  {
    if |s| == 1 {
      var j := Somewhere(s, p, 0);
    }
  }

  /** Where the last element of an order is, and that the others are those that remain. */
  lemma FoundLast<T>(s: seq<T>, p: seq<T>) returns (j: nat)
    requires multiset(p) == multiset(s) && |p| == |s| > 0
    ensures j < |s| && s[j] == p[|s| - 1] && multiset(p[..|s| - 1]) == multiset(Remaining(s, j))
  {
    j := Somewhere(s, p, |s| - 1);
    RemainingElements(s, j);
    InitElements(p);
  }

  lemma NoChoices<T>(s: seq<T>, p: seq<T>)
    requires multiset(p) == multiset(s) && |p| == |s| <= 1
    ensures ChoicesFor(|s|, []) && Shuffled(s, []) == p
  {
    OneOrder(s, p);
  }

  /** Every order is given by some choices. */
  lemma {:induction false} ShuffleIsOnto<T>(s: seq<T>, p: seq<T>) returns (choices: seq<nat>)
    requires multiset(p) == multiset(s)
    ensures ChoicesFor(|s|, choices) && Shuffled(s, choices) == p
    decreases |s|
  {
    SameSize(s, p);
    if |s| <= 1 {
      choices := [];
      NoChoices(s, p);
    } else {
      var j := FoundLast(s, p);
      var rest := ShuffleIsOnto(Remaining(s, j), p[..|s| - 1]);
      choices := [j] + rest;
      ShuffledFrom(s, j, rest, p);
    }
  }

  /** Each element is found at its position among all. */
  ghost predicate FoundAt<T>(s: seq<T>, positions: seq<nat>, all: seq<T>) {
    |positions| == |s| && forall i :: 0 <= i < |s| ==> positions[i] < |all| && s[i] == all[positions[i]]
  }

  lemma RemainingFoundAt<T>(s: seq<T>, positions: seq<nat>, all: seq<T>, j: nat)
    requires FoundAt(s, positions, all) && j < |s|
    ensures FoundAt(Remaining(s, j), Remaining<nat>(positions, j), all)
  {
  }

  /** Whatever is shuffled, the choices alone decide which position each element comes from. */
  lemma {:induction false} ShuffleMovesPositions<T>(s: seq<T>, positions: seq<nat>, choices: seq<nat>, all: seq<T>)
    requires FoundAt(s, positions, all) && ChoicesFor(|s|, choices)
    ensures FoundAt(Shuffled(s, choices), Shuffled<nat>(positions, choices), all)
    decreases |s|
  {
    if |s| > 1 {
      ShuffledLast(s, choices);
      ShuffledLast<nat>(positions, choices);
      RemainingFoundAt(s, positions, all, choices[0]);
      ShuffleMovesPositions(Remaining(s, choices[0]), Remaining<nat>(positions, choices[0]), choices[1..], all);
      OneMoreFound(Shuffled(s, choices), Shuffled<nat>(positions, choices), all);
    }
  }

  lemma OneMoreFound<T>(s: seq<T>, positions: seq<nat>, all: seq<T>)
    requires s != [] && |positions| == |s| && FoundAt(s[..|s| - 1], positions[..|s| - 1], all)
    requires positions[|s| - 1] < |all| && s[|s| - 1] == all[positions[|s| - 1]]
    ensures FoundAt(s, positions, all)
  {
    forall i | 0 <= i < |s| ensures positions[i] < |all| && s[i] == all[positions[i]] {
      if i < |s| - 1 {
        assert s[..|s| - 1][i] == s[i] && positions[..|s| - 1][i] == positions[i];
      }
    }
  }

  // ---------------------------------------------------------------------------
  // Several draws
  // ---------------------------------------------------------------------------

  function Init(s: seq<nat>): seq<nat>
    requires s != []
  {
    s[..|s| - 1]
  }

  function Last(s: seq<nat>): nat
    requires s != []
  {
    s[|s| - 1]
  }

  /** Each value is drawn below its bound, from the words that follow those used for the values before it. */
  ghost predicate Drawn(rand: nat -> nat, at: nat, maxes: seq<nat>, values: seq<nat>, next: nat)
    decreases |maxes|
  {
    if maxes == [] || values == [] then maxes == [] && values == [] && next == at
    else
      exists mid: nat ::
        Drawn(rand, at, Init(maxes), Init(values), mid) && OneDrawn(rand, mid, Last(maxes), Last(values), next)
  }

  ghost predicate OneDrawn(rand: nat -> nat, at: nat, max: nat, value: nat, next: nat) {
    max > 0 && next > at && FirstAccepted(rand, at, max, next - 1) && value == rand(next - 1) % max
  }

  lemma DrawnOneMore(rand: nat -> nat, at: nat, maxes: seq<nat>, values: seq<nat>, mid: nat, max: nat, value: nat,
                     next: nat)
    requires Drawn(rand, at, maxes, values, mid) && OneDrawn(rand, mid, max, value, next)
    ensures Drawn(rand, at, maxes + [max], values + [value], next)
  {
    assert Init(maxes + [max]) == maxes && Init(values + [value]) == values;
  }

  lemma FirstIsUnique(rand: nat -> nat, at: nat, max: nat, m: nat, n: nat)
    requires max > 0 && FirstAccepted(rand, at, max, m) && FirstAccepted(rand, at, max, n)
    ensures m == n
  {
  }

  lemma OneDrawnIsDetermined(rand: nat -> nat, at: nat, max: nat, x: nat, y: nat, p: nat, q: nat)
    requires OneDrawn(rand, at, max, x, p) && OneDrawn(rand, at, max, y, q)
    ensures x == y && p == q
  {
    FirstIsUnique(rand, at, max, p - 1, q - 1);
  }

  /** The words decide the values. */
  lemma {:induction false} DrawnIsDetermined(rand: nat -> nat, at: nat, maxes: seq<nat>, a: seq<nat>, b: seq<nat>,
                                             p: nat, q: nat)
    requires Drawn(rand, at, maxes, a, p) && Drawn(rand, at, maxes, b, q)
    ensures a == b && p == q
    decreases |maxes|
  {
    if maxes != [] {
      var p': nat :| Drawn(rand, at, Init(maxes), Init(a), p') && OneDrawn(rand, p', Last(maxes), Last(a), p);
      var q': nat :| Drawn(rand, at, Init(maxes), Init(b), q') && OneDrawn(rand, q', Last(maxes), Last(b), q);
      DrawnIsDetermined(rand, at, Init(maxes), Init(a), Init(b), p', q');
      OneDrawnIsDetermined(rand, p', Last(maxes), Last(a), Last(b), p, q);
      assert a == Init(a) + [Last(a)] && b == Init(b) + [Last(b)];
    }
  }

  // ---------------------------------------------------------------------------
  // Shuffling in place
  // ---------------------------------------------------------------------------

  /** n, n - 1, and so on down to but not including m. */
  function Descending(n: nat, m: nat): (r: seq<nat>)
    requires m <= n
    ensures |r| == n - m
  {
    seq(n - m, k requires 0 <= k < n - m => n - k)
  }

  lemma DescendingOn(n: nat, m: nat)
    requires m < n
    ensures Descending(n, m) == Descending(n, m + 1) + [m + 1]
  {
  }

  /** The choices so far put the elements after i in place; the others shuffle the rest. */
  ghost predicate Halfway<T>(s: seq<T>, choices: seq<nat>, cur: seq<T>, i: nat) {
    && |cur| == |s| && i < |s|
    && forall rest :: ChoicesFor(i + 1, rest) ==> FinishedBy(s, choices, cur, i, rest)
  }

  ghost predicate FinishedBy<T>(s: seq<T>, choices: seq<nat>, cur: seq<T>, i: nat, rest: seq<nat>)
    requires |cur| == |s| && i < |s| && ChoicesFor(i + 1, rest)
  {
    ChoicesFor(|s|, choices + rest) && Shuffled(s, choices + rest) == Shuffled(cur[..i + 1], rest) + cur[i + 1..]
  }

  lemma HalfwayFrom<T>(s: seq<T>)
    requires s != []
    ensures Halfway(s, [], s, |s| - 1)
  {
    forall rest | ChoicesFor(|s|, rest) ensures FinishedBy(s, [], s, |s| - 1, rest) {
      assert [] + rest == rest && s[..|s|] == s;
    }
  }

  lemma HalfwayOn<T>(s: seq<T>, choices: seq<nat>, cur: seq<T>, i: nat, j: nat)
    requires Halfway(s, choices, cur, i) && j <= i && 0 < i
    ensures Halfway(s, choices + [j], Swap(cur, i, j), i - 1)
  {
    var after := Swap(cur, i, j);
    forall rest | ChoicesFor(i, rest) ensures FinishedBy(s, choices + [j], after, i - 1, rest) {
      FinishedOn(s, choices, cur, i, j, rest);
    }
  }

  lemma FinishedOn<T>(s: seq<T>, choices: seq<nat>, cur: seq<T>, i: nat, j: nat, rest: seq<nat>)
    requires Halfway(s, choices, cur, i) && j <= i && 0 < i && ChoicesFor(i, rest)
    ensures FinishedBy(s, choices + [j], Swap(cur, i, j), i - 1, rest)
  {
    var after, more, head := Swap(cur, i, j), [j] + rest, cur[..i + 1];
    assert FinishedBy(s, choices, cur, i, more);
    assert choices + more == choices + [j] + rest;
    assert more[1..] == rest;
    ShuffledLast(head, more);
    assert Remaining(head, j) == after[..i];
    var r := Shuffled(head, more);
    assert r == r[..i] + [r[i]];
    assert after[i..] == [cur[j]] + cur[i + 1..];
  }

  lemma {:induction false} HalfwayDone<T>(s: seq<T>, choices: seq<nat>, cur: seq<T>)
    requires Halfway(s, choices, cur, 0)
    ensures ChoicesFor(|s|, choices) && cur == Shuffled(s, choices)
  {
    assert FinishedBy(s, choices, cur, 0, []);
    assert choices + [] == choices;
    NothingToShuffle(cur[..1]);
    assert cur[..1] + cur[1..] == cur;
  }

  lemma NothingToShuffle<T>(s: seq<T>)
    requires |s| <= 1
    ensures Shuffled(s, []) == s
  {
  }

  /** The loop's state: what was shuffled, by choices drawn in order, is `cur` once the rest up to i is shuffled. */
  ghost predicate Shuffling(rand: nat -> nat, at: nat, next: nat, was: string, choices: seq<nat>, cur: string, i: nat) {
    && i < |was|
    && Drawn(rand, at, Descending(|was|, i + 1), choices, next)
    && Halfway(was, choices, cur, i)
  }

  lemma ShufflingOn(rand: nat -> nat, at: nat, mid: nat, was: string, choices: seq<nat>, cur: string, i: nat, j: nat,
                    next: nat)
    requires Shuffling(rand, at, mid, was, choices, cur, i) && 0 < i && j <= i
    requires OneDrawn(rand, mid, i + 1, j, next)
    ensures Shuffling(rand, at, next, was, choices + [j], Swap(cur, i, j), i - 1)
  {
    DrawnOneMore(rand, at, Descending(|was|, i + 1), choices, mid, i + 1, j, next);
    DescendingOn(|was|, i);
    HalfwayOn(was, choices, cur, i, j);
  }

  lemma ShufflingStarts(rand: nat -> nat, at: nat, was: string)
    requires was != []
    ensures Shuffling(rand, at, at, was, [], was, |was| - 1)
  {
    HalfwayFrom(was);
  }

  lemma ShufflingEnds(rand: nat -> nat, at: nat, next: nat, was: string, choices: seq<nat>, cur: string)
    requires Shuffling(rand, at, next, was, choices, cur, 0)
    ensures Drawn(rand, at, Descending(|was|, 1), choices, next)
    ensures ChoicesFor(|was|, choices) && cur == Shuffled(was, choices)
  {
    HalfwayDone(was, choices, cur);
  }

  method Shuffle(chars: array<char>, rand: nat -> nat, at: nat) returns (next: nat, ghost choices: seq<nat>)
    requires Words(rand) && 0 < chars.Length < 0x1_0000_0000
    modifies chars
    ensures Drawn(rand, at, Descending(chars.Length, 1), choices, next)
    ensures ChoicesFor(chars.Length, choices) && chars[..] == Shuffled(old(chars[..]), choices)
  {
    next, choices := at, [];
    ghost var was, cur := chars[..], chars[..];
    ShufflingStarts(rand, at, was);
    var i := chars.Length - 1;
    while i > 0
      invariant 0 <= i < chars.Length && chars[..] == cur
      invariant Shuffling(rand, at, next, was, choices, cur, i)
    {
      ghost var mid := next;
      var j;
      j, next := Below(rand, next, i + 1);
      ShufflingOn(rand, at, mid, was, choices, cur, i, j, next);
      cur := Swap(cur, i, j);
      chars[i], chars[j] := chars[j], chars[i];
      choices := choices + [j];
      i := i - 1;
    }
    ShufflingEnds(rand, at, next, was, choices, cur);
  }

  // ---------------------------------------------------------------------------
  // A fresh password
  // ---------------------------------------------------------------------------

  /** The alphabet each character is picked from: one of each class, and the others from all of them. */
  function Alphabet(k: nat): string {
    if k == 0 then UPPER else if k == 1 then LOWER else if k == 2 then DIGITS else if k == 3 then SYMBOLS
    else UPPER + LOWER + DIGITS + SYMBOLS
  }

  lemma Alphabets()
    ensures |UPPER| == 24 && |LOWER| == 25 && |DIGITS| == 8 && |SYMBOLS| == 5
    ensures forall c :: c in UPPER ==> IsUpper(c)
    ensures forall c :: c in LOWER ==> IsLower(c)
    ensures forall c :: c in DIGITS ==> IsDigit(c)
    ensures forall c :: c in SYMBOLS ==> IsSymbol(c)
  {
  }

  /** A character that looks like another. */
  predicate LooksAlike(c: char) {
    c == '0' || c == 'O' || c == '1' || c == 'l' || c == 'I'
  }

  /** From the fifth on each character may be any of the four alphabets'. */
  lemma OthersFromAll(k: nat, c: char)
    requires k >= 4
    ensures c in Alphabet(k) <==> c in UPPER || c in LOWER || c in DIGITS || c in SYMBOLS
  {
  }

  lemma NoneInAlphabets(c: char)
    ensures c in UPPER ==> !LooksAlike(c)
    ensures c in LOWER ==> !LooksAlike(c)
    ensures c in DIGITS ==> !LooksAlike(c)
    ensures c in SYMBOLS ==> !LooksAlike(c)
  {
  }

  /** No alphabet has a character that looks like another. */
  lemma AlphabetsHold(k: nat, c: char)
    requires c in Alphabet(k)
    ensures !LooksAlike(c)
  {
    NoneInAlphabets(c);
    if k >= 4 {
      OthersFromAll(k, c);
    }
  }

  /** Nor does any character picked. */
  lemma NoneLooksAlike(picks: seq<nat>, picked: string)
    requires PickedFrom(Alphabet, picks, picked)
    ensures forall c :: c in picked ==> !LooksAlike(c)
  {
    forall c | c in picked ensures !LooksAlike(c) {
      var k :| 0 <= k < |picked| && picked[k] == c;
      AlphabetsHold(k, c);
    }
  }

  lemma AlphabetSize(k: nat)
    ensures 0 < |Alphabet(k)| <= 62
  {
    Alphabets();
  }

  function Sizes(alphabet: nat -> string, n: nat): (r: seq<nat>)
    ensures |r| == n
  {
    seq(n, k requires 0 <= k < n => |alphabet(k)|)
  }

  lemma SizesOn(alphabet: nat -> string, k: nat)
    ensures Sizes(alphabet, k + 1) == Sizes(alphabet, k) + [|alphabet(k)|]
  {
  }

  ghost predicate PickedFrom(alphabet: nat -> string, picks: seq<nat>, s: string) {
    |s| == |picks| && forall k :: 0 <= k < |s| ==> picks[k] < |alphabet(k)| && s[k] == alphabet(k)[picks[k]]
  }

  /** One character of each class is enough classes, whatever their order. */
  lemma FourClasses(picks: seq<nat>, s: string, password: string)
    requires PickedFrom(Alphabet, picks, s) && |s| >= 4 && multiset(password) == multiset(s)
    ensures |password| == |s| && Classes(password) == 4
    ensures ProblemWith(password) == None <==> 12 <= |s| <= 128
  {
    Alphabets();
    SameSize(s, password);
    forall k | 0 <= k < 4 ensures s[k] in password && s[k] in Alphabet(k) {
      assert s[k] in multiset(password);
    }
    assert IsUpper(s[0]) && IsLower(s[1]) && IsDigit(s[2]) && IsSymbol(s[3]);
  }

  ghost predicate Picking(alphabet: nat -> string, rand: nat -> nat, at: nat, next: nat, picks: seq<nat>,
                          picked: string) {
    && PickedFrom(alphabet, picks, picked)
    && Drawn(rand, at, Sizes(alphabet, |picked|), picks, next)
  }

  lemma PickingOn(alphabet: nat -> string, rand: nat -> nat, at: nat, mid: nat, picks: seq<nat>, picked: string, j: nat,
                  next: nat)
    requires Picking(alphabet, rand, at, mid, picks, picked)
    requires j < |alphabet(|picked|)| && OneDrawn(rand, mid, |alphabet(|picked|)|, j, next)
    ensures Picking(alphabet, rand, at, next, picks + [j], picked + [alphabet(|picked|)[j]])
  {
    DrawnOneMore(rand, at, Sizes(alphabet, |picked|), picks, mid, |alphabet(|picked|)|, j, next);
    SizesOn(alphabet, |picked|);
  }

  /** Picks one character from each alphabet in turn. */
  method PickEach(alphabet: nat -> string, n: nat, rand: nat -> nat, at: nat)
    returns (picked: string, next: nat, ghost picks: seq<nat>)
    requires Words(rand) && forall k :: 0 < |alphabet(k)| < 0x1_0000_0000
    ensures |picked| == n && PickedFrom(alphabet, picks, picked) && Drawn(rand, at, Sizes(alphabet, n), picks, next)
  {
    picked, next, picks := "", at, [];
    for k := 0 to n
      invariant |picked| == k && Picking(alphabet, rand, at, next, picks, picked)
    {
      var letters := alphabet(k);
      var j, after := Below(rand, next, |letters|);
      PickingOn(alphabet, rand, at, next, picks, picked, j, after);
      picked, next, picks := picked + [letters[j]], after, picks + [j];
    }
  }

  method GeneratePassword(length: int, rand: nat -> nat, at: nat)
      returns (password: string, next: nat, ghost picks: seq<nat>, ghost choices: seq<nat>, ghost picked: string,
               ghost mid: nat)
    requires Words(rand) && length < 0x1_0000_0000
    ensures |password| == if length < 4 then 4 else length
    ensures PickedFrom(Alphabet, picks, picked) && Drawn(rand, at, Sizes(Alphabet, |password|), picks, mid)
    ensures ChoicesFor(|picked|, choices) && Drawn(rand, mid, Descending(|password|, 1), choices, next)
    ensures password == Shuffled(picked, choices)
    ensures Classes(password) == 4
    ensures ProblemWith(password) == None <==> 12 <= length <= 128
    ensures forall c :: c in password ==> !LooksAlike(c)
  {
    forall k ensures 0 < |Alphabet(k)| < 0x1_0000_0000 {
      AlphabetSize(k);
    }
    var n := if length < 4 then 4 else length;
    var letters;
    letters, next, picks := PickEach(Alphabet, n, rand, at);
    picked, mid := letters, next;
    var chars := new char[n](k requires 0 <= k < n => letters[k]);
    assert chars[..] == picked;
    next, choices := Shuffle(chars, rand, next);
    password := chars[..];
    ShuffledKeepsAll(picked, choices);
    FourClasses(picks, picked, password);
    NoneLooksAlike(picks, picked);
    assert forall c :: c in password <==> c in multiset(password);
    assert forall c :: c in picked <==> c in multiset(picked);
  }
}
