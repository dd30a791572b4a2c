/** Taking remembered secrets out of text (packages/shared/src/redaction.ts). */
module Redaction {
  const REDACTED := "[redacted]"

  /** Shorter values are not looked for. */
  const MIN_TRACKED_LENGTH := 8

  // ---------------------------------------------------------------------------
  // Literal replacement
  // ---------------------------------------------------------------------------

  predicate OccursAt(s: string, t: string, i: nat) {
    i + |s| <= |t| && t[i..i + |s|] == s
  }

  ghost predicate Occurs(s: string, t: string) {
    exists i: nat :: OccursAt(s, t, i)
  }

  /** Every occurrence of `s` replaced, from the left and without overlap. */
  function ReplaceAll(t: string, s: string): string
    requires s != ""
    decreases |t|
  {
    if |t| < |s| then t
    else if t[..|s|] == s then REDACTED + ReplaceAll(t[|s|..], s)
    else [t[0]] + ReplaceAll(t[1..], s)
  }

  /** What `remember` keeps. */
  predicate AllTracked(secrets: seq<string>) {
    forall k :: 0 <= k < |secrets| ==> |secrets[k]| >= MIN_TRACKED_LENGTH
  }

  /** The secrets replaced one after another. */
  function ReplaceEach(t: string, secrets: seq<string>): string
    requires AllTracked(secrets)
    decreases |secrets|
  {
    if secrets == [] then t else ReplaceEach(ReplaceAll(t, secrets[0]), secrets[1..])
  }

  // ---------------------------------------------------------------------------
  // Secrets that the replacement text could complete
  // ---------------------------------------------------------------------------

  /** With its start `d` places after the start of a replacement, `s` agrees with it where they overlap. */
  predicate AgreesAt(s: string, d: int) {
    forall k :: 0 <= k < |s| && 0 <= d + k < |REDACTED| ==> s[k] == REDACTED[d + k]
  }

  /** Part of `s` could be read off a replacement. */
  predicate Overlaps(s: string) {
    exists d :: -|s| < d < |REDACTED| && AgreesAt(s, d)
  }

  /** A tracked secret without square brackets overlaps only if it is the word in the replacement. */
  lemma PlainSecretsDoNotOverlap(s: string)
    requires |s| >= MIN_TRACKED_LENGTH && '[' !in s && ']' !in s && s != "redacted"
    ensures !Overlaps(s)
  {
    forall d | -|s| < d < |REDACTED| ensures !AgreesAt(s, d) {
      if d <= 0 {
        assert s[-d] in s && REDACTED[0] == '[';
      } else if d + |s| >= |REDACTED| {
        assert s[|REDACTED| - 1 - d] in s && REDACTED[|REDACTED| - 1] == ']';
      } else {
        assert d == 1 && |s| == 8;
        var k :| 0 <= k < 8 && s[k] != "redacted"[k];
        assert s[k] != REDACTED[d + k];
      }
    }
  }

  // ---------------------------------------------------------------------------
  // No remembered secret survives
  // ---------------------------------------------------------------------------

  /** What is left of `x` at the start of a replaced text is at the start of the text. */
  lemma {:induction false} PrefixKept(x: string, j: nat, t: string, s: string)
    requires s != "" && !Overlaps(x) && j <= |x| && x[j..] <= ReplaceAll(t, s)
    ensures x[j..] <= t
    decreases |t|
  {
    if |t| >= |s| && j < |x| {
      if t[..|s|] == s {
        assert AgreesAt(x, 0 - j) by {
          forall k | 0 <= k < |x| && 0 <= 0 - j + k < |REDACTED| ensures x[k] == REDACTED[0 - j + k] {
            assert x[j..][k - j] == ReplaceAll(t, s)[k - j];
          }
        }
      } else {
        var rest := ReplaceAll(t[1..], s);
        assert x[j..][1..] == x[j + 1..];
        assert ReplaceAll(t, s)[1..] == rest;
        assert x[j + 1..] <= rest;
        PrefixKept(x, j + 1, t[1..], s);
        assert x[j..] == [x[j]] + x[j + 1..] && t == [t[0]] + t[1..];
      }
    }
  }

  /** What occurs behind a head occurs in the rest. */
  lemma OccursBehind(x: string, head: string, rest: string, i: nat)
    ensures OccursAt(x, head + rest, |head| + i) <==> OccursAt(x, rest, i)
  {
    var all := head + rest;
    if i + |x| <= |rest| {
      assert all[|head| + i..|head| + i + |x|] == rest[i..i + |x|];
    }
  }

  lemma OccursFurther(x: string, t: string, n: nat, j: nat)
    requires n <= |t|
    ensures OccursAt(x, t, n + j) <==> OccursAt(x, t[n..], j)
  {
    assert t == t[..n] + t[n..];
    OccursBehind(x, t[..n], t[n..], j);
  }

  /** What does not overlap a replacement occurs behind it. */
  lemma OccursBehindReplacement(x: string, rest: string, i: nat)
    requires x != "" && !Overlaps(x) && OccursAt(x, REDACTED + rest, i)
    ensures i >= |REDACTED| && OccursAt(x, rest, i - |REDACTED|)
  {
    var all := REDACTED + rest;
    if i < |REDACTED| {
      forall k | 0 <= k < |x| && 0 <= i + k < |REDACTED| ensures x[k] == REDACTED[i + k] {
        assert all[i..i + |x|][k] == all[i + k];
      }
      assert AgreesAt(x, i);
      assert false;
    } else {
      OccursBehind(x, REDACTED, rest, i - |REDACTED|);
    }
  }

  lemma StartsBoth(x: string, t: string, s: string)
    requires s != "" && !Overlaps(x) && OccursAt(x, ReplaceAll(t, s), 0)
    ensures OccursAt(x, t, 0)
  {
    assert x[0..] == x && ReplaceAll(t, s)[..|x|] == x;
    PrefixKept(x, 0, t, s);
  }

  /** An occurrence in a replaced text that touches no replacement was one in the text, not at a place replaced. */
  lemma {:induction false} OccurrenceWasThere(x: string, t: string, s: string, i: nat) returns (j: nat)
    requires s != "" && x != "" && !Overlaps(x) && OccursAt(x, ReplaceAll(t, s), i)
    ensures OccursAt(x, t, j)
    ensures x != s
    decreases |t|
  {
    if |t| < |s| {
      j := i;
    } else if t[..|s|] == s {
      OccursBehindReplacement(x, ReplaceAll(t[|s|..], s), i);
      j := OccurrenceWasThere(x, t[|s|..], s, i - |REDACTED|);
      OccursFurther(x, t, |s|, j);
      j := |s| + j;
    } else if i == 0 {
      StartsBoth(x, t, s);
      j := 0;
    } else {
      OccursBehind(x, [t[0]], ReplaceAll(t[1..], s), i - 1);
      j := OccurrenceWasThere(x, t[1..], s, i - 1);
      OccursFurther(x, t, 1, j);
      j := 1 + j;
    }
  }

  /** Replacing takes the secret out, and brings no other in. */
  lemma ReplacedIsGone(x: string, t: string, s: string)
    requires s != "" && x != "" && !Overlaps(x)
    ensures !Occurs(s, ReplaceAll(t, s)) || x != s
    ensures !Occurs(x, t) ==> !Occurs(x, ReplaceAll(t, s))
  {
    if Occurs(x, ReplaceAll(t, s)) {
      var i: nat :| OccursAt(x, ReplaceAll(t, s), i);
      var j := OccurrenceWasThere(x, t, s, i);
    }
  }

  lemma {:induction false} NotBroughtBack(x: string, t: string, secrets: seq<string>)
    requires AllTracked(secrets) && x != "" && !Overlaps(x) && !Occurs(x, t)
    ensures !Occurs(x, ReplaceEach(t, secrets))
    decreases |secrets|
  {
    if secrets != [] {
      ReplacedIsGone(x, t, secrets[0]);
      NotBroughtBack(x, ReplaceAll(t, secrets[0]), secrets[1..]);
    }
  }

  /** A remembered secret that overlaps no replacement is nowhere in the result, whatever the
      text, whatever else is remembered, and in whichever order. */
  lemma {:induction false} NoSecretSurvives(x: string, t: string, secrets: seq<string>)
    requires AllTracked(secrets) && x in secrets && !Overlaps(x)
    ensures !Occurs(x, ReplaceEach(t, secrets))
    decreases |secrets|
  {
    var next := ReplaceAll(t, secrets[0]);
    if secrets[0] == x {
      ReplacedIsGone(x, t, x);
      NotBroughtBack(x, next, secrets[1..]);
    } else {
      NoSecretSurvives(x, next, secrets[1..]);
    }
  }

  // ---------------------------------------------------------------------------
  // And only those are safe
  // ---------------------------------------------------------------------------

  function Repeat(c: char, n: nat): (r: string)
    ensures |r| == n && forall k :: 0 <= k < n ==> r[k] == c
  {
    if n == 0 then "" else [c] + Repeat(c, n - 1)
  }

  lemma {:induction false} NothingToReplace(t: string, s: string)
    requires s != "" && !Occurs(s, t)
    ensures ReplaceAll(t, s) == t
    decreases |t|
  {
    if |t| >= |s| {
      assert !OccursAt(s, t, 0);
      forall i: nat ensures !OccursAt(s, t[1..], i) {
        if OccursAt(s, t[1..], i) {
          assert t[1..][i..i + |s|] == t[i + 1..i + 1 + |s|];
          assert OccursAt(s, t, i + 1);
        }
      }
      NothingToReplace(t[1..], s);
    }
  }

  /** A run of a character that the text around it does not use is replaced on its own. */
  lemma {:induction false} RunIsReplaced(u: string, c: char, v: string)
    requires c !in u && c !in v
    ensures ReplaceAll(u + Repeat(c, MIN_TRACKED_LENGTH) + v, Repeat(c, MIN_TRACKED_LENGTH)) == u + REDACTED + v
    decreases |u|
  {
    var run := Repeat(c, MIN_TRACKED_LENGTH);
    var t := u + run + v;
    if u == "" {
      assert t[..|run|] == run && t[|run|..] == v;
      RunIsNotIn(c, v);
      NothingToReplace(v, run);
    } else {
      assert t[0] == u[0] && u[0] in u;
      assert t[..|run|][0] == u[0] && run[0] == c;
      assert t[1..] == u[1..] + run + v;
      RunIsReplaced(u[1..], c, v);
      assert [u[0]] + (u[1..] + REDACTED + v) == u + REDACTED + v;
    }
  }

  lemma RunIsNotIn(c: char, v: string)
    requires c !in v
    ensures !Occurs(Repeat(c, MIN_TRACKED_LENGTH), v)
  {
    var run := Repeat(c, MIN_TRACKED_LENGTH);
    forall i: nat ensures !OccursAt(run, v, i) {
      if i + |run| <= |v| {
        assert v[i..i + |run|][0] == v[i] && v[i] in v;
      }
    }
  }

  /** An overlapping secret can be read in the result around a replacement made for another. */
  lemma OverlapCanSurvive(s: string, c: char)
    requires |s| >= MIN_TRACKED_LENGTH && Overlaps(s) && c !in s
    ensures exists other, t ::
      |other| >= MIN_TRACKED_LENGTH && AllTracked([s, other]) && Occurs(s, ReplaceEach(t, [s, other]))
  {
    var d :| -|s| < d < |REDACTED| && AgreesAt(s, d);
    var other := Repeat(c, MIN_TRACKED_LENGTH);
    var u := if d < 0 then s[..-d] else "";
    var v := if d + |s| > |REDACTED| then s[|REDACTED| - d..] else "";
    var t := u + other + v;
    SecretNotAround(s, c, u, v);
    NothingToReplace(t, s);
    RunIsReplaced(u, c, v);
    ReplaceTwo(t, s, other);
    ReadOffReplacement(s, d);
  }

  lemma ReplaceTwo(t: string, s: string, other: string)
    requires |s| >= MIN_TRACKED_LENGTH && |other| >= MIN_TRACKED_LENGTH
    ensures AllTracked([s, other]) && ReplaceEach(t, [s, other]) == ReplaceAll(ReplaceAll(t, s), other)
  {
    assert [s, other][1..] == [other] && [other][1..] == [];
    assert ReplaceEach(ReplaceAll(t, s), [other]) == ReplaceAll(ReplaceAll(t, s), other);
  }

  /** Where it agrees with a replacement, the rest of the secret put around it completes the secret. */
  lemma ReadOffReplacement(s: string, d: int)
    requires -|s| < d < |REDACTED| && AgreesAt(s, d)
    ensures var u := if d < 0 then s[..-d] else "";
            var v := if d + |s| > |REDACTED| then s[|REDACTED| - d..] else "";
            Occurs(s, u + REDACTED + v)
  {
    var u := if d < 0 then s[..-d] else "";
    var v := if d + |s| > |REDACTED| then s[|REDACTED| - d..] else "";
    var out, i: nat := u + REDACTED + v, if d < 0 then 0 else d;
    forall k | 0 <= k < |s| ensures out[i + k] == s[k] {
      if 0 <= d + k < |REDACTED| {
        assert out[i + k] == REDACTED[d + k];
      }
    }
    assert OccursAt(s, out, i);
  }

  lemma SecretNotAround(s: string, c: char, u: string, v: string)
    requires s != "" && c !in s && |u| < |s| && |v| < |s|
    ensures !Occurs(s, u + Repeat(c, MIN_TRACKED_LENGTH) + v)
  {
    var t := u + Repeat(c, MIN_TRACKED_LENGTH) + v;
    forall i: nat ensures !OccursAt(s, t, i) {
      if i + |s| <= |t| {
        // The occurrence would reach into the run: it is longer than what stands on either side.
        var k := if i <= |u| then |u| - i else 0;
        assert i + k < |u| + MIN_TRACKED_LENGTH && k < |s|;
        assert t[i..i + |s|][k] == t[i + k] == c;
        assert s[k] in s;
      }
    }
  }

  /**
   * Exactly the secrets that do not overlap a replacement are safe: one is
   * absent from the result for every text and every other secret remembered if
   * and only if it does not. `c` is any character the secret does not use.
   */
  lemma SafeIffNoOverlap(s: string, c: char)
    requires |s| >= MIN_TRACKED_LENGTH && c !in s
    ensures (forall secrets: seq<string>, t: string ::
               s in secrets && AllTracked(secrets) ==> !Occurs(s, ReplaceEach(t, secrets)))
       <==> !Overlaps(s)
  {
    if Overlaps(s) {
      OverlapCanSurvive(s, c);
      var other, t :| |other| >= MIN_TRACKED_LENGTH && AllTracked([s, other]) && Occurs(s, ReplaceEach(t, [s, other]));
      assert s in [s, other];
    } else {
      forall secrets: seq<string>, t: string | s in secrets && AllTracked(secrets)
        ensures !Occurs(s, ReplaceEach(t, secrets))
      {
        NoSecretSurvives(s, t, secrets);
      }
    }
  }

  // ---------------------------------------------------------------------------
  // The rest of the text is kept
  // ---------------------------------------------------------------------------

  /** The parts with `glue` between each two. */
  function Glued(parts: seq<string>, glue: string): string
    requires parts != []
  {
    if |parts| == 1 then parts[0] else parts[0] + glue + Glued(parts[1..], glue)
  }

  /** `s` occurs in no part, nor from any place in a part on into the `s` that follows it. */
  ghost predicate AreBetween(parts: seq<string>, s: string) {
    forall k :: 0 <= k < |parts| ==>
      if k == |parts| - 1 then !Occurs(s, parts[k]) else OnlyBehind(parts[k], s)
  }

  /** Followed by `s`, the part has no occurrence of it but that one. */
  ghost predicate OnlyBehind(part: string, s: string) {
    forall i: nat :: i < |part| ==> !OccursAt(s, part + s, i)
  }

  /** `x` is `t` with the occurrences of `s`, taken from the left, exchanged for the replacement and all else kept. */
  ghost predicate Exchanged(t: string, s: string, x: string) {
    exists parts: seq<string> ::
      parts != [] && AreBetween(parts, s) && t == Glued(parts, s) && x == Glued(parts, REDACTED)
  }

  /** And so for one secret after another. */
  ghost predicate ExchangedEach(t: string, secrets: seq<string>, x: string)
    decreases |secrets|
  {
    if secrets == [] then x == t
    else exists mid :: Exchanged(t, secrets[0], mid) && ExchangedEach(mid, secrets[1..], x)
  }

  ghost predicate Splits(t: string, s: string, parts: seq<string>)
    requires s != ""
  {
    parts != [] && AreBetween(parts, s) && t == Glued(parts, s) && ReplaceAll(t, s) == Glued(parts, REDACTED)
  }

  lemma {:induction false} PartsOf(t: string, s: string) returns (parts: seq<string>)
    requires s != ""
    ensures Splits(t, s, parts)
    decreases |t|
  {
    if |t| < |s| {
      parts := [t];
    } else if t[..|s|] == s {
      var rest := PartsOf(t[|s|..], s);
      parts := [""] + rest;
      SplitAtStart(t, s, rest);
    } else {
      var rest := PartsOf(t[1..], s);
      parts := [[t[0]] + rest[0]] + rest[1..];
      SplitLater(t, s, rest);
    }
  }

  lemma SplitAtStart(t: string, s: string, rest: seq<string>)
    requires s != "" && s <= t && Splits(t[|s|..], s, rest)
    ensures Splits(t, s, [""] + rest)
  {
    assert t == s + t[|s|..] && ([""] + rest)[1..] == rest;
    BetweenMore("", rest, s);
  }

  lemma SplitLater(t: string, s: string, rest: seq<string>)
    requires s != "" && |t| >= |s| && t[..|s|] != s && Splits(t[1..], s, rest)
    ensures Splits(t, s, [[t[0]] + rest[0]] + rest[1..])
  {
    assert t == [t[0]] + t[1..];
    GluedLonger(t[0], rest, s);
    GluedLonger(t[0], rest, REDACTED);
    StartNotThere(t[0], rest, s);
  }

  lemma BetweenMore(part: string, rest: seq<string>, s: string)
    requires rest != [] && AreBetween(rest, s) && OnlyBehind(part, s)
    ensures AreBetween([part] + rest, s)
  {
    var parts := [part] + rest;
    forall k | 0 <= k < |parts|
      ensures if k == |parts| - 1 then !Occurs(s, parts[k]) else OnlyBehind(parts[k], s)
    {
      assert k > 0 ==> parts[k] == rest[k - 1];
    }
  }

  lemma GluedLonger(c: char, rest: seq<string>, glue: string)
    requires rest != []
    ensures Glued([[c] + rest[0]] + rest[1..], glue) == [c] + Glued(rest, glue)
  {
    var parts := [[c] + rest[0]] + rest[1..];
    assert parts[1..] == rest[1..];
  }

  /** A text that does not start with `s` splits as its rest does. */
  lemma StartNotThere(c: char, rest: seq<string>, s: string)
    requires s != "" && rest != [] && AreBetween(rest, s) && !OccursAt(s, [c] + Glued(rest, s), 0)
    ensures AreBetween([[c] + rest[0]] + rest[1..], s)
  {
    var part := [c] + rest[0];
    var parts := [part] + rest[1..];
    forall k | 0 <= k < |parts|
      ensures if k == |parts| - 1 then !Occurs(s, parts[k]) else OnlyBehind(parts[k], s)
    {
      if k > 0 {
        assert parts[k] == rest[k];
      } else if |parts| == 1 {
        NotInLonger(c, rest[0], s);
      } else {
        NotBehindLonger(c, rest[0], Glued(rest[1..], s), s);
      }
    }
  }

  lemma NotInLonger(c: char, part: string, s: string)
    requires s != "" && !Occurs(s, part) && !OccursAt(s, [c] + part, 0)
    ensures !Occurs(s, [c] + part)
  {
    forall i: nat ensures !OccursAt(s, [c] + part, i) {
      if i > 0 {
        OccursBehind(s, [c], part, i - 1);
      }
    }
  }

  lemma OccursInMore(s: string, t: string, rest: string, i: nat)
    requires i + |s| <= |t|
    ensures OccursAt(s, t, i) <==> OccursAt(s, t + rest, i)
  {
    assert (t + rest)[i..i + |s|] == t[i..i + |s|];
  }

  lemma NotBehindLonger(c: char, part: string, rest: string, s: string)
    requires s != "" && OnlyBehind(part, s) && !OccursAt(s, [c] + (part + s + rest), 0)
    ensures OnlyBehind([c] + part, s)
  {
    var all := [c] + part + s;
    forall i: nat | i < |part| + 1 ensures !OccursAt(s, all, i) {
      if i > 0 {
        assert all == [c] + (part + s);
        OccursBehind(s, [c], part + s, i - 1);
      } else {
        assert [c] + (part + s + rest) == all + rest;
        OccursInMore(s, all, rest, 0);
      }
    }
  }

  lemma ReplacedAtStart(s: string, rest: string)
    requires s != ""
    ensures ReplaceAll(s + rest, s) == REDACTED + ReplaceAll(rest, s)
  {
    assert (s + rest)[..|s|] == s && (s + rest)[|s|..] == rest;
  }

  lemma KeptAtStart(c: char, rest: string, s: string)
    requires s != "" && !OccursAt(s, [c] + rest, 0) && |rest| >= |s|
    ensures ReplaceAll([c] + rest, s) == [c] + ReplaceAll(rest, s)
  {
    assert ([c] + rest)[0..|s|] == ([c] + rest)[..|s|] && ([c] + rest)[1..] == rest;
  }

  /** `s` occurs at no place of the first part of a text. */
  ghost predicate NoneStartsIn(part: string, tail: string, s: string) {
    forall i: nat :: i < |part| ==> !OccursAt(s, part + tail, i)
  }

  lemma NoneStartsInRest(part: string, tail: string, s: string)
    requires part != "" && NoneStartsIn(part, tail, s)
    ensures NoneStartsIn(part[1..], tail, s)
  {
    var rest := part[1..] + tail;
    assert part + tail == [part[0]] + rest;
    forall i: nat | i < |part| - 1 ensures !OccursAt(s, rest, i) {
      OccursBehind(s, [part[0]], rest, i);
      assert !OccursAt(s, part + tail, i + 1);
    }
  }

  lemma {:induction false} FirstPartIsKept(part: string, tail: string, s: string)
    requires s != "" && NoneStartsIn(part, tail, s) && |tail| >= |s|
    ensures ReplaceAll(part + tail, s) == part + ReplaceAll(tail, s)
    decreases |part|
  {
    if part == "" {
      assert part + tail == tail;
    } else {
      FirstIsKept(part, tail, s);
      NoneStartsInRest(part, tail, s);
      FirstPartIsKept(part[1..], tail, s);
      TakenApart(part, ReplaceAll(tail, s));
    }
  }

  lemma TakenApart(part: string, rest: string)
    requires part != ""
    ensures [part[0]] + (part[1..] + rest) == part + rest
  {
  }

  lemma FirstIsKept(part: string, tail: string, s: string)
    requires s != "" && part != "" && NoneStartsIn(part, tail, s) && |tail| >= |s|
    ensures ReplaceAll(part + tail, s) == [part[0]] + ReplaceAll(part[1..] + tail, s)
  {
    TakenApart(part, tail);
    assert !OccursAt(s, part + tail, 0);
    KeptAtStart(part[0], part[1..] + tail, s);
  }

  lemma ReplacedBehind(part: string, rest: string, s: string)
    requires s != "" && OnlyBehind(part, s)
    ensures ReplaceAll(part + s + rest, s) == part + REDACTED + ReplaceAll(rest, s)
  {
    var tail := s + rest;
    assert part + s + rest == part + tail;
    forall i: nat | i < |part| ensures !OccursAt(s, part + tail, i) {
      OccursInMore(s, part + s, rest, i);
    }
    FirstPartIsKept(part, tail, s);
    ReplacedAtStart(s, rest);
  }

  lemma {:induction false} GluedIsReplaced(parts: seq<string>, s: string)
    requires s != "" && parts != [] && AreBetween(parts, s)
    ensures ReplaceAll(Glued(parts, s), s) == Glued(parts, REDACTED)
  {
    if |parts| == 1 {
      AbsentIsKept(parts[0], s);
    } else {
      assert AreBetween(parts[1..], s) by {
        assert forall k :: 0 <= k < |parts| - 1 ==> parts[1..][k] == parts[k + 1];
      }
      GluedIsReplaced(parts[1..], s);
      ReplacedBehind(parts[0], Glued(parts[1..], s), s);
    }
  }

  /** Replacing exchanges the occurrences, from the left, keeps the rest, and is the only text that does. */
  lemma {:induction false} ReplacedIffExchanged(t: string, secrets: seq<string>, x: string)
    requires AllTracked(secrets)
    ensures x == ReplaceEach(t, secrets) <==> ExchangedEach(t, secrets, x)
    decreases |secrets|
  {
    if secrets != [] {
      var s, mid := secrets[0], ReplaceAll(t, secrets[0]);
      var parts := PartsOf(t, s);
      assert Exchanged(t, s, mid);
      ReplacedIffExchanged(mid, secrets[1..], x);
      forall other | Exchanged(t, s, other) ensures other == mid {
        var others: seq<string> :|
          others != [] && AreBetween(others, s) && t == Glued(others, s) && other == Glued(others, REDACTED);
        GluedIsReplaced(others, s);
      }
    }
  }

  lemma {:induction false} AbsentIsKept(t: string, s: string)
    requires s != "" && !Occurs(s, t)
    ensures ReplaceAll(t, s) == t
    decreases |t|
  {
    if |t| >= |s| {
      assert OccursAt(s, t, 0) <==> t[..|s|] == s;
      forall i: nat ensures !OccursAt(s, t[1..], i) {
        assert t == [t[0]] + t[1..];
        OccursBehind(s, [t[0]], t[1..], i);
      }
      AbsentIsKept(t[1..], s);
    }
  }

  /** A text in which no secret occurs comes out as it is. */
  lemma {:induction false} CleanIsKept(t: string, secrets: seq<string>)
    requires AllTracked(secrets) && forall s :: s in secrets ==> !Occurs(s, t)
    ensures ReplaceEach(t, secrets) == t
    decreases |secrets|
  {
    if secrets != [] {
      AbsentIsKept(t, secrets[0]);
      CleanIsKept(t, secrets[1..]);
    }
  }
}
