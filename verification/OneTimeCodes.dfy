/** One-time codes and their verification (packages/crypto/src/totp.ts), over a keyed hash that is given. */
module OneTimeCodes {
  import opened Prelude
  import Base32

  /** The hash of each counter under a secret: at least the twenty bytes that truncation looks at. */
  type Hash = nat -> seq<Base32.byte>

  ghost predicate LongEnough(hash: Hash) {
    forall c :: |hash(c)| >= 20
  }

  // ---------------------------------------------------------------------------
  // Decimal numbers
  // ---------------------------------------------------------------------------

  function Pow10(n: nat): (r: nat)
    ensures r > 0
  {
    if n == 0 then 1 else 10 * Pow10(n - 1)
  }

  predicate IsDigit(c: char) { '0' <= c <= '9' }

  /** Zeros in front, up to a length. */
  function PadStart(s: string, length: nat): string
    decreases if |s| < length then length - |s| else 0
  {
    if |s| < length then PadStart("0" + s, length) else s
  }

  /** The k lowest decimal digits of a number, highest first. */
  function Digits(n: nat, k: nat): (r: string)
    ensures |r| == k
    ensures forall i :: 0 <= i < k ==> IsDigit(r[i])
  {
    if k == 0 then "" else Digits(n / 10, k - 1) + [Digit(n % 10)]
  }

  function Zeros(n: nat): (r: string)
    ensures |r| == n
  {
    if n == 0 then "" else "0" + Zeros(n - 1)
  }

  lemma {:induction false} ZerosEitherWay(n: nat)
    ensures Zeros(n) + "0" == "0" + Zeros(n)
  {
    if n > 0 {
      ZerosEitherWay(n - 1);
      assert ("0" + Zeros(n - 1)) + "0" == "0" + (Zeros(n - 1) + "0");
    }
  }

  lemma {:induction false} PaddedIs(s: string, length: nat)
    ensures PadStart(s, length) == if |s| < length then Zeros(length - |s|) + s else s
    decreases if |s| < length then length - |s| else 0
  {
    if |s| < length {
      PaddedIs("0" + s, length);
      var n := length - |s| - 1;
      ZerosEitherWay(n);
      assert Zeros(n) + ("0" + s) == (Zeros(n) + "0") + s;
    }
  }

  lemma {:induction false} DigitsOfZero(k: nat)
    ensures Digits(0, k) == Zeros(k)
  {
    if k > 0 {
      DigitsOfZero(k - 1);
      ZerosEitherWay(k - 1);
    }
  }

  /** A number below ten to the k has at most k digits, and padded it has its k lowest ones. */
  lemma {:induction false} DecimalIsDigits(n: nat, k: nat)
    requires k > 0 && n < Pow10(k)
    ensures |Decimal(n)| <= k
    ensures Zeros(k - |Decimal(n)|) + Decimal(n) == Digits(n, k)
    decreases k
  {
    if n < 10 {
      DigitsOfZero(k - 1);
    } else {
      assert k > 1;
      DecimalIsDigits(n / 10, k - 1);
      assert Zeros(k - |Decimal(n)|) + Decimal(n)
        == (Zeros(k - 1 - |Decimal(n / 10)|) + Decimal(n / 10)) + [Digit(n % 10)];
    }
  }

  // ---------------------------------------------------------------------------
  // The code of a counter
  // ---------------------------------------------------------------------------

  /** Four bytes as one number, without the first bit: section 5.3 of RFC 4226. */
  function Truncated(digest: seq<Base32.byte>): (r: nat)
    requires |digest| >= 20
    ensures r < 0x8000_0000
  {
    var offset := digest[|digest| - 1] as nat % 16;
    (digest[offset] as nat % 128) * 0x100_0000 + digest[offset + 1] as nat * 0x1_0000
      + digest[offset + 2] as nat * 0x100 + digest[offset + 3] as nat
  }

  /** Bytes as one number, the first the highest. */
  function NumberOf(bytes: seq<Base32.byte>): nat {
    if bytes == [] then 0 else NumberOf(bytes[..|bytes| - 1]) * 0x100 + bytes[|bytes| - 1] as nat
  }

  lemma NumberOfMore(bytes: seq<Base32.byte>, last: Base32.byte)
    ensures NumberOf(bytes + [last]) == NumberOf(bytes) * 0x100 + last as nat
  {
    assert (bytes + [last])[..|bytes|] == bytes;
  }

  lemma NumberOfFour(a: Base32.byte, b: Base32.byte, c: Base32.byte, d: Base32.byte)
    ensures NumberOf([a, b, c, d]) == a as nat * 0x100_0000 + b as nat * 0x1_0000 + c as nat * 0x100 + d as nat
  {
    NumberOfMore([], a);
    NumberOfMore([a], b);
    NumberOfMore([a, b], c);
    NumberOfMore([a, b, c], d);
    assert [] + [a] == [a] && [a] + [b] == [a, b] && [a, b] + [c] == [a, b, c] && [a, b, c] + [d] == [a, b, c, d];
  }

  lemma LowestHalf(n: nat, offset: nat)
    requires offset < 16
    ensures (16 * n + offset) % 16 == offset
  {
  }

  lemma HighestBitDropped(first: nat, rest: nat)
    requires first < 0x100 && rest < 0x100_0000
    ensures (first * 0x100_0000 + rest) % 0x8000_0000 == first % 0x80 * 0x100_0000 + rest
  {
    if first >= 0x80 {
      assert first * 0x100_0000 + rest == 0x8000_0000 + ((first - 0x80) * 0x100_0000 + rest);
    }
  }

  /** The lowest half of the last byte says where the four bytes start; of their number the highest bit is dropped. */
  lemma TruncatedIs(digest: seq<Base32.byte>, offset: nat)
    requires |digest| >= 20 && offset < 16 && exists n: nat :: digest[|digest| - 1] as nat == 16 * n + offset
    ensures Truncated(digest) == NumberOf(digest[offset..offset + 4]) % 0x8000_0000
  {
    var n: nat :| digest[|digest| - 1] as nat == 16 * n + offset;
    LowestHalf(n, offset);
    var a, b, c, d := digest[offset], digest[offset + 1], digest[offset + 2], digest[offset + 3];
    assert digest[offset..offset + 4] == [a, b, c, d];
    NumberOfFour(a, b, c, d);
    HighestBitDropped(a as nat, b as nat * 0x1_0000 + c as nat * 0x100 + d as nat);
  }

  /** The example of section 5.4 of RFC 4226. */
  lemma TruncatedExample(hash: Hash, counter: nat)
    requires hash(counter) == [0x1f, 0x86, 0x98, 0x69, 0x0e, 0x02, 0xca, 0x16, 0x61, 0x85, 0x50, 0xef, 0x7f, 0x19, 0xda,
                               0x8e, 0x94, 0x5b, 0x55, 0x5a]
    ensures Truncated(hash(counter)) == 0x50ef7f19
    ensures Hotp(hash, counter, 6) == "872921"
  {
    assert Pow10(6) == 1_000_000;
    assert Decimal(872921) == "872921";
  }

  function Hotp(hash: Hash, counter: nat, digits: nat): string
    requires |hash(counter)| >= 20
  {
    PadStart(Decimal(Truncated(hash(counter)) % Pow10(digits)), digits)
  }

  /** A code is exactly the lowest digits of the truncated hash, as many as asked for. */
  lemma CodeIsLowestDigits(hash: Hash, counter: nat, digits: nat)
    requires LongEnough(hash) && digits > 0
    ensures Hotp(hash, counter, digits) == Digits(Truncated(hash(counter)) % Pow10(digits), digits)
    ensures IsCode(Hotp(hash, counter, digits), digits)
  {
    var n := Truncated(hash(counter)) % Pow10(digits);
    DecimalIsDigits(n, digits);
    PaddedIs(Decimal(n), digits);
    if |Decimal(n)| == digits {
      assert Zeros(0) + Decimal(n) == Decimal(n);
    }
  }

  // ---------------------------------------------------------------------------
  // Verification
  // ---------------------------------------------------------------------------

  predicate IsCode(s: string, digits: nat) {
    |s| == digits && forall i :: 0 <= i < |s| ==> IsDigit(s[i])
  }

  datatype Verified = Verified(valid: bool, delta: int, counter: Option<nat>)

  /** There is no counter before the first. */
  datatype Error = NegativeCounter

  ghost predicate Fits(hash: Hash, digits: nat, current: nat, candidate: string, delta: int)
    requires LongEnough(hash)
  {
    current + delta >= 0 && Hotp(hash, current + delta, digits) == candidate
  }

  /** Accepted at the latest step of the window whose code it is, and refused when there is none. */
  ghost predicate IsVerified(hash: Hash, digits: nat, window: nat, current: nat, candidate: string, r: Verified)
    requires LongEnough(hash)
  {
    if r.valid then
      && -(window as int) <= r.delta <= window && Fits(hash, digits, current, candidate, r.delta)
      && r.counter == Some(current + r.delta)
      && forall delta :: r.delta < delta <= window ==> !Fits(hash, digits, current, candidate, delta)
    else
      && r == Verified(false, 0, None)
      && (IsCode(candidate, digits) ==>
          forall delta :: -(window as int) <= delta <= window ==> !Fits(hash, digits, current, candidate, delta))
  }

  method VerifyTotp(hash: Hash, token: string, digits: nat, period: nat, window: nat, now: nat)
    returns (r: Result<Verified, Error>)
    requires LongEnough(hash) && period > 0
    ensures var candidate := Base32.WithoutSeparators(token);
            match r
            case Err(_) => IsCode(candidate, digits) && now / period < window
            case Ok(v) =>
              (IsCode(candidate, digits) ==> window <= now / period)
                && IsVerified(hash, digits, window, now / period, candidate, v)
  {
    var candidate := Base32.WithoutSeparators(token);
    if !IsCode(candidate, digits) {
      return Ok(Verified(false, 0, None));
    }
    var current := now / period;
    var matched: Option<int> := None;
    var delta: int := -(window as int);
    while delta <= window
      invariant -(window as int) <= delta <= window + 1
      invariant delta > -(window as int) ==> window <= current
      invariant match matched
                case None => forall d :: -(window as int) <= d < delta ==> !Fits(hash, digits, current, candidate, d)
                case Some(m) =>
                  && -(window as int) <= m < delta && Fits(hash, digits, current, candidate, m)
                  && forall d :: m < d < delta ==> !Fits(hash, digits, current, candidate, d)
      decreases window + 1 - delta
    {
      if current + delta < 0 {
        return Err(NegativeCounter);
      }
      var expected := Hotp(hash, current + delta, digits);
      if expected == candidate {
        matched := Some(delta);
      }
      delta := delta + 1;
    }
    r := Ok(match matched case None => Verified(false, 0, None) case Some(m) => Verified(true, m, Some(current + m)));
  }

  /**
   * The code of a step is accepted at every time whose window it is in, at that step or a later one with the same code.
   */
  lemma GeneratedCodeIsAccepted(hash: Hash, digits: nat, window: nat, current: nat, delta: int, token: string,
                                v: Verified)
    requires LongEnough(hash) && digits > 0 && -(window as int) <= delta <= window && current + delta >= 0
    requires token == Hotp(hash, current + delta, digits)
    requires IsVerified(hash, digits, window, current, Base32.WithoutSeparators(token), v)
    ensures v.valid && delta <= v.delta && Hotp(hash, v.counter.value, digits) == token
  {
    CodeIsLowestDigits(hash, current + delta, digits);
    CodeIsClean(token, digits);
    assert Fits(hash, digits, current, token, delta);
  }

  lemma {:induction false} CodeIsClean(s: string, digits: nat)
    requires IsCode(s, digits)
    ensures Base32.WithoutSeparators(s) == s
  {
    if s != [] {
      CodeIsClean(s[1..], digits - 1);
    }
  }
}
