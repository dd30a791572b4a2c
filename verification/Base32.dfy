/**
 * Base32 without padding, as authenticator secrets are shown and typed back (packages/crypto/src/totp.ts,
 * section 6 of RFC 4648). The accumulator is one 32-bit word that is never masked: only its low bits are meant.
 */
module Base32 {
  import opened Prelude

  newtype byte = x: int | 0 <= x < 256

  // ---------------------------------------------------------------------------
  // Numbers as bits
  // ---------------------------------------------------------------------------

  function Pow2(n: nat): (r: nat)
    ensures r > 0
  {
    if n == 0 then 1 else 2 * Pow2(n - 1)
  }

  /** The low n bits of a number, highest first. */
  function Bits(x: nat, n: nat): (r: seq<bool>)
    ensures |r| == n
  {
    if n == 0 then [] else Bits(x / 2, n - 1) + [x % 2 == 1]
  }

  function Zeros(n: nat): seq<bool> {
    seq(n, i => false)
  }

  /** The number that bits stand for, highest first. */
  function Value(bits: seq<bool>): nat {
    if bits == [] then 0 else 2 * Value(bits[..|bits| - 1]) + (if bits[|bits| - 1] then 1 else 0)
  }

  /** 32-bit shifts: to the left, what leaves the word is lost. */
  function Shl(x: nat, k: nat): (r: nat)
    requires x < 0x1_0000_0000
    ensures r < 0x1_0000_0000
    decreases k, x
  {
    if k == 0 then x else Shl(2 * x % 0x1_0000_0000, k - 1)
  }

  function Shr(x: nat, k: nat): nat
    decreases k, x
  {
    if k == 0 then x else Shr(x / 2, k - 1)
  }

  lemma {:induction false} ValueOfBits(x: nat, n: nat)
    requires x < Pow2(n)
    ensures Value(Bits(x, n)) == x
  {
    if n > 0 {
      ValueOfBits(x / 2, n - 1);
      assert Bits(x, n)[..n - 1] == Bits(x / 2, n - 1);
    }
  }

  lemma HalfOfProduct(x: nat, p: nat, y: nat)
    ensures (x * (2 * p) + y) / 2 == x * p + y / 2
    ensures (x * (2 * p) + y) % 2 == y % 2
  {
    assert x * (2 * p) == 2 * (x * p);
  }

  lemma {:induction false} BitsOfSum(x: nat, y: nat, n: nat, m: nat)
    requires y < Pow2(m)
    ensures Bits(x * Pow2(m) + y, n + m) == Bits(x, n) + Bits(y, m)
  {
    if m > 0 {
      HalfOfProduct(x, Pow2(m - 1), y);
      BitsOfSum(x, y / 2, n, m - 1);
    }
  }

  /** The high bits are those of the number shifted right. */
  lemma {:induction false} BitsSplit(x: nat, n: nat, m: nat)
    ensures Bits(x, n + m) == Bits(Shr(x, m), n) + Bits(x, m)
  {
    if m > 0 {
      BitsSplit(x / 2, n, m - 1);
    }
  }

  lemma {:induction false} LowerBits(x: nat, y: nat, n: nat, k: nat)
    requires n <= k && Bits(x, k) == Bits(y, k)
    ensures Bits(x, n) == Bits(y, n)
  {
    BitsSplit(x, k - n, n);
    BitsSplit(y, k - n, n);
    assert Bits(x, n) == Bits(x, k)[k - n..];
    assert Bits(y, n) == Bits(y, k)[k - n..];
  }

  lemma HigherBitUnseen(x: nat, n: nat, k: nat)
    requires x < Pow2(k) && n <= k
    ensures Bits(Pow2(k) + x, n) == Bits(x, n)
  {
    BitsOfSum(1, x, 0, k);
    LowerBits(Pow2(k) + x, x, n, k);
  }

  /** Stated of a variable, so that the power is not written out where only its value matters. */
  lemma WordSize(k: nat)
    requires 30 < k < 32
    ensures Pow2(k) == 0x8000_0000 && Pow2(k + 1) == 0x1_0000_0000
  {
    assert Pow2(8) == 0x100;
    assert Pow2(16) == 0x1_0000;
    assert Pow2(24) == 0x100_0000;
    assert Pow2(31) == 0x8000_0000;
  }

  lemma TopBitDropped(x: nat, n: nat, k: nat)
    requires x < 0x1_0000_0000 && n < 32 && 30 < k < 32
    ensures Bits(2 * x % 0x1_0000_0000, n + 1) == Bits(x, n) + [false]
  {
    WordSize(k);
    if x >= 0x8000_0000 {
      HigherBitUnseen(x - 0x8000_0000, n, k);
    }
  }

  lemma {:induction false} BitsOfShl(x: nat, n: nat, m: nat)
    requires x < 0x1_0000_0000 && n + m <= 32
    ensures Bits(Shl(x, m), n + m) == Bits(x, n) + Zeros(m)
    decreases m
  {
    if m > 0 {
      TopBitDropped(x, n, 31);
      BitsOfShl(2 * x % 0x1_0000_0000, n + 1, m - 1);
      assert [false] + Zeros(m - 1) == Zeros(m);
    }
  }

  /** Below bits that are zero, a number is put by adding it. */
  lemma {:induction false} BitsPutBelow(x: nat, y: nat, high: seq<bool>, m: nat)
    requires y < Pow2(m) && Bits(x, |high| + m) == high + Zeros(m)
    ensures Bits(x + y, |high| + m) == high + Bits(y, m)
  {
    if m > 0 {
      var n := |high| + m;
      assert Bits(x, n)[n - 1] == Zeros(m)[m - 1];
      assert Bits(x / 2, n - 1) == Bits(x, n)[..n - 1] == high + Zeros(m - 1);
      BitsPutBelow(x / 2, y / 2, high, m - 1);
    }
  }

  lemma {:induction false} PutBelowFits(x: nat, y: nat, n: nat, m: nat)
    requires y < Pow2(m) && x < Pow2(n + m) && Bits(x, m) == Zeros(m)
    ensures x + y < Pow2(n + m)
  {
    if m > 0 {
      assert Bits(x, m)[m - 1] == Zeros(m)[m - 1];
      assert Bits(x / 2, m - 1) == Bits(x, m)[..m - 1] == Zeros(m - 1);
      PutBelowFits(x / 2, y / 2, n, m - 1);
    }
  }

  /** Shifting in m bits appends them, as long as all the bits that are meant stay in the word. */
  lemma BitsShiftedIn(x: nat, y: nat, n: nat, m: nat)
    requires x < 0x1_0000_0000 && y < Pow2(m) && n + m <= 32
    ensures Bits(Shl(x, m) + y, n + m) == Bits(x, n) + Bits(y, m)
  {
    BitsOfShl(x, n, m);
    BitsPutBelow(Shl(x, m), y, Bits(x, n), m);
  }

  // ---------------------------------------------------------------------------
  // What the encoding is
  // ---------------------------------------------------------------------------

  /** The bits of a sequence of w-bit numbers. */
  function Stream(xs: seq<nat>, w: nat): seq<bool> {
    if xs == [] then [] else Stream(xs[..|xs| - 1], w) + Bits(xs[|xs| - 1], w)
  }

  lemma {:induction false} StreamLength(xs: seq<nat>, w: nat)
    ensures |Stream(xs, w)| == |xs| * w
  {
    if xs != [] {
      StreamLength(xs[..|xs| - 1], w);
      assert |xs| * w == (|xs| - 1) * w + w;
    }
  }

  function Letter(i: nat): char
    requires i < 32
  {
    if i < 26 then 'A' + i as char else '2' + (i - 26) as char
  }

  predicate InAlphabet(c: char) {
    'A' <= c <= 'Z' || '2' <= c <= '7'
  }

  function IndexOf(c: char): (r: nat)
    requires InAlphabet(c)
    ensures r < 32 && Letter(r) == c
  {
    if c <= '7' then (c - '2') as int + 26 else (c - 'A') as int
  }

  function Numbers(bytes: seq<byte>): (r: seq<nat>)
    ensures |r| == |bytes|
  {
    seq(|bytes|, i requires 0 <= i < |bytes| => bytes[i] as nat)
  }

  function Indexes(s: string): (r: seq<nat>)
    requires forall c :: c in s ==> InAlphabet(c)
    ensures |r| == |s|
  {
    seq(|s|, i requires 0 <= i < |s| => IndexOf(s[i]))
  }

  /** Section 6 of RFC 4648: the letters stand for the bits of the bytes, filled up with zeros to a whole letter. */
  ghost predicate Encodes(s: string, bytes: seq<byte>) {
    && (forall c :: c in s ==> InAlphabet(c))
    && exists k :: 0 <= k < 5 && Stream(Indexes(s), 5) == Stream(Numbers(bytes), 8) + Zeros(k)
  }

  /** The bytes whose bits the letters start with; bits left over, fewer than eight, are dropped. */
  ghost predicate Decodes(bytes: seq<byte>, s: string)
    requires forall c :: c in s ==> InAlphabet(c)
  {
    exists rest :: |rest| < 8 && Stream(Indexes(s), 5) == Stream(Numbers(bytes), 8) + rest
  }

  lemma StreamInjective(xs: seq<nat>, ys: seq<nat>, w: nat, rest: seq<bool>, more: seq<bool>)
    requires w > 0 && |rest| < w && |more| < w
    requires forall i :: 0 <= i < |xs| ==> xs[i] < Pow2(w)
    requires forall i :: 0 <= i < |ys| ==> ys[i] < Pow2(w)
    requires Stream(xs, w) + rest == Stream(ys, w) + more
    ensures xs == ys
  {
    StreamLength(xs, w);
    StreamLength(ys, w);
    SameQuotient(|xs|, |ys|, w, |rest|, |more|);
    var n := |xs| * w;
    assert Stream(xs, w) == (Stream(xs, w) + rest)[..n];
    assert Stream(ys, w) == (Stream(ys, w) + more)[..n];
    SameStream(xs, ys, w);
  }

  lemma {:induction false} Multiples(a: nat, b: nat, w: nat)
    requires a < b
    ensures a * w + w <= b * w
  {
    if a + 1 < b {
      Multiples(a, b - 1, w);
    }
  }

  lemma SameQuotient(a: nat, b: nat, w: nat, r: nat, s: nat)
    requires a * w + r == b * w + s && r < w && s < w
    ensures a == b
  {
    if a < b {
      Multiples(a, b, w);
    } else if b < a {
      Multiples(b, a, w);
    }
  }

  lemma SplitEqual(a: seq<bool>, b: seq<bool>, c: seq<bool>, d: seq<bool>)
    requires |a| == |c| && a + b == c + d
    ensures a == c && b == d
  {
    assert a == (a + b)[..|a|] && c == (c + d)[..|a|];
    assert b == (a + b)[|a|..] && d == (c + d)[|a|..];
  }

  lemma {:induction false} SameStream(xs: seq<nat>, ys: seq<nat>, w: nat)
    requires |xs| == |ys|
    requires forall i :: 0 <= i < |xs| ==> xs[i] < Pow2(w)
    requires forall i :: 0 <= i < |ys| ==> ys[i] < Pow2(w)
    requires Stream(xs, w) == Stream(ys, w)
    ensures xs == ys
  {
    if xs != [] {
      var k := |xs| - 1;
      StreamLength(xs[..k], w);
      StreamLength(ys[..k], w);
      SplitEqual(Stream(xs[..k], w), Bits(xs[k], w), Stream(ys[..k], w), Bits(ys[k], w));
      SameStream(xs[..k], ys[..k], w);
      ValueOfBits(xs[k], w);
      ValueOfBits(ys[k], w);
      assert xs == xs[..k] + [xs[k]] && ys == ys[..k] + [ys[k]];
    }
  }

  lemma SmallNumbers()
    ensures Pow2(8) == 256 && Pow2(5) == 32
  {
  }

  /** Bytes have one encoding. */
  lemma EncodingIsUnique(s: string, t: string, bytes: seq<byte>)
    requires Encodes(s, bytes) && Encodes(t, bytes)
    ensures s == t
  {
    SmallNumbers();
    StreamLength(Indexes(s), 5);
    StreamLength(Indexes(t), 5);
    StreamLength(Numbers(bytes), 8);
    var k :| 0 <= k < 5 && Stream(Indexes(s), 5) == Stream(Numbers(bytes), 8) + Zeros(k);
    var l :| 0 <= l < 5 && Stream(Indexes(t), 5) == Stream(Numbers(bytes), 8) + Zeros(l);
    SameQuotient(|s|, |t|, 5, l, k);
    assert k == l;
    StreamInjective(Indexes(s), Indexes(t), 5, [], []);
    forall i | 0 <= i < |s| ensures s[i] == t[i] {
      assert Indexes(s)[i] == Indexes(t)[i];
    }
  }

  /** Letters decode to one sequence of bytes. */
  lemma DecodingIsUnique(a: seq<byte>, b: seq<byte>, s: string)
    requires forall c :: c in s ==> InAlphabet(c)
    requires Decodes(a, s) && Decodes(b, s)
    ensures a == b
  {
    SmallNumbers();
    var rest :| |rest| < 8 && Stream(Indexes(s), 5) == Stream(Numbers(a), 8) + rest;
    var more :| |more| < 8 && Stream(Indexes(s), 5) == Stream(Numbers(b), 8) + more;
    StreamInjective(Numbers(a), Numbers(b), 8, rest, more);
    forall i | 0 <= i < |a| ensures a[i] == b[i] {
      assert Numbers(a)[i] == Numbers(b)[i];
    }
  }

  // ---------------------------------------------------------------------------
  // Encoding
  // ---------------------------------------------------------------------------

  lemma StreamOfMore(xs: seq<nat>, x: nat, w: nat)
    ensures Stream(xs + [x], w) == Stream(xs, w) + Bits(x, w)
  {
    assert (xs + [x])[..|xs|] == xs;
  }

  lemma PrefixGrows<T>(s: seq<T>, k: nat)
    requires k < |s|
    ensures s[..k + 1] == s[..k] + [s[k]]
  {
  }

  lemma LetterAdded(s: string, i: nat)
    requires i < 32 && forall c :: c in s ==> InAlphabet(c)
    ensures Stream(Indexes(s + [Letter(i)]), 5) == Stream(Indexes(s), 5) + Bits(i, 5)
  {
    assert Indexes(s + [Letter(i)]) == Indexes(s) + [i];
    StreamOfMore(Indexes(s), i, 5);
  }

  /** The n low bits of a word: its five highest as a number, and the rest. */
  lemma HighFive(word: nat, n: nat)
    requires n >= 5
    ensures Bits(word, n) == Bits(Shr(word, n - 5) % 32, 5) + Bits(word, n - 5)
  {
    BitsSplit(word, 5, n - 5);
    LowFive(Shr(word, n - 5));
  }

  lemma HighEight(word: nat, n: nat)
    requires n >= 8
    ensures Bits(word, n) == Bits(Shr(word, n - 8) % 256, 8) + Bits(word, n - 8)
  {
    BitsSplit(word, 8, n - 8);
    LowEight(Shr(word, n - 8));
  }

  /** The letter for the five highest of the n low bits of the word. */
  lemma LetterTaken(out: string, word: nat, n: nat)
    requires n >= 5 && forall c :: c in out ==> InAlphabet(c)
    ensures Stream(Indexes(out + [Letter(Shr(word, n - 5) % 32)]), 5) + Bits(word, n - 5)
      == Stream(Indexes(out), 5) + Bits(word, n)
  {
    var i := Shr(word, n - 5) % 32;
    HighFive(word, n);
    LetterAdded(out, i);
    Associative(Stream(Indexes(out), 5), Bits(i, 5), Bits(word, n - 5));
  }

  lemma LowFive(x: nat)
    ensures Bits(x % 32, 5) == Bits(x, 5)
  {
    BitsOfSum(x / 32, x % 32, 0, 5);
  }

  lemma LowEight(x: nat)
    ensures Bits(x % 256, 8) == Bits(x, 8)
  {
    SmallNumbers();
    BitsOfSum(x / 256, x % 256, 0, 8);
  }

  lemma NumbersOfMore(bytes: seq<byte>, b: byte)
    ensures Stream(Numbers(bytes + [b]), 8) == Stream(Numbers(bytes), 8) + Bits(b as nat, 8)
  {
    assert Numbers(bytes + [b]) == Numbers(bytes) + [b as nat];
    StreamOfMore(Numbers(bytes), b as nat, 8);
  }

  /** The letters so far and the bits still waiting in the word are all the bits of the bytes so far. */
  ghost predicate Encoding(output: string, value: nat, bits: nat, bytes: seq<byte>) {
    && value < 0x1_0000_0000
    && (forall c :: c in output ==> InAlphabet(c))
    && Stream(Indexes(output), 5) + Bits(value, bits) == Stream(Numbers(bytes), 8)
  }

  lemma EncodingTakesByte(output: string, value: nat, bits: nat, buffer: seq<byte>, k: nat, next: nat, more: nat)
    requires k < |buffer| && Encoding(output, value, bits, buffer[..k])
    requires next < 0x1_0000_0000 && Bits(next, more) == Bits(value, bits) + Bits(buffer[k] as nat, 8)
    ensures Encoding(output, next, more, buffer[..k + 1])
  {
    PrefixGrows(buffer, k);
    NumbersOfMore(buffer[..k], buffer[k]);
    Associative(Stream(Indexes(output), 5), Bits(value, bits), Bits(buffer[k] as nat, 8));
  }

  lemma EncodingTakesLetter(output: string, value: nat, bits: nat, bytes: seq<byte>)
    requires bits >= 5 && Encoding(output, value, bits, bytes)
    ensures Encoding(output + [Letter(Shr(value, bits - 5) % 32)], value, bits - 5, bytes)
  {
    LetterTaken(output, value, bits);
  }

  lemma Associative(a: seq<bool>, b: seq<bool>, c: seq<bool>)
    ensures a + (b + c) == a + b + c
  {
  }

  method ToBase32(buffer: seq<byte>) returns (output: string)
    ensures Encodes(output, buffer)
  {
    var bits: nat, value: nat := 0, 0;
    output := "";
    for k := 0 to |buffer|
      invariant bits < 5 && Encoding(output, value, bits, buffer[..k])
    {
      ghost var before := value;
      value := ShiftIn(value, 8, buffer[k] as nat, bits);
      EncodingTakesByte(output, before, bits, buffer, k, value, bits + 8);
      bits := bits + 8;
      while bits >= 5
        invariant bits < 13 && Encoding(output, value, bits, buffer[..k + 1])
      {
        EncodingTakesLetter(output, value, bits, buffer[..k + 1]);
        output := output + [Letter(Shr(value, bits - 5) % 32)];
        bits := bits - 5;
      }
    }
    assert buffer[..|buffer|] == buffer;
    EncodingEnds(output, value, bits, buffer);
    if bits > 0 {
      output := output + [Letter(Shl(value, 5 - bits) % 32)];
    }
  }

  lemma EncodingEnds(output: string, value: nat, bits: nat, bytes: seq<byte>)
    requires bits < 5 && Encoding(output, value, bits, bytes)
    ensures bits == 0 ==> Encodes(output, bytes)
    ensures bits > 0 ==> Encodes(output + [Letter(Shl(value, 5 - bits) % 32)], bytes)
  {
    if bits == 0 {
      assert Stream(Indexes(output), 5) == Stream(Numbers(bytes), 8) + Zeros(0);
    } else {
      var word := Shl(value, 5 - bits);
      BitsOfShl(value, bits, 5 - bits);
      LetterTaken(output, word, 5);
      Associative(Stream(Indexes(output), 5), Bits(value, bits), Zeros(5 - bits));
      EncodesFilled(output + [Letter(word % 32)], bytes, 5 - bits);
    }
  }

  lemma EncodesFilled(s: string, bytes: seq<byte>, k: nat)
    requires k < 5 && forall c :: c in s ==> InAlphabet(c)
    requires Stream(Indexes(s), 5) == Stream(Numbers(bytes), 8) + Zeros(k)
    ensures Encodes(s, bytes)
  {
  }

  /** The word shifted left by k bits, with a k-bit number in the place made free. */
  method ShiftIn(word: nat, k: nat, x: nat, ghost n: nat) returns (r: nat)
    requires word < 0x1_0000_0000 && n + k <= 32
    requires (k == 8 && x < 256) || (k == 5 && x < 32)
    ensures r < 0x1_0000_0000
    ensures Bits(r, n + k) == Bits(word, n) + Bits(x, k)
  {
    SmallNumbers();
    ShlFits(word, k, x, 31);
    BitsShiftedIn(word, x, n, k);
    r := Shl(word, k) + x;
  }

  lemma ShlFits(word: nat, k: nat, x: nat, top: nat)
    requires word < 0x1_0000_0000 && k <= 8 && x < Pow2(k) && 30 < top < 32
    ensures Shl(word, k) + x < 0x1_0000_0000
  {
    WordSize(top);
    BitsOfShl(word, top + 1 - k, k);
    BitsSplit(Shl(word, k), top + 1 - k, k);
    SplitEqual(Bits(Shr(Shl(word, k), k), top + 1 - k), Bits(Shl(word, k), k), Bits(word, top + 1 - k), Zeros(k));
    PutBelowFits(Shl(word, k), x, top + 1 - k, k);
  }

  // ---------------------------------------------------------------------------
  // Decoding
  // ---------------------------------------------------------------------------

  /** Space, tab, line ends, and the other white space of Unicode. */
  predicate White(c: char) {
    c == ' ' || ('\t' <= c <= '\r') || c == '\U{00A0}' || c == '\U{1680}' || '\U{2000}' <= c <= '\U{200A}'
    || c == '\U{2028}' || c == '\U{2029}' || c == '\U{202F}' || c == '\U{205F}' || c == '\U{3000}' || c == '\U{FEFF}'
  }

  /** Upper-casing turns a character into one or more; what already is a capital, a digit or a space stays. */
  ghost predicate Uppercasing(upper: char -> string) {
    forall c :: InAlphabet(c) || c == ' ' ==> upper(c) == [c]
  }

  function ToUpper(upper: char -> string, s: string): string {
    if s == [] then [] else upper(s[0]) + ToUpper(upper, s[1..])
  }

  function WithoutSeparators(s: string): string {
    if s == [] then [] else (if White(s[0]) || s[0] == '-' then [] else [s[0]]) + WithoutSeparators(s[1..])
  }

  function WithoutPadding(s: string): string {
    if s != [] && s[|s| - 1] == '=' then WithoutPadding(s[..|s| - 1]) else s
  }

  /** The letters of a secret as someone typed it: in groups, in small letters, with padding. */
  function Clean(upper: char -> string, input: string): string {
    WithoutPadding(WithoutSeparators(ToUpper(upper, input)))
  }

  /** What decoding answers: the bytes the letters start with, or the first character that is no letter. */
  ghost predicate Answers(clean: string, r: Result<seq<byte>, char>) {
    match r
    case Ok(bytes) => (forall c :: c in clean ==> InAlphabet(c)) && Decodes(bytes, clean)
    case Err(c) =>
      exists i :: 0 <= i < |clean| && clean[i] == c && !InAlphabet(c) && forall d :: d in clean[..i] ==> InAlphabet(d)
  }

  /** The bytes so far and the bits still waiting are all the bits of the letters so far. */
  ghost predicate Decoding(bytes: seq<byte>, waiting: seq<bool>, s: string) {
    && (forall c :: c in s ==> InAlphabet(c))
    && Stream(Numbers(bytes), 8) + waiting == Stream(Indexes(s), 5)
  }

  lemma DecodingTakesLetter(bytes: seq<byte>, waiting: seq<bool>, s: string, k: nat, index: nat)
    requires k < |s| && Decoding(bytes, waiting, s[..k]) && index < 32 && s[k] == Letter(index)
    ensures Decoding(bytes, waiting + Bits(index, 5), s[..k + 1])
  {
    PrefixGrows(s, k);
    LetterAdded(s[..k], index);
    Associative(Stream(Numbers(bytes), 8), waiting, Bits(index, 5));
  }

  lemma DecodingGivesByte(bytes: seq<byte>, b: byte, waiting: seq<bool>, s: string)
    requires Decoding(bytes, Bits(b as nat, 8) + waiting, s)
    ensures Decoding(bytes + [b], waiting, s)
  {
    NumbersOfMore(bytes, b);
    Associative(Stream(Numbers(bytes), 8), Bits(b as nat, 8), waiting);
  }

  /** The eight highest of the bits waiting in the word, as soon as there are so many. */
  method TakeByte(bytes: seq<byte>, value: nat, bits: nat, ghost s: string) returns (more: seq<byte>, left: nat)
    requires value < 0x1_0000_0000 && bits < 13 && Decoding(bytes, Bits(value, bits), s)
    ensures left < 8 && Decoding(more, Bits(value, left), s)
  {
    more, left := bytes, bits;
    if bits >= 8 {
      var b := (Shr(value, bits - 8) % 256) as byte;
      HighEight(value, bits);
      DecodingGivesByte(bytes, b, Bits(value, bits - 8), s);
      more, left := bytes + [b], bits - 8;
    }
  }

  method FromBase32(upper: char -> string, input: string) returns (r: Result<seq<byte>, char>)
    ensures Answers(Clean(upper, input), r)
  {
    var clean := Clean(upper, input);
    var bits: nat, value: nat := 0, 0;
    var bytes: seq<byte> := [];
    for k := 0 to |clean|
      invariant bits < 8 && value < 0x1_0000_0000 && Decoding(bytes, Bits(value, bits), clean[..k])
    {
      if !InAlphabet(clean[k]) {
        FirstBad(clean, k);
        return Err(clean[k]);
      }
      var index := IndexOf(clean[k]);
      DecodingTakesLetter(bytes, Bits(value, bits), clean, k, index);
      value := ShiftIn(value, 5, index, bits);
      bytes, bits := TakeByte(bytes, value, bits + 5, clean[..k + 1]);
    }
    DecodingEnds(bytes, Bits(value, bits), clean[..|clean|]);
    assert clean[..|clean|] == clean;
    r := Ok(bytes);
  }

  lemma FirstBad(clean: string, k: nat)
    requires k < |clean| && !InAlphabet(clean[k])
    requires forall d :: d in clean[..k] ==> InAlphabet(d)
    ensures Answers(clean, Err(clean[k]))
  {
  }

  lemma DecodingEnds(bytes: seq<byte>, waiting: seq<bool>, s: string)
    requires |waiting| < 8 && Decoding(bytes, waiting, s)
    ensures Answers(s, Ok(bytes))
  {
  }

  // ---------------------------------------------------------------------------
  // Round trips
  // ---------------------------------------------------------------------------

  /** Letters in groups of four, a space after each group. */
  function Grouped(s: string): string {
    if |s| < 4 then s else s[..4] + " " + Grouped(s[4..])
  }

  function TrimStart(s: string): string {
    if s != [] && White(s[0]) then TrimStart(s[1..]) else s
  }

  function TrimEnd(s: string): string {
    if s != [] && White(s[|s| - 1]) then TrimEnd(s[..|s| - 1]) else s
  }

  function Display(letters: string): string {
    TrimEnd(TrimStart(Grouped(letters)))
  }

  predicate Letters(s: string) {
    forall c :: c in s ==> InAlphabet(c)
  }

  predicate LettersAndSpaces(s: string) {
    forall c :: c in s ==> InAlphabet(c) || c == ' '
  }

  lemma {:induction false} UpperStays(upper: char -> string, s: string)
    requires Uppercasing(upper) && LettersAndSpaces(s)
    ensures ToUpper(upper, s) == s
  {
    if s != [] {
      assert s[0] in s;
      UpperStays(upper, s[1..]);
    }
  }

  lemma {:induction false} SeparatorsOfConcat(a: string, b: string)
    ensures WithoutSeparators(a + b) == WithoutSeparators(a) + WithoutSeparators(b)
  {
    if a != [] {
      assert (a + b)[1..] == a[1..] + b;
      SeparatorsOfConcat(a[1..], b);
    } else {
      assert a + b == b;
    }
  }

  lemma {:induction false} LettersStay(s: string)
    requires Letters(s)
    ensures WithoutSeparators(s) == s && WithoutPadding(s) == s
  {
    if s != [] {
      assert s[0] in s && s[|s| - 1] in s;
      LettersStay(s[1..]);
    }
  }

  lemma {:induction false} GroupedSame(s: string)
    requires Letters(s)
    ensures LettersAndSpaces(Grouped(s)) && WithoutSeparators(Grouped(s)) == s
  {
    if |s| < 4 {
      LettersStay(s);
    } else {
      GroupedSame(s[4..]);
      LettersStay(s[..4]);
      SeparatorsOfConcat(s[..4] + " ", Grouped(s[4..]));
      SeparatorsOfConcat(s[..4], " ");
      assert WithoutSeparators(" ") == [];
      assert s == s[..4] + s[4..];
    }
  }

  lemma {:induction false} TrimmedSame(s: string)
    requires LettersAndSpaces(s)
    ensures LettersAndSpaces(TrimStart(s)) && WithoutSeparators(TrimStart(s)) == WithoutSeparators(s)
    ensures LettersAndSpaces(TrimEnd(s)) && WithoutSeparators(TrimEnd(s)) == WithoutSeparators(s)
  {
    if s != [] {
      var init, last := s[..|s| - 1], s[|s| - 1];
      if White(s[0]) {
        TrimmedSame(s[1..]);
      }
      if White(last) {
        TrimmedSame(init);
        assert s == init + [last];
        SeparatorsOfConcat(init, [last]);
        assert WithoutSeparators([last]) == [];
      }
    }
  }

  /** Every fifth character is a space, and all others are letters. */
  ghost predicate InFours(s: string) {
    forall i :: 0 <= i < |s| ==> if i % 5 == 4 then s[i] == ' ' else InAlphabet(s[i])
  }

  lemma LettersAreSeen(c: char)
    ensures InAlphabet(c) ==> !White(c)
    ensures White(' ')
  {
  }

  lemma FourMore(four: string, rest: string)
    requires |four| == 4 && Letters(four) && InFours(rest)
    ensures InFours(four + " " + rest)
  {
    var s := four + " " + rest;
    forall i | 0 <= i < |s| ensures if i % 5 == 4 then s[i] == ' ' else InAlphabet(s[i]) {
      if i < 4 {
        assert s[i] == four[i] && four[i] in four;
      } else if i > 4 {
        assert s[i] == rest[i - 5];
        assert (i - 5) % 5 == i % 5;
      }
    }
  }

  lemma {:induction false} GroupedInFours(s: string)
    requires Letters(s)
    ensures InFours(Grouped(s))
  {
    if |s| < 4 {
      assert forall i :: 0 <= i < |s| ==> s[i] in s;
    } else {
      GroupedInFours(s[4..]);
      FourMore(s[..4], Grouped(s[4..]));
    }
  }

  lemma NothingTrimmedAtStart(s: string)
    requires InFours(s)
    ensures TrimStart(s) == s
  {
    if s != "" {
      LettersAreSeen(s[0]);
    }
  }

  /** Of the last group only the space behind it goes. */
  lemma SpaceTrimmed(s: string)
    requires InFours(s)
    ensures TrimEnd(s) == if s != "" && s[|s| - 1] == ' ' then s[..|s| - 1] else s
  {
    if s != "" {
      var init := s[..|s| - 1];
      LettersAreSeen(s[|s| - 1]);
      if s[|s| - 1] == ' ' {
        assert !InAlphabet(' ');
        assert InAlphabet(s[|s| - 2]) && init[|init| - 1] == s[|s| - 2];
        LettersAreSeen(init[|init| - 1]);
        assert TrimEnd(init) == init;
      }
    }
  }

  /** A secret is shown in groups of four letters with one space between each two, and none at either end. */
  lemma DisplayInFours(letters: string)
    requires Letters(letters)
    ensures InFours(Display(letters))
    ensures Display(letters) != "" ==> Display(letters)[|Display(letters)| - 1] != ' '
    ensures WithoutSeparators(Display(letters)) == letters
  {
    var s := Grouped(letters);
    GroupedInFours(letters);
    NothingTrimmedAtStart(s);
    SpaceTrimmed(s);
    LastIsLetter(s);
    GroupedSame(letters);
    TrimmedSame(s);
  }

  lemma LastIsLetter(s: string)
    requires InFours(s)
    ensures var r := if s != "" && s[|s| - 1] == ' ' then s[..|s| - 1] else s;
            InFours(r) && (r != "" ==> r[|r| - 1] != ' ')
  {
    if s != "" && s[|s| - 1] == ' ' {
      assert !InAlphabet(' ') && (|s| - 1) % 5 == 4;
      assert InAlphabet(s[|s| - 2]);
    }
  }

  /** A secret, as it is stored and as it is shown, is read back as its letters. */
  lemma CleanUndoesDisplay(upper: char -> string, letters: string)
    requires Uppercasing(upper) && Letters(letters)
    ensures Clean(upper, letters) == letters
    ensures Clean(upper, Display(letters)) == letters
  {
    LettersStay(letters);
    UpperStays(upper, letters);
    GroupedSame(letters);
    TrimmedSame(Grouped(letters));
    TrimmedSame(TrimStart(Grouped(letters)));
    UpperStays(upper, Display(letters));
  }

  /** Every sequence of bytes comes back from its letters, and from the letters as they are shown. */
  lemma RoundTrip(upper: char -> string, bytes: seq<byte>, letters: string, r: Result<seq<byte>, char>)
    requires Uppercasing(upper) && Encodes(letters, bytes)
    requires Answers(Clean(upper, letters), r) || Answers(Clean(upper, Display(letters)), r)
    ensures r == Ok(bytes)
  {
    CleanUndoesDisplay(upper, letters);
    var k :| 0 <= k < 5 && Stream(Indexes(letters), 5) == Stream(Numbers(bytes), 8) + Zeros(k);
    assert Decodes(bytes, letters);
    if r.Ok? {
      DecodingIsUnique(r.value, bytes, letters);
    }
  }

  lemma OneBitMore(x: nat, n: nat, bit: bool)
    ensures Bits(2 * x + (if bit then 1 else 0), n + 1) == Bits(x, n) + [bit]
  {
  }

  /** The bits of 'M', the 13th letter, and of the byte of "f" begin alike. */
  lemma BitsOfM()
    ensures Bits(12, 5) == [false, true, true, false, false]
    ensures Bits(0x66, 8) == [false, true, true, false, false, true, true, false]
  {
    OneBitMore(0, 0, false);
    OneBitMore(0, 1, true);
    OneBitMore(1, 2, true);
    OneBitMore(3, 3, false);
    OneBitMore(6, 4, false);
    OneBitMore(12, 5, true);
    OneBitMore(25, 6, true);
    OneBitMore(51, 7, false);
  }

  lemma BitsOfY()
    ensures Bits(24, 5) == [true, true, false, false, false]
  {
    OneBitMore(0, 0, true);
    OneBitMore(1, 1, true);
    OneBitMore(3, 2, false);
    OneBitMore(6, 3, false);
    OneBitMore(12, 4, false);
  }

  /** The first example of section 10 of RFC 4648 that is not empty, without its padding: "f". */
  lemma EncodedExample()
    ensures Encodes("MY", [0x66])
  {
    BitsOfM();
    BitsOfY();
    var letters, numbers := Indexes("MY"), Numbers([0x66]);
    assert letters == [12, 24] && numbers == [0x66];
    assert letters[..1] == [12] && [12][..0] == [] && numbers[..0] == [];
    assert Stream([12], 5) == [] + Bits(12, 5);
    assert Stream(letters, 5) == Stream([12], 5) + Bits(24, 5);
    assert Stream(numbers, 8) == [] + Bits(0x66, 8);
    assert Stream(letters, 5) == Stream(numbers, 8) + Zeros(2);
  }
}
