/** The variable-width big-endian numbers every frame is built from: correlations, channels and quota
    amounts. `Serialize` and `ToNumber` keep the loops of the source; `BigEndian` and `Value` are what
    they are proved against. */
module Numbers {

  type byte = b: int | 0 <= b < 256

  /** Largest correlation and channel number: 2^53 - 1. */
  const MAX_CORRELATION: int := 0x1F_FFFF_FFFF_FFFF

  function Pow256(n: nat): (p: nat)
    ensures p >= 1
  {
    if n == 0 then 1 else 256 * Pow256(n - 1)
  }

  /** The positional value of a byte string, most significant byte first. */
  function Value(s: seq<byte>): nat {
    Prefix(s, |s|)
  }

  /** The value of the first `n` bytes. */
  function Prefix(s: seq<byte>, n: nat): nat
    requires n <= |s|
  {
    if n == 0 then 0 else Prefix(s, n - 1) * 256 + s[n - 1]
  }

  lemma {:induction false} PrefixOfSlice(s: seq<byte>, m: nat, n: nat)
    requires n <= m <= |s|
    ensures Prefix(s[..m], n) == Prefix(s, n)
  {
    if n > 0 {
      PrefixOfSlice(s, m, n - 1);
    }
  }

  /** One more digit at the end. */
  lemma ValueAppend(s: seq<byte>, b: byte)
    ensures Value(s + [b]) == Value(s) * 256 + b
  {
    PrefixOfSlice(s + [b], |s|, |s|);
    assert (s + [b])[..|s|] == s;
  }

  /** The shortest byte string with a given value. */
  function BigEndian(v: nat): seq<byte> {
    if v < 256 then [v] else BigEndian(v / 256) + [v % 256]
  }

  /** What the loop emits for any `int`: a negative value never enters the loop, so only its lowest byte is kept. */
  function IntBytes(v: int): seq<byte> {
    if v < 0 then [v % 256] else BigEndian(v)
  }

  /** No leading zero, except that zero itself is one zero byte. */
  predicate Canonical(s: seq<byte>) {
    |s| >= 1 && (|s| > 1 ==> s[0] != 0)
  }

  lemma {:induction false} Pow256Monotone(m: nat, n: nat)
    requires m <= n
    ensures Pow256(m) <= Pow256(n)
    decreases n
  {
    if m < n {
      Pow256Monotone(m, n - 1);
    }
  }

  /** The byte at place `j`, counted from the least significant end. */
  function Digit(v: int, j: nat): byte
    decreases j
  {
    if j == 0 then v % 256 else Digit(v / 256, j - 1)
  }

  /** The quotient the source computes for place `j` is that byte. */
  lemma {:induction false} DigitIsQuotient(v: int, j: nat)
    ensures (v / Pow256(j)) % 256 == Digit(v, j)
    decreases j
  {
    if j > 0 {
      DigitIsQuotient(v / 256, j - 1);
      DivPow256(v, j - 1);
    }
  }

  lemma DivPow256(v: int, j: nat)
    ensures (v / 256) / Pow256(j) == v / Pow256(j + 1)
  {
    var p := Pow256(j);
    var q := v / (256 * p);
    var r := v % (256 * p);
    assert v == 256 * (q * p) + r by {
      assert v == (256 * p) * q + r;
      assert (256 * p) * q == 256 * (q * p);
    }
    assert v / 256 == q * p + r / 256;
    assert r / 256 < p;
    QuotientUnique(v / 256, p, q, r / 256);
  }

  lemma QuotientUnique(x: int, p: nat, q: int, r: int)
    requires p > 0 && x == q * p + r && 0 <= r < p
    ensures x / p == q
  {
    var d := x / p - q;
    assert x == p * (x / p) + x % p;
    assert d * p == r - x % p by {
      assert (x / p - q) * p == p * (x / p) - q * p;
    }
    assert d >= 1 ==> d * p >= p;
    assert d <= -1 ==> d * p <= -(p as int);
  }

  /** The digits of `BigEndian`, read from the least significant end. */
  lemma {:induction false} BigEndianDigits(v: nat, n: nat)
    requires n >= 1 && v < Pow256(n) && (n > 1 ==> Pow256(n - 1) <= v)
    ensures |BigEndian(v)| == n
    ensures forall j :: 0 <= j < n ==> BigEndian(v)[n - 1 - j] == Digit(v, j)
    decreases n
  {
    if n == 1 {
      assert Pow256(1) == 256 * Pow256(0);
    } else {
      Pow256Monotone(1, n - 1);
      assert Pow256(1) == 256 * Pow256(0);
      assert Pow256(n) == 256 * Pow256(n - 1);
      assert n > 2 ==> Pow256(n - 1) == 256 * Pow256(n - 2);
      BigEndianDigits(v / 256, n - 1);
      forall j | 0 <= j < n
        ensures BigEndian(v)[n - 1 - j] == Digit(v, j)
      {
        if j > 0 {
          assert BigEndian(v / 256)[n - 2 - (j - 1)] == Digit(v / 256, j - 1);
        }
      }
    }
  }

  /** Every number has a width: the least `n` with `v < 256^n`. */
  lemma {:induction false} BigEndianWidth(v: nat, n: nat)
    requires n >= 1 && v < Pow256(n)
    ensures 1 <= |BigEndian(v)| <= n
    decreases n
  {
    if v >= 256 {
      assert Pow256(n) == 256 * Pow256(n - 1);
      BigEndianWidth(v / 256, n - 1);
    }
  }

  /** A correlation takes 1 to 7 bytes, minimal, and decodes to itself. */
  lemma CorrelationRoundTrip(v: nat)
    requires v <= MAX_CORRELATION
    ensures 1 <= |BigEndian(v)| <= 7
    ensures Canonical(BigEndian(v)) && (BigEndian(v)[0] == 0 <==> v == 0)
    ensures Value(BigEndian(v)) == v
  {
    assert Pow256(7) > MAX_CORRELATION by {
      assert Pow256(3) == 0x100_0000;
      assert Pow256(5) == 0x100_0000_0000;
      assert Pow256(7) == 0x100_0000_0000_0000;
    }
    BigEndianWidth(v, 7);
    ValueBigEndian(v);
  }

  /** Encoding then decoding is the identity on every natural number, and the encoding is canonical. */
  lemma {:induction false} ValueBigEndian(v: nat)
    ensures Value(BigEndian(v)) == v && Canonical(BigEndian(v))
    ensures BigEndian(v)[0] == 0 <==> v == 0
  {
    if v >= 256 {
      ValueBigEndian(v / 256);
      ValueAppend(BigEndian(v / 256), v % 256);
    } else {
      ValueAppend([], v);
      assert [] + [v] == [v];
    }
  }

  /** Decoding then encoding is the identity on exactly the canonical byte strings. */
  lemma {:induction false} BigEndianValue(s: seq<byte>)
    ensures BigEndian(Value(s)) == s <==> Canonical(s)
  {
    if Canonical(s) {
      BigEndianOfCanonical(s);
    } else {
      ValueBigEndian(Value(s));
    }
  }

  lemma {:induction false} BigEndianOfCanonical(s: seq<byte>)
    requires Canonical(s)
    ensures BigEndian(Value(s)) == s
    ensures |s| > 1 ==> Value(s) >= 256
    ensures Value(s) == 0 <==> s == [0]
  {
    var init, last := s[..|s| - 1], s[|s| - 1];
    assert s == init + [last];
    ValueAppend(init, last);
    if |s| > 1 {
      assert Canonical(init);
      BigEndianOfCanonical(init);
      assert init[0] == s[0];
      assert Value(init) >= 1;
    }
  }

  /** A quota amount survives its frame exactly when it is not negative. */
  lemma IntRoundTrip(v: int)
    ensures Value(IntBytes(v)) == v <==> v >= 0
  {
    if v >= 0 {
      ValueBigEndian(v);
    }
  }

  /** `serializeCorrelation` and `serializeInt`: low byte first, one more byte while the next power of 256
      still fits, then a reversal. Above 2^53 - 1 the float quotient of the source is no longer exact. */
  method Serialize(value: int) returns (result: seq<byte>)
    requires value <= MAX_CORRELATION
    ensures result == IntBytes(value)
  {
    result := [value % 256];
    var i := 1;
    assert Pow256(0) == 1 && Pow256(1) == 256;
    while Pow256(i) <= value
      invariant 1 <= i == |result|
      invariant i > 1 ==> Pow256(i - 1) <= value
      invariant forall j :: 0 <= j < i ==> result[j] == Digit(value, j)
      decreases value - Pow256(i)
    {
      DigitIsQuotient(value, i);
      result := result + [(value / Pow256(i)) % 256];
      i := i + 1;
      assert Pow256(i) == 256 * Pow256(i - 1);
    }
    if value >= 0 {
      BigEndianDigits(value, i);
    }
    if i > 1 {
      result := Reversed(result);
      forall j | 0 <= j < i ensures result[j] == BigEndian(value)[j] {
        assert BigEndian(value)[i - 1 - (i - 1 - j)] == Digit(value, i - 1 - j);
      }
    }
  }

  /** The reversal into a second slice that ends both encoders. */
  method Reversed(s: seq<byte>) returns (r: seq<byte>)
    ensures |r| == |s| && forall j :: 0 <= j < |s| ==> r[j] == s[|s| - 1 - j]
  {
    var len := |s|;
    var result1 := new byte[len];
    for i := 0 to len
      invariant forall j :: len - i <= j < len ==> result1[j] == s[len - 1 - j]
    {
      result1[len - 1 - i] := s[i];
    }
    r := result1[..];
  }

  /** Taking one more digit, with every digit weighted by its place. */
  lemma AppendDigit(s: seq<byte>, i: nat)
    requires i < |s|
    ensures Prefix(s, i + 1) * Pow256(|s| - 1 - i) == Prefix(s, i) * Pow256(|s| - i) + s[i] * Pow256(|s| - 1 - i)
  {
    var p := Pow256(|s| - 1 - i);
    var prefix := Prefix(s, i);
    assert Pow256(|s| - i) == 256 * p;
    calc {
      Prefix(s, i + 1) * p;
      (prefix * 256 + s[i]) * p;
      (prefix * 256) * p + s[i] * p;
      prefix * (256 * p) + s[i] * p;
    }
  }

  /** The first `n` bytes, each times the power of 256 of its place. */
  function Weighted(s: seq<byte>, n: nat): nat
    requires n <= |s|
  {
    if n == 0 then 0 else Weighted(s, n - 1) + s[n - 1] * Pow256(|s| - n)
  }

  lemma {:induction false} WeightedIsPrefix(s: seq<byte>, n: nat)
    requires n <= |s|
    ensures Weighted(s, n) == Prefix(s, n) * Pow256(|s| - n)
    decreases n
  {
    if n > 0 {
      WeightedIsPrefix(s, n - 1);
      AppendDigit(s, n - 1);
    }
  }

  /** `sliceToCorrelation`, and `sliceToInt` for up to 7 bytes: each byte times its power of 256. Longer slices
      overflow the 64 bits of the source, unsigned in the one and signed in the other. */
  method ToNumber(sl: seq<byte>) returns (res: nat)
    requires |sl| <= 8
    ensures res == Value(sl)
  {
    res := 0;
    for i := 0 to |sl|
      invariant res == Weighted(sl, i)
    {
      res := res + sl[i] * Pow256(|sl| - 1 - i);
    }
    WeightedIsPrefix(sl, |sl|);
  }
}
