/** Fixed-width base-62 rendering of naturals (keyfile/token.go, encodeBase62). */
module Base62 {

  const ALPHABET: string :=
    "0123456789" + "ABCDEFGHIJKLMNOPQRSTUVWXYZ" + "abcdefghijklmnopqrstuvwxyz"
  const RADIX: nat := 62

  function Pow(b: nat, e: nat): nat
  {
    if e == 0 then 1 else b * Pow(b, e - 1)
  }

  predicate IsDigit(c: char) {
    '0' <= c <= '9' || 'A' <= c <= 'Z' || 'a' <= c <= 'z'
  }

  predicate IsNumeral(s: string) {
    forall i :: 0 <= i < |s| ==> IsDigit(s[i])
  }

  /** The digit of value `v`: the alphabet is three runs of consecutive characters. */
  function Digit(v: nat): (c: char)
    requires v < RADIX
    ensures IsDigit(c)
  {
    if v < 10 then '0' + v as char
    else if v < 36 then 'A' + (v - 10) as char
    else 'a' + (v - 36) as char
  }

  function DigitValue(c: char): (v: nat)
    requires IsDigit(c)
    ensures v < RADIX && Digit(v) == c
  {
    if c <= '9' then (c - '0') as nat
    else if c <= 'Z' then (c - 'A') as nat + 10
    else (c - 'a') as nat + 36
  }

  lemma AlphabetDigit(v: nat)
    requires v < RADIX
    ensures |ALPHABET| == RADIX && ALPHABET[v] == Digit(v)
    ensures DigitValue(Digit(v)) == v
  {
    assert "0123456789" == seq(10, d requires 0 <= d < 10 => Digit(d));
    assert "ABCDEFGHIJKLMNOPQRSTUVWXYZ" == seq(26, d requires 0 <= d < 26 => Digit(d + 10));
    assert "abcdefghijklmnopqrstuvwxyz" == seq(26, d requires 0 <= d < 26 => Digit(d + 36));
  }

  /** `strings.IndexByte(base62, c) >= 0` is membership in the alphabet. */
  lemma InAlphabet(c: char)
    ensures c in ALPHABET <==> IsDigit(c)
  {
    AlphabetDigit(0);
    if IsDigit(c) {
      AlphabetDigit(DigitValue(c));
    } else if c in ALPHABET {
      var v :| 0 <= v < |ALPHABET| && ALPHABET[v] == c;
      AlphabetDigit(v);
    }
  }

  /** Positional value of a numeral, most significant digit first. */
  function Decode(s: string): nat
    requires IsNumeral(s)
  {
    if s == [] then 0 else Decode(s[..|s| - 1]) * RADIX + DigitValue(s[|s| - 1])
  }

  /** What the digit buffer holds when `width` digits of `n` have been written. */
  function Encode(n: nat, width: nat): string
  {
    if width == 0 then "" else Encode(n / RADIX, width - 1) + [Digit(n % RADIX)]
  }

  lemma {:induction false} EncodeShape(n: nat, width: nat)
    ensures |Encode(n, width)| == width && IsNumeral(Encode(n, width))
  {
    if width > 0 {
      EncodeShape(n / RADIX, width - 1);
      AlphabetDigit(n % RADIX);
    }
  }

  lemma {:induction false} EncodeZero(width: nat, zeros: string)
    requires |zeros| == width && forall i :: 0 <= i < width ==> zeros[i] == '0'
    ensures Encode(0, width) == zeros
  {
    if width > 0 {
      EncodeZero(width - 1, zeros[..width - 1]);
      assert Digit(0) == '0';
      assert zeros == zeros[..width - 1] + [zeros[width - 1]];
    }
  }

  lemma EncodeStep(n: nat, width: nat, tail: string)
    ensures Encode(n, width + 1) + tail == Encode(n / RADIX, width) + ([Digit(n % RADIX)] + tail)
  {
    Regroup(Encode(n / RADIX, width), Digit(n % RADIX), tail);
  }

  lemma Regroup(front: string, c: char, tail: string)
    ensures front + [c] + tail == front + ([c] + tail)
  {
  }

  /** The in-place loop: the buffer starts as all zeros and is filled from the right
      while `n` is divided down; the loop also stops early once `n` reaches 0. */
  method EncodeBase62(n: nat, width: nat) returns (s: string)
    ensures s == Encode(n, width)
  {
    AlphabetDigit(0);
    var digits := new char[width](_ => ALPHABET[0]);
    var rest: nat := n;
    var i: nat := width;
    while i > 0 && rest > 0
      invariant 0 <= i <= width
      invariant forall j :: 0 <= j < i ==> digits[j] == '0'
      invariant Encode(n, width) == Encode(rest, i) + digits[i..]
    {
      ghost var tail := digits[i..];
      i := i - 1;
      AlphabetDigit(rest % RADIX);
      digits[i] := ALPHABET[rest % RADIX];
      assert digits[i..] == [Digit(rest % RADIX)] + tail;
      EncodeStep(rest, i, tail);
      rest := rest / RADIX;
    }
    if rest == 0 {
      EncodeZero(i, digits[..i]);
    }
    assert digits[..] == digits[..i] + digits[i..];
    s := digits[..];
  }

  /** A fixed-width numeral keeps exactly the low `width` digits of the number. */
  lemma {:induction false} DecodeEncode(n: nat, width: nat)
    requires n < Pow(RADIX, width)
    ensures IsNumeral(Encode(n, width)) && Decode(Encode(n, width)) == n
  {
    EncodeShape(n, width);
    if width > 0 {
      var s := Encode(n, width);
      EncodeShape(n / RADIX, width - 1);
      assert s[..width - 1] == Encode(n / RADIX, width - 1);
      DecodeEncode(n / RADIX, width - 1);
      AlphabetDigit(n % RADIX);
    }
  }

  lemma LastDigit(q: nat, r: nat, p: nat)
    requires r < RADIX && q < p
    ensures (q * RADIX + r) / RADIX == q && (q * RADIX + r) % RADIX == r && q * RADIX + r < RADIX * p
  {
    assert q * RADIX + r < (q + 1) * RADIX <= p * RADIX;
  }

  lemma {:induction false} EncodeDecode(s: string)
    requires IsNumeral(s)
    ensures Decode(s) < Pow(RADIX, |s|) && Encode(Decode(s), |s|) == s
  {
    if s != [] {
      var front, last := s[..|s| - 1], s[|s| - 1];
      EncodeDecode(front);
      LastDigit(Decode(front), DigitValue(last), Pow(RADIX, |front|));
      var n := Decode(s);
      assert Encode(n, |s|) == Encode(n / RADIX, |front|) + [Digit(n % RADIX)];
      assert s == front + [last];
    }
  }

  lemma {:induction false} MulMono(d: nat, a: nat, b: nat)
    requires a < b
    ensures d * a + d <= d * b
    decreases b
  {
    assert d * b == d * (b - 1) + d;
    if a < b - 1 {
      MulMono(d, a, b - 1);
    }
  }

  lemma Euclid(n: nat, d: nat)
    requires d > 0
    ensures n == d * (n / d) + n % d && n % d < d
  {
  }

  lemma QuotientIs(d: nat, q: nat, r: nat, k: nat, m: nat)
    requires r < d && m < d && d * q + r == d * k + m
    ensures q == k
  {
    if q < k {
      MulMono(d, q, k);
    } else if k < q {
      MulMono(d, k, q);
    }
  }

  lemma MulRegroup(a: nat, b: nat, p: nat, s: nat)
    ensures a * (b * p + s) == (a * b) * p + a * s
  {
  }

  lemma DivDiv(n: nat, a: nat, b: nat)
    requires a > 0 && b > 0
    ensures a * b > 0 && n / (a * b) == n / a / b
  {
    var x, r := n / a, n % a;
    var p, s := x / b, x % b;
    Euclid(n, a);
    Euclid(x, b);
    MulRegroup(a, b, p, s);
    MulMono(a, s, b);
    var d := a * b;
    Euclid(n, d);
    QuotientIs(d, p, a * s + r, n / d, n % d);
  }

  lemma {:induction false} PowPositive(b: nat, e: nat)
    requires b > 0
    ensures Pow(b, e) > 0
  {
    if e > 0 {
      PowPositive(b, e - 1);
      assert b * Pow(b, e - 1) >= Pow(b, e - 1);
    }
  }

  /** The character that stands `i` places from the right is the digit of weight 62^i. */
  lemma {:induction false} EncodeDigitAt(n: nat, width: nat, i: nat)
    requires i < width
    ensures |Encode(n, width)| == width && Pow(RADIX, i) > 0
    ensures Encode(n, width)[width - 1 - i] == ALPHABET[n / Pow(RADIX, i) % RADIX]
    decreases i
  {
    EncodeShape(n, width);
    EncodeShape(n / RADIX, width - 1);
    PowPositive(RADIX, i);
    AlphabetDigit(n / Pow(RADIX, i) % RADIX);
    if i == 0 {
      assert n / 1 == n;
    } else {
      EncodeDigitAt(n / RADIX, width - 1, i - 1);
      DivDiv(n, RADIX, Pow(RADIX, i - 1));
    }
  }

  lemma EncodeInjective(m: nat, n: nat, width: nat)
    requires m < Pow(RADIX, width) && n < Pow(RADIX, width)
    requires Encode(m, width) == Encode(n, width)
    ensures m == n
  {
    DecodeEncode(m, width);
    DecodeEncode(n, width);
  }

  lemma {:induction false} PowAdd(b: nat, d: nat, e: nat)
    ensures Pow(b, d + e) == Pow(b, d) * Pow(b, e)
  {
    if d > 0 {
      PowAdd(b, d - 1, e);
      assert b * (Pow(b, d - 1) * Pow(b, e)) == (b * Pow(b, d - 1)) * Pow(b, e);
    }
  }

  lemma PowDouble(b: nat, e: nat, p: nat)
    requires Pow(b, e) == p
    ensures Pow(b, 2 * e) == p * p
  {
    PowAdd(b, e, e);
  }

  /** 43 digits are enough for 32 bytes and 6 for 32 bits, and one fewer is not. */
  lemma WidthsAreTight()
    ensures Pow(256, 32) == 0x1_0000000000000000_0000000000000000_0000000000000000_0000000000000000
    ensures Pow(RADIX, 42) < Pow(256, 32) < Pow(RADIX, 43)
    ensures Pow(RADIX, 5) < 0x1_0000_0000 < Pow(RADIX, 6)
  {
    PowDouble(256, 1, 256);
    PowDouble(256, 2, 0x1_0000);
    PowDouble(256, 4, 0x1_0000_0000);
    PowDouble(256, 8, 0x1_0000_0000_0000_0000);
    PowDouble(256, 16, 0x1_0000000000000000_0000000000000000);
    assert Pow(62, 2) == 3844;
    assert Pow(62, 3) == 238328;
    assert Pow(62, 5) == 916132832 by { PowAdd(62, 2, 3); }
    assert Pow(62, 6) == 56800235584;
    PowDouble(62, 5, 916132832);
    PowDouble(62, 10, 839299365868340224);
    PowDouble(62, 20, 839299365868340224 * 839299365868340224);
    PowAdd(62, 40, 2);
    PowAdd(62, 40, 3);
  }
}
