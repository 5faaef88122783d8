/** The checksum as the standard describes it: the remainder of the message polynomial. */
module CrcPolynomial {
  import opened Crc32

  // ----- polynomials over two elements, highest coefficient first

  function Zeros(n: nat): (r: Bits)
    ensures |r| == n && forall i :: 0 <= i < n ==> !r[i]
  {
    Repeat(false, n)
  }

  /** x^32 + x^26 + x^23 + x^22 + x^16 + x^12 + x^11 + x^10 + x^8 + x^7 + x^5 + x^4 + x^2 + x + 1 */
  function Generator(): (g: Bits)
    ensures |g| == 33
  {
    seq(33, i => 32 - i in {32, 26, 23, 22, 16, 12, 11, 10, 8, 7, 5, 4, 2, 1, 0})
  }

  /** The product of a polynomial with |q| coefficients and one with |g|. */
  function Product(q: Bits, g: Bits): (r: Bits)
    requires |g| > 0
    ensures |r| == |q| + |g| - 1
  {
    if q == [] then Zeros(|g| - 1)
    else Xor(if q[0] then g + Zeros(|q| - 1) else Zeros(|q| + |g| - 1), [false] + Product(q[1..], g))
  }

  /** m = q * g + r, with r of lower degree than g. */
  ghost predicate Divides(m: Bits, g: Bits, q: Bits, r: Bits) {
    && |g| > 0 && |r| == |g| - 1 && |m| == |q| + |r|
    && m == Xor(Product(q, g), Zeros(|q|) + r)
  }

  ghost predicate IsRemainder(r: Bits, m: Bits, g: Bits) {
    exists q :: Divides(m, g, q, r)
  }

  /** There is only one remainder. */
  lemma {:induction false} RemainderUnique(m: Bits, g: Bits, q: Bits, r: Bits, p: Bits, s: Bits)
    requires |g| > 0 && g[0] && Divides(m, g, q, r) && Divides(m, g, p, s)
    ensures q == p && r == s
    decreases |q|
  {
    if q == [] {
      assert forall i :: 0 <= i < |m| ==> m[i] == r[i] && m[i] == s[i];
    } else {
      LeadingDigit(m, g, q, r);
      LeadingDigit(m, g, p, s);
      var rest := Xor(m, if m[0] then g + Zeros(|q| - 1) else Zeros(|m|))[1..];
      RemainderUnique(rest, g, q[1..], r, p[1..], s);
      assert q == [q[0]] + q[1..] && p == [p[0]] + p[1..];
    }
  }

  /** The first digit of the quotient is that of the dividend; the others divide what is left. */
  lemma LeadingDigit(m: Bits, g: Bits, q: Bits, r: Bits)
    requires |g| > 0 && g[0] && q != [] && Divides(m, g, q, r)
    ensures q[0] == m[0]
    ensures Divides(Xor(m, if m[0] then g + Zeros(|q| - 1) else Zeros(|m|))[1..], g, q[1..], r)
  {
    var first := if q[0] then g + Zeros(|q| - 1) else Zeros(|m|);
    var rest := Product(q[1..], g);
    assert Product(q, g)[0] == (first[0] != ([false] + rest)[0]);
    assert m[0] == (Product(q, g)[0] != (Zeros(|q|) + r)[0]);
    var left := Xor(m, first)[1..];
    forall i | 0 <= i < |left|
      ensures left[i] == Xor(rest, Zeros(|q| - 1) + r)[i]
    {
      assert left[i] == (m[i + 1] != first[i + 1]);
      assert m[i + 1] == (Product(q, g)[i + 1] != (Zeros(|q|) + r)[i + 1]);
      assert Product(q, g)[i + 1] == (first[i + 1] != ([false] + rest)[i + 1]);
    }
    assert left == Xor(rest, Zeros(|q| - 1) + r);
  }

  // ----- the register, one bit at a time

  function FirstBit(x: bool): Word {
    [x] + Zeros(31)
  }

  function Feed(c: Word, t: Bits): Word
    decreases |t|
  {
    if t == [] then c else Feed(BitStep(Xor(c, FirstBit(t[0]))), t[1..])
  }

  lemma {:induction false} FeedAppend(c: Word, t: Bits, u: Bits)
    ensures Feed(c, t + u) == Feed(Feed(c, t), u)
    decreases |t|
  {
    if t == [] {
      assert t + u == u;
    } else {
      assert (t + u)[1..] == t[1..] + u;
      FeedAppend(BitStep(Xor(c, FirstBit(t[0]))), t[1..], u);
    }
  }

  lemma {:induction false} StepsFront(c: Word, n: nat)
    requires n > 0
    ensures Steps(c, n) == Steps(BitStep(c), n - 1)
  {
    if n > 1 {
      StepsFront(c, n - 1);
    }
  }

  function Padded(t: Bits): Word
    requires |t| <= 32
  {
    t + Zeros(32 - |t|)
  }

  lemma {:induction false} StepsAreFeed(c: Word, t: Bits)
    requires |t| <= 32
    ensures Steps(Xor(c, Padded(t)), |t|) == Feed(c, t)
    decreases |t|
  {
    if t == [] {
      assert Xor(c, Padded(t)) == c;
    } else {
      var one, rest: Word := FirstBit(t[0]), [false] + t[1..] + Zeros(32 - |t|);
      assert Xor(c, Padded(t)) == Xor(Xor(c, one), rest);
      BitStepLinear(Xor(c, one), rest);
      assert BitStep(rest) == Padded(t[1..]);
      StepsFront(Xor(c, Padded(t)), |t|);
      StepsAreFeed(BitStep(Xor(c, one)), t[1..]);
    }
  }

  function Flatten(s: seq<Octet>): (t: Bits)
    ensures |t| == 8 * |s|
  {
    if s == [] then [] else s[0] + Flatten(s[1..])
  }

  lemma {:induction false} UpdateIsFeed(c: Word, s: seq<Octet>)
    ensures Update(c, s) == Feed(c, Flatten(s))
    decreases |s|
  {
    if s != [] {
      assert Padded(s[0]) == Widen(s[0]);
      StepsAreFeed(c, s[0]);
      UpdateIsFeed(ByteStep(c, s[0]), s[1..]);
      FeedAppend(c, s[0], Flatten(s[1..]));
    }
  }

  // ----- feeding is long division

  lemma GeneratorIsPoly()
    ensures Generator() == [true] + POLY
  {
  }

  /** The bits still to be divided: the register lies over the front of the message. */
  function Dividend(c: Word, t: Bits): (m: Bits)
    ensures |m| == |t| + 32
  {
    Xor(c + Zeros(|t|), t + Zeros(32))
  }

  function Quotient(c: Word, t: Bits): (q: Bits)
    ensures |q| == |t|
    decreases |t|
  {
    if t == [] then [] else [c[0] != t[0]] + Quotient(BitStep(Xor(c, FirstBit(t[0]))), t[1..])
  }

  lemma DividendAt(c: Word, t: Bits, i: nat)
    requires i < |t| + 32
    ensures Dividend(c, t)[i] == ((i < 32 && c[i]) != (i < |t| && t[i]))
  {
    assert (c + Zeros(|t|))[i] == (i < 32 && c[i]);
    assert (t + Zeros(32))[i] == (i < |t| && t[i]);
  }

  /** What is subtracted when the leading bit is `b`. */
  function Subtrahend(g: Bits, b: bool, n: nat): (r: Bits)
    requires n > 0
    ensures |r| == n + |g| - 1
  {
    if b then g + Zeros(n - 1) else Zeros(n + |g| - 1)
  }

  lemma SubtrahendAt(poly: Word, b: bool, n: nat, i: nat)
    requires 0 < n && i < n + 32
    ensures Subtrahend([true] + poly, b, n)[i] == (b && (i == 0 || (i <= 32 && poly[i - 1])))
  {
  }

  lemma DividendStep(c: Word, t: Bits, g: Bits)
    requires t != [] && g == Generator()
    ensures var b, d := c[0] != t[0], BitStep(Xor(c, FirstBit(t[0])));
            Dividend(c, t) == Xor(Subtrahend(g, b, |t|), [false] + Dividend(d, t[1..]))
  {
    GeneratorIsPoly();
    StepBits(c, t[0]);
    SubtractOnce(c, t, BitStep(Xor(c, FirstBit(t[0]))), POLY);
  }

  lemma SubtractOnce(c: Word, t: Bits, d: Word, poly: Word)
    requires t != []
    requires forall i :: 0 <= i < 32 ==> d[i] == ((c[0] != t[0] && poly[i]) != (i < 31 && c[i + 1]))
    ensures Dividend(c, t) == Xor(Subtrahend([true] + poly, c[0] != t[0], |t|), [false] + Dividend(d, t[1..]))
  {
    var g, m := Subtrahend([true] + poly, c[0] != t[0], |t|), [false] + Dividend(d, t[1..]);
    forall i | 0 <= i < |t| + 32
      ensures Dividend(c, t)[i] == (g[i] != m[i])
    {
      DividendAt(c, t, i);
      SubtrahendAt(poly, c[0] != t[0], |t|, i);
      if i > 0 {
        DividendAt(d, t[1..], i - 1);
      }
    }
  }

  /** What one step does to each bit of the register. */
  lemma StepBits(c: Word, x: bool)
    ensures var b, d := c[0] != x, BitStep(Xor(c, FirstBit(x)));
            forall i :: 0 <= i < 32 ==> d[i] == ((b && POLY[i]) != (i < 31 && c[i + 1]))
  {
  }

  lemma {:induction false} FeedDivides(c: Word, t: Bits, g: Bits)
    requires g == Generator()
    ensures Divides(Dividend(c, t), g, Quotient(c, t), Feed(c, t))
    decreases |t|
  {
    if t == [] {
      assert Dividend(c, t) == c == Xor(Product([], g), Zeros(0) + c);
    } else {
      var d := BitStep(Xor(c, FirstBit(t[0])));
      FeedDivides(d, t[1..], g);
      DividendStep(c, t, g);
      OneMoreDigit(Dividend(c, t), Dividend(d, t[1..]), g, c[0] != t[0], Quotient(d, t[1..]), Feed(c, t));
    }
  }

  lemma ProductCons(b: bool, q: Bits, g: Bits)
    requires |g| > 0
    ensures Product([b] + q, g) == Xor(Subtrahend(g, b, |q| + 1), [false] + Product(q, g))
  {
    assert ([b] + q)[1..] == q;
  }

  lemma OneMoreDigit(m: Bits, rest: Bits, g: Bits, b: bool, q: Bits, r: Bits)
    requires Divides(rest, g, q, r) && m == Xor(Subtrahend(g, b, |q| + 1), [false] + rest)
    ensures Divides(m, g, [b] + q, r)
  {
    var first, product, low := Subtrahend(g, b, |q| + 1), Product(q, g), Zeros(|q|) + r;
    ProductCons(b, q, g);
    QuotientStep(first, product, low, [false] + low);
    LowerZeros(|q|, r);
    DividesIf(m, g, [b] + q, r, Xor(first, [false] + product), [false] + low);
  }

  lemma LowerZeros(n: nat, r: Bits)
    ensures [false] + (Zeros(n) + r) == Zeros(n + 1) + r
  {
  }

  lemma DividesIf(m: Bits, g: Bits, q: Bits, r: Bits, product: Bits, low: Bits)
    requires |g| > 0 && |r| == |g| - 1 && |m| == |q| + |r| == |product|
    requires product == Product(q, g) && low == Zeros(|q|) + r && m == Xor(product, low)
    ensures Divides(m, g, q, r)
  {
  }

  lemma QuotientStep(first: Bits, rest: Bits, r: Bits, s: Bits)
    requires |first| == |rest| + 1 && |r| == |rest| && s == [false] + r
    ensures Xor(first, [false] + Xor(rest, r)) == Xor(Xor(first, [false] + rest), s)
  {
  }

  /** The first 32 coefficients complemented. */
  function ComplementFirst(m: Bits): (r: Bits)
    ensures |r| == |m|
  {
    seq(|m|, i requires 0 <= i < |m| => if i < 32 then !m[i] else m[i])
  }

  /** The checksum of every message is the complement of the remainder: the message's bits, lowest of each byte
      first, followed by 32 zeros, the first 32 of all that complemented, divided by the generator. The highest
      coefficient of the remainder is the lowest bit of the checksum. */
  lemma ChecksumIsRemainder(s: seq<Octet>)
    ensures IsRemainder(Xor(Checksum(s), ONES), ComplementFirst(Flatten(s) + Zeros(32)), Generator())
  {
    var t := Flatten(s);
    UpdateIsFeed(ONES, s);
    FeedDivides(ONES, t, Generator());
    ChecksumComplement(Feed(ONES, t));
    DividendIsComplement(t);
  }

  lemma ChecksumComplement(c: Word)
    ensures Xor(Xor(c, ONES), ONES) == c
  {
  }

  lemma DividendIsComplement(t: Bits)
    ensures Dividend(ONES, t) == ComplementFirst(t + Zeros(32))
  {
    forall i | 0 <= i < |t| + 32
      ensures Dividend(ONES, t)[i] == ComplementFirst(t + Zeros(32))[i]
    {
      DividendAt(ONES, t, i);
    }
  }

  /** And nothing else is. */
  lemma ChecksumExactly(s: seq<Octet>, c: Word)
    ensures c == Checksum(s) <==>
            IsRemainder(Xor(c, ONES), ComplementFirst(Flatten(s) + Zeros(32)), Generator())
  {
    ChecksumIsRemainder(s);
    var m, g := ComplementFirst(Flatten(s) + Zeros(32)), Generator();
    if IsRemainder(Xor(c, ONES), m, g) {
      var q :| Divides(m, g, q, Xor(c, ONES));
      var p :| Divides(m, g, p, Xor(Checksum(s), ONES));
      GeneratorIsPoly();
      RemainderUnique(m, g, q, Xor(c, ONES), p, Xor(Checksum(s), ONES));
      XorCancels(c, Checksum(s), ONES);
    }
  }
}
