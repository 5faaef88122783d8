/** CRC-32/IEEE in its bitwise form (section 8 of RFC 1952): the checksum of keyfile/token.go.
    The results say which corruptions it is certain to notice.

    A register is written as its 32 bits, least significant first, so that exclusive or is
    pointwise and a right shift drops the head. */
module Crc32 {

  type Bits = seq<bool>

  function Repeat(b: bool, n: nat): (r: Bits)
    ensures |r| == n && forall i :: 0 <= i < n ==> r[i] == b
  {
    seq(n, i => b)
  }

  type Word = w: Bits | |w| == 32 witness Repeat(false, 32)
  type Octet = o: Bits | |o| == 8 witness Repeat(false, 8)

  const F := false
  const T := true

  /** The reflected generator polynomial 0xEDB88320, one hexadecimal digit (lowest first) a group. */
  const POLY_HIGH: Bits := [F, F, F, T] + ([T, T, F, T] + ([T, F, T, T] + ([F, T, T, T] + [])))
  const POLY: Word := [F, F, F, F] + ([F, T, F, F] + ([T, T, F, F] + ([F, F, F, T] + POLY_HIGH)))

  const ONES: Word := Repeat(true, 32)
  const ZERO: Word := Repeat(false, 32)

  function Xor(a: Bits, b: Bits): (r: Bits)
    requires |a| == |b|
    ensures |r| == |a| && forall i :: 0 <= i < |a| ==> r[i] == (a[i] != b[i])
  {
    if a == [] then [] else [a[0] != b[0]] + Xor(a[1..], b[1..])
  }

  /** An octet as the low eight bits of a word. */
  function Widen(b: Octet): Word {
    b + Repeat(false, 24)
  }

  function Halve(c: Word): Word {
    c[1..] + [false]
  }

  /** One division step on the reflected register. */
  function BitStep(c: Word): Word {
    if c[0] then Xor(POLY, Halve(c)) else Halve(c)
  }

  function Steps(c: Word, n: nat): Word {
    if n == 0 then c else BitStep(Steps(c, n - 1))
  }

  function ByteStep(c: Word, b: Octet): Word {
    Steps(Xor(c, Widen(b)), 8)
  }

  function Update(c: Word, s: seq<Octet>): Word
    decreases |s|
  {
    if s == [] then c else Update(ByteStep(c, s[0]), s[1..])
  }

  function Checksum(s: seq<Octet>): Word {
    Xor(Update(ONES, s), ONES)
  }

  lemma XorComm(a: Bits, b: Bits)
    requires |a| == |b|
    ensures Xor(a, b) == Xor(b, a)
  {
  }

  lemma XorCancels(a: Bits, b: Bits, x: Bits)
    requires |a| == |b| == |x| && Xor(a, x) == Xor(b, x)
    ensures a == b
  {
    forall i | 0 <= i < |a|
      ensures a[i] == b[i]
    {
      assert Xor(a, x)[i] == Xor(b, x)[i];
    }
  }

  lemma XorSwap(a: Bits, b: Bits, c: Bits, d: Bits)
    requires |a| == |b| == |c| == |d|
    ensures Xor(Xor(a, b), Xor(c, d)) == Xor(Xor(a, c), Xor(b, d))
  {
  }

  // ----- one bit step is linear over exclusive or, and invertible

  lemma BitStepLinear(c: Word, d: Word)
    ensures BitStep(Xor(c, d)) == Xor(BitStep(c), BitStep(d))
  {
  }

  lemma {:induction false} StepsLinear(c: Word, d: Word, n: nat)
    ensures Steps(Xor(c, d), n) == Xor(Steps(c, n), Steps(d, n))
  {
    if n > 0 {
      StepsLinear(c, d, n - 1);
      BitStepLinear(Steps(c, n - 1), Steps(d, n - 1));
    }
  }

  /** The bit shifted out is read back from the top of the register, which only the
      generator can have set. */
  lemma BitStepInjective(c: Word, d: Word)
    requires BitStep(c) == BitStep(d)
    ensures c == d
  {
    assert BitStep(c)[31] == c[0] && BitStep(d)[31] == d[0];
    if c[0] {
      XorComm(POLY, Halve(c));
      XorComm(POLY, Halve(d));
      XorCancels(Halve(c), Halve(d), POLY);
    }
    assert c == [c[0]] + Halve(c)[..31] && d == [d[0]] + Halve(d)[..31];
  }

  lemma {:induction false} StepsInjective(c: Word, d: Word, n: nat)
    requires Steps(c, n) == Steps(d, n)
    ensures c == d
  {
    if n > 0 {
      BitStepInjective(Steps(c, n - 1), Steps(d, n - 1));
      StepsInjective(c, d, n - 1);
    }
  }

  /** Two different registers never meet again while they read the same bytes. */
  lemma {:induction false} UpdateInjective(c: Word, d: Word, s: seq<Octet>)
    requires Update(c, s) == Update(d, s)
    ensures c == d
    decreases |s|
  {
    if s != [] {
      UpdateInjective(ByteStep(c, s[0]), ByteStep(d, s[0]), s[1..]);
      StepsInjective(Xor(c, Widen(s[0])), Xor(d, Widen(s[0])), 8);
      XorCancels(c, d, Widen(s[0]));
    }
  }

  lemma {:induction false} UpdateAppend(c: Word, s: seq<Octet>, t: seq<Octet>)
    ensures Update(c, s + t) == Update(Update(c, s), t)
    decreases |s|
  {
    if s == [] {
      assert s + t == t;
    } else {
      UpdateAppend(ByteStep(c, s[0]), s[1..], t);
      assert (s + t)[1..] == s[1..] + t;
    }
  }

  // ----- a difference confined to four bytes cannot cancel

  function Delta(a: Octet, b: Octet): Word {
    Widen(Xor(a, b))
  }

  lemma ByteDelta(c: Word, d: Word, a: Octet, b: Octet)
    ensures Xor(ByteStep(c, a), ByteStep(d, b)) == Steps(Xor(Xor(c, d), Delta(a, b)), 8)
  {
    StepsLinear(Xor(c, Widen(a)), Xor(d, Widen(b)), 8);
    XorSwap(c, Widen(a), d, Widen(b));
    assert Delta(a, b) == Xor(Widen(a), Widen(b));
  }

  /** The word moved up by one bit; exact when the top bit is clear. */
  function Double(y: Word): Word {
    [false] + y[..31]
  }

  lemma StepBack(x: Word, n: nat, y: Word)
    requires n > 0 && Steps(x, n) == y && !y[31]
    ensures Steps(x, n - 1) == Double(y)
  {
    assert BitStep(Double(y)) == y;
    BitStepInjective(Steps(x, n - 1), Double(y));
  }

  /** A register with its top `n` bits clear was reached in `n` steps by plain shifts. */
  lemma {:induction false} StepsBack(x: Word, n: nat, y: Word)
    requires n <= 32 && Steps(x, n) == y
    requires forall i :: 32 - n <= i < 32 ==> !y[i]
    ensures x == Repeat(false, n) + y[..32 - n]
  {
    if n == 0 {
      assert y[..32] == y;
    } else {
      StepBack(x, n, y);
      StepsBack(x, n - 1, Double(y));
    }
  }

  /** Words below 2^(8k). */
  predicate Fits(y: Word, k: nat) {
    forall i :: 8 * k <= i < 32 ==> !y[i]
  }

  lemma ByteBack(x: Word, e: Word, y: Word)
    requires Steps(Xor(x, e), 8) == y && Fits(e, 1) && Fits(y, 3)
    ensures forall i :: 8 <= i < 32 ==> x[i] == y[i - 8]
    ensures forall i :: 0 <= i < 8 ==> x[i] == e[i]
  {
    StepsBack(Xor(x, e), 8, y);
    forall i | 0 <= i < 32
      ensures (x[i] != e[i]) == if i < 8 then false else y[i - 8]
    {
      assert Xor(x, e)[i] == (x[i] != e[i]);
    }
  }

  /** Read backwards, the register difference loses one byte of width at every step. */
  lemma DifferenceNarrows(c: Word, d: Word, a: Octet, b: Octet, k: nat)
    requires k <= 3 && Fits(Xor(ByteStep(c, a), ByteStep(d, b)), k)
    ensures Fits(Xor(c, d), k + 1)
  {
    ByteDelta(c, d, a, b);
    ByteBack(Xor(c, d), Delta(a, b), Xor(ByteStep(c, a), ByteStep(d, b)));
  }

  /** Equal registers whose successors differ in the low three bytes at most read the same byte. */
  lemma BytesAgree(c: Word, a: Octet, b: Octet)
    requires Fits(Xor(ByteStep(c, a), ByteStep(c, b)), 3)
    ensures a == b
  {
    ByteDelta(c, c, a, b);
    ByteBack(Xor(c, c), Delta(a, b), Xor(ByteStep(c, a), ByteStep(c, b)));
    forall i | 0 <= i < 8
      ensures a[i] == b[i]
    {
      assert Xor(c, c)[i] == Delta(a, b)[i] == Xor(a, b)[i];
    }
  }

  lemma UpdateFour(c: Word, s: seq<Octet>)
    requires |s| == 4
    ensures Update(c, s) == ByteStep(ByteStep(ByteStep(ByteStep(c, s[0]), s[1]), s[2]), s[3])
  {
    assert s == [s[0]] + [s[1]] + [s[2]] + [s[3]];
    UpdateAppend(c, [s[0]] + [s[1]] + [s[2]], [s[3]]);
    UpdateAppend(c, [s[0]] + [s[1]], [s[2]]);
    UpdateAppend(c, [s[0]], [s[1]]);
  }

  /** From one register, two different four-byte words lead to different registers. */
  lemma FourBytesInjective(c: Word, s: seq<Octet>, t: seq<Octet>)
    requires |s| == |t| == 4
    requires Update(c, s) == Update(c, t)
    ensures s == t
  {
    var c1, d1 := ByteStep(c, s[0]), ByteStep(c, t[0]);
    var c2, d2 := ByteStep(c1, s[1]), ByteStep(d1, t[1]);
    var c3, d3 := ByteStep(c2, s[2]), ByteStep(d2, t[2]);
    UpdateFour(c, s);
    UpdateFour(c, t);
    DifferenceNarrows(c3, d3, s[3], t[3], 0);
    DifferenceNarrows(c2, d2, s[2], t[2], 1);
    DifferenceNarrows(c1, d1, s[1], t[1], 2);
    BytesAgree(c, s[0], t[0]);
    BytesAgree(c1, s[1], t[1]);
    BytesAgree(c2, s[2], t[2]);
    BytesAgree(c3, s[3], t[3]);
  }

  /** Messages of one length that agree outside a window of four consecutive bytes
      have the same checksum only if they are the same message. */
  lemma BurstDetected(s: seq<Octet>, t: seq<Octet>, w: nat)
    requires |s| == |t| && w + 4 <= |s|
    requires s[..w] == t[..w] && s[w + 4..] == t[w + 4..]
    requires Checksum(s) == Checksum(t)
    ensures s == t
  {
    XorCancels(Update(ONES, s), Update(ONES, t), ONES);
    var front, back := s[..w], s[w + 4..];
    var ms, mt := s[w..w + 4], t[w..w + 4];
    assert s == front + (ms + back) && t == front + (mt + back);
    var c := Update(ONES, front);
    UpdateAppend(ONES, front, ms + back);
    UpdateAppend(ONES, front, mt + back);
    UpdateAppend(c, ms, back);
    UpdateAppend(c, mt, back);
    UpdateInjective(Update(c, ms), Update(c, mt), back);
    FourBytesInjective(c, ms, mt);
  }

  // ----- bits as unsigned numbers

  function TwoTo(n: nat): (p: nat)
    ensures p > 0
  {
    if n == 0 then 1 else 2 * TwoTo(n - 1)
  }

  function Unsigned(b: Bits): nat {
    if b == [] then 0 else (if b[0] then 1 else 0) + 2 * Unsigned(b[1..])
  }

  function BitsOf(n: nat, width: nat): (b: Bits)
    ensures |b| == width
  {
    if width == 0 then [] else [n % 2 == 1] + BitsOf(n / 2, width - 1)
  }

  lemma {:induction false} UnsignedBound(b: Bits)
    ensures Unsigned(b) < TwoTo(|b|)
  {
    if b != [] {
      UnsignedBound(b[1..]);
    }
  }

  lemma {:induction false} UnsignedInjective(a: Bits, b: Bits)
    requires |a| == |b| && Unsigned(a) == Unsigned(b)
    ensures a == b
  {
    if a != [] {
      UnsignedInjective(a[1..], b[1..]);
      assert a == [a[0]] + a[1..] && b == [b[0]] + b[1..];
    }
  }

  lemma {:induction false} UnsignedBitsOf(n: nat, width: nat)
    requires n < TwoTo(width)
    ensures Unsigned(BitsOf(n, width)) == n
  {
    if width > 0 {
      UnsignedBitsOf(n / 2, width - 1);
      assert BitsOf(n, width)[1..] == BitsOf(n / 2, width - 1);
    }
  }

  lemma UnsignedCons(b: bool, rest: Bits)
    ensures Unsigned([b] + rest) == (if b then 1 else 0) + 2 * Unsigned(rest)
  {
    assert ([b] + rest)[1..] == rest;
  }

  lemma NibbleAppend(a: bool, b: bool, c: bool, d: bool, high: Bits, h: nat)
    requires Unsigned(high) == h
    ensures Unsigned([a, b, c, d] + high)
         == (if a then 1 else 0) + (if b then 2 else 0) + (if c then 4 else 0) + (if d then 8 else 0) + 16 * h
  {
    UnsignedCons(d, high);
    UnsignedCons(c, [d] + high);
    UnsignedCons(b, [c] + ([d] + high));
    UnsignedCons(a, [b] + ([c] + ([d] + high)));
    assert [a, b, c, d] + high == [a] + ([b] + ([c] + ([d] + high)));
  }

  lemma PolyHighValue()
    ensures Unsigned(POLY_HIGH) == 0xEDB8
  {
    NibbleAppend(F, T, T, T, [], 0);
    NibbleAppend(T, F, T, T, [F, T, T, T] + [], 0xE);
    NibbleAppend(T, T, F, T, [T, F, T, T] + ([F, T, T, T] + []), 0xED);
    NibbleAppend(F, F, F, T, [T, T, F, T] + ([T, F, T, T] + ([F, T, T, T] + [])), 0xEDB);
  }

  lemma PolyValue()
    ensures Unsigned(POLY) == 0xEDB8_8320
  {
    PolyHighValue();
    NibbleAppend(F, F, F, T, POLY_HIGH, 0xEDB8);
    NibbleAppend(T, T, F, F, [F, F, F, T] + POLY_HIGH, 0xEDB88);
    NibbleAppend(F, T, F, F, [T, T, F, F] + ([F, F, F, T] + POLY_HIGH), 0xEDB883);
    NibbleAppend(F, F, F, F, [F, T, F, F] + ([T, T, F, F] + ([F, F, F, T] + POLY_HIGH)), 0xEDB8832);
  }
}
