/** The checksum as arithmetic on the register's number, and the standard's check value. */
module CrcNumbers {
  import opened Crc32
  import opened CrcPolynomial
  import opened Token
  import Base62

  /** Exclusive or of two numbers. */
  function XorNat(a: nat, b: nat): nat
    decreases a + b
  {
    if a == 0 && b == 0 then 0 else 2 * XorNat(a / 2, b / 2) + (a + b) % 2
  }

  function NatStep(n: nat): nat {
    if n % 2 == 1 then XorNat(n / 2, 0xEDB8_8320) else n / 2
  }

  function NatSteps(n: nat, k: nat): nat {
    if k == 0 then n else NatStep(NatSteps(n, k - 1))
  }

  function NatByte(n: nat, b: nat): nat {
    NatSteps(XorNat(n, b), 8)
  }

  function NatUpdate(n: nat, s: string): nat
    decreases |s|
  {
    if s == "" then n else NatUpdate(NatByte(n, s[0] as int % 256), s[1..])
  }

  function NatChecksum(s: string): nat {
    XorNat(NatUpdate(0xFFFF_FFFF, s), 0xFFFF_FFFF)
  }

  // ----- the message polynomial of a string

  lemma {:induction false} BitsOfAt(n: nat, width: nat, j: nat)
    requires j < width
    ensures BitsOf(n, width)[j] == (n / TwoTo(j) % 2 == 1)
  {
    if j > 0 {
      BitsOfAt(n / 2, width - 1, j - 1);
      Base62.DivDiv(n, 2, TwoTo(j - 1));
    }
  }

  lemma {:induction false} FlattenAt(s: seq<Octet>, i: nat, j: nat)
    requires i < |s| && j < 8
    ensures 8 * i + j < |Flatten(s)| && Flatten(s)[8 * i + j] == s[i][j]
    decreases |s|
  {
    if i > 0 {
      FlattenAt(s[1..], i - 1, j);
    }
  }

  /** Each byte contributes its bits lowest first. */
  lemma MessageBit(s: string, i: nat, j: nat)
    requires i < |s| && j < 8
    ensures |Flatten(Octets(s))| == 8 * |s|
    ensures Flatten(Octets(s))[8 * i + j] == (s[i] as int % 256 / TwoTo(j) % 2 == 1)
  {
    FlattenAt(Octets(s), i, j);
    BitsOfAt(s[i] as int % 256, 8, j);
  }

  // ----- the registers as numbers

  lemma {:induction false} XorIsNat(a: Bits, b: Bits)
    requires |a| == |b|
    ensures Unsigned(Xor(a, b)) == XorNat(Unsigned(a), Unsigned(b))
    decreases |a|
  {
    if a != [] {
      XorIsNat(a[1..], b[1..]);
      assert Xor(a, b)[1..] == Xor(a[1..], b[1..]);
      XorNatBits(Unsigned(a[1..]), a[0], Unsigned(b[1..]), b[0]);
    }
  }

  function Low(b: bool): nat {
    if b then 1 else 0
  }

  lemma XorNatBits(m: nat, a: bool, n: nat, b: bool)
    ensures XorNat(2 * m + Low(a), 2 * n + Low(b)) == 2 * XorNat(m, n) + Low(a != b)
  {
    var x, y := 2 * m + Low(a), 2 * n + Low(b);
    assert x / 2 == m && y / 2 == n && (x + y) % 2 == Low(a != b);
  }

  lemma {:induction false} UnsignedPadded(b: Bits, n: nat)
    ensures Unsigned(b + Repeat(false, n)) == Unsigned(b)
    decreases |b| + n
  {
    if b != [] {
      assert (b + Repeat(false, n))[1..] == b[1..] + Repeat(false, n);
      UnsignedPadded(b[1..], n);
    } else if n > 0 {
      assert [] + Repeat(false, n) == Repeat(false, n) && Repeat(false, n)[1..] == Repeat(false, n - 1);
      assert [] + Repeat(false, n - 1) == Repeat(false, n - 1);
      UnsignedPadded([], n - 1);
    }
  }

  lemma {:induction false} UnsignedOnes(n: nat)
    ensures Unsigned(Repeat(true, n)) == TwoTo(n) - 1
  {
    if n > 0 {
      assert Repeat(true, n)[1..] == Repeat(true, n - 1);
      UnsignedOnes(n - 1);
    }
  }

  lemma StepIsNat(c: Word)
    ensures Unsigned(BitStep(c)) == NatStep(Unsigned(c))
  {
    UnsignedPadded(c[1..], 1);
    assert Halve(c) == c[1..] + Repeat(false, 1);
    if c[0] {
      XorComm(POLY, Halve(c));
      XorIsNat(Halve(c), POLY);
      PolyValue();
    }
  }

  lemma {:induction false} StepsAreNat(c: Word, k: nat)
    ensures Unsigned(Steps(c, k)) == NatSteps(Unsigned(c), k)
  {
    if k > 0 {
      StepsAreNat(c, k - 1);
      StepIsNat(Steps(c, k - 1));
    }
  }

  lemma ByteIsNat(c: Word, b: Octet)
    ensures Unsigned(ByteStep(c, b)) == NatByte(Unsigned(c), Unsigned(b))
  {
    UnsignedPadded(b, 24);
    XorIsNat(c, Widen(b));
    StepsAreNat(Xor(c, Widen(b)), 8);
  }

  lemma {:induction false} UpdateIsNat(c: Word, s: string)
    ensures Unsigned(Update(c, Octets(s))) == NatUpdate(Unsigned(c), s)
    decreases |s|
  {
    if s != "" {
      var b := OctetOf(s[0]);
      assert Octets(s)[0] == b && Octets(s)[1..] == Octets(s[1..]);
      assert TwoTo(8) == 256;
      UnsignedBitsOf(s[0] as int % 256, 8);
      ByteIsNat(c, b);
      UpdateIsNat(ByteStep(c, b), s[1..]);
    }
  }

  /** The checksum's number is what the bitwise algorithm on numbers computes. */
  lemma ChecksumIsNat(s: string)
    ensures Unsigned(Checksum(Octets(s))) == NatChecksum(s)
  {
    UnsignedOnes(32);
    TwoTo32();
    UpdateIsNat(ONES, s);
    XorIsNat(Update(ONES, Octets(s)), ONES);
  }

  // ----- the check value, computed on machine words

  /** The number in a machine word. */
  function NatOf(x: bv32): nat
    decreases x
  {
    if x == 0 then 0 else 2 * NatOf(x >> 1) + Low(x & 1 == 1)
  }

  lemma NatOfBits(x: bv32)
    ensures NatOf(x) == 2 * NatOf(x >> 1) + Low(x & 1 == 1)
  {
  }

  lemma XorShift(x: bv32, y: bv32)
    ensures (x ^ y) >> 1 == (x >> 1) ^ (y >> 1)
  {
  }

  lemma XorLow(x: bv32, y: bv32)
    ensures ((x ^ y) & 1 == 1) == ((x & 1 == 1) != (y & 1 == 1))
  {
  }

  lemma Shorter(x: bv32)
    ensures x != 0 ==> x >> 1 < x
    ensures x == 0 ==> x >> 1 == 0
  {
  }

  lemma {:induction false} XorIsWords(x: bv32, y: bv32)
    ensures NatOf(x ^ y) == XorNat(NatOf(x), NatOf(y))
    decreases x, y
  {
    if x != 0 || y != 0 {
      var u, v, w := x >> 1, y >> 1, x ^ y;
      XorShift(x, y);
      XorLow(x, y);
      NatOfBits(x);
      NatOfBits(y);
      NatOfBits(w);
      Shorter(x);
      Shorter(y);
      XorIsWords(u, v);
      XorNatBits(NatOf(u), x & 1 == 1, NatOf(v), y & 1 == 1);
    }
  }

  function WordStep(x: bv32): bv32 {
    if x & 1 == 1 then (x >> 1) ^ 0xEDB8_8320 else x >> 1
  }

  function WordByte(x: bv32, b: bv32): bv32 {
    WordStep(WordStep(WordStep(WordStep(WordStep(WordStep(WordStep(WordStep(x ^ b))))))))
  }

  /** Four bits at a time. */
  lemma FourBits(x: bv32, a: bv32, b: bv32, c: bv32, d: bv32)
    requires x >> 1 == a && a >> 1 == b && b >> 1 == c && c >> 1 == d
    ensures NatOf(x) == 16 * NatOf(d) + 8 * Low(c & 1 == 1) + 4 * Low(b & 1 == 1) + 2 * Low(a & 1 == 1)
                        + Low(x & 1 == 1)
  {
    NatOfBits(x);
    NatOfBits(a);
    NatOfBits(b);
    NatOfBits(c);
  }

  lemma PolyWord()
    ensures NatOf(0xEDB8_8320) == 0xEDB8_8320
  {
    FourBits(0xE, 0x7, 0x3, 0x1, 0x0);
    FourBits(0xED, 0x76, 0x3B, 0x1D, 0xE);
    FourBits(0xEDB, 0x76D, 0x3B6, 0x1DB, 0xED);
    FourBits(0xEDB8, 0x76DC, 0x3B6E, 0x1DB7, 0xEDB);
    FourBits(0xEDB88, 0x76DC4, 0x3B6E2, 0x1DB71, 0xEDB8);
    FourBits(0xEDB883, 0x76DC41, 0x3B6E20, 0x1DB710, 0xEDB88);
    FourBits(0xEDB8832, 0x76DC419, 0x3B6E20C, 0x1DB7106, 0xEDB883);
    FourBits(0xEDB88320, 0x76DC4190, 0x3B6E20C8, 0x1DB71064, 0xEDB8832);
  }

  lemma OnesWord()
    ensures NatOf(0xFFFF_FFFF) == 0xFFFF_FFFF
  {
    FourBits(0xF, 0x7, 0x3, 0x1, 0x0);
    FourBits(0xFF, 0x7F, 0x3F, 0x1F, 0xF);
    FourBits(0xFFF, 0x7FF, 0x3FF, 0x1FF, 0xFF);
    FourBits(0xFFFF, 0x7FFF, 0x3FFF, 0x1FFF, 0xFFF);
    FourBits(0xFFFFF, 0x7FFFF, 0x3FFFF, 0x1FFFF, 0xFFFF);
    FourBits(0xFFFFFF, 0x7FFFFF, 0x3FFFFF, 0x1FFFFF, 0xFFFFF);
    FourBits(0xFFFFFFF, 0x7FFFFFF, 0x3FFFFFF, 0x1FFFFFF, 0xFFFFFF);
    FourBits(0xFFFFFFFF, 0x7FFFFFFF, 0x3FFFFFFF, 0x1FFFFFFF, 0xFFFFFFF);
  }

  lemma CheckWord()
    ensures NatOf(0xCBF4_3926) == 0xCBF4_3926
  {
    FourBits(0xC, 0x6, 0x3, 0x1, 0x0);
    FourBits(0xCB, 0x65, 0x32, 0x19, 0xC);
    FourBits(0xCBF, 0x65F, 0x32F, 0x197, 0xCB);
    FourBits(0xCBF4, 0x65FA, 0x32FD, 0x197E, 0xCBF);
    FourBits(0xCBF43, 0x65FA1, 0x32FD0, 0x197E8, 0xCBF4);
    FourBits(0xCBF439, 0x65FA1C, 0x32FD0E, 0x197E87, 0xCBF43);
    FourBits(0xCBF4392, 0x65FA1C9, 0x32FD0E4, 0x197E872, 0xCBF439);
    FourBits(0xCBF43926, 0x65FA1C93, 0x32FD0E49, 0x197E8724, 0xCBF4392);
  }

  lemma StepIsWords(x: bv32)
    ensures NatOf(WordStep(x)) == NatStep(NatOf(x))
  {
    NatOfBits(x);
    if x & 1 == 1 {
      XorIsWords(x >> 1, 0xEDB8_8320);
      PolyWord();
    }
  }

  function WordSteps(x: bv32, k: nat): bv32 {
    if k == 0 then x else WordStep(WordSteps(x, k - 1))
  }

  lemma {:induction false} StepsAreWords(x: bv32, k: nat)
    ensures NatOf(WordSteps(x, k)) == NatSteps(NatOf(x), k)
  {
    if k > 0 {
      StepsAreWords(x, k - 1);
      StepIsWords(WordSteps(x, k - 1));
    }
  }

  lemma FeedByte(x: bv32, y: bv32, b: bv32, s: string)
    requires s != "" && NatOf(b) == s[0] as int % 256 && WordSteps(x ^ b, 8) == y
    ensures NatUpdate(NatOf(x), s) == NatUpdate(NatOf(y), s[1..])
  {
    XorIsWords(x, b);
    StepsAreWords(x ^ b, 8);
  }

  /** The bytes of the digits 1 to 9. */
  lemma DigitWords()
    ensures NatOf(0x31) == 0x31 && NatOf(0x32) == 0x32 && NatOf(0x33) == 0x33 && NatOf(0x34) == 0x34
    ensures NatOf(0x35) == 0x35 && NatOf(0x36) == 0x36 && NatOf(0x37) == 0x37 && NatOf(0x38) == 0x38
    ensures NatOf(0x39) == 0x39
  {
    FourBits(0x3, 0x1, 0x0, 0x0, 0x0);
    FourBits(0x31, 0x18, 0xC, 0x6, 0x3);
    FourBits(0x32, 0x19, 0xC, 0x6, 0x3);
    FourBits(0x33, 0x19, 0xC, 0x6, 0x3);
    FourBits(0x34, 0x1A, 0xD, 0x6, 0x3);
    FourBits(0x35, 0x1A, 0xD, 0x6, 0x3);
    FourBits(0x36, 0x1B, 0xD, 0x6, 0x3);
    FourBits(0x37, 0x1B, 0xD, 0x6, 0x3);
    FourBits(0x38, 0x1C, 0xE, 0x7, 0x3);
    FourBits(0x39, 0x1C, 0xE, 0x7, 0x3);
  }

  lemma FirstSteps()
    ensures WordSteps(0xFFFFFFFF ^ 0x31, 8) == 0x7C231048
    ensures WordSteps(0x7C231048 ^ 0x32, 8) == 0xB0ACBB32
    ensures WordSteps(0xB0ACBB32 ^ 0x33, 8) == 0x77B79C2D
  {
  }

  lemma MiddleSteps()
    ensures WordSteps(0x77B79C2D ^ 0x34, 8) == 0x641C1F5C
    ensures WordSteps(0x641C1F5C ^ 0x35, 8) == 0x340AC5E3
    ensures WordSteps(0x340AC5E3 ^ 0x36, 8) == 0xF68D2C9E
  {
  }

  lemma LastSteps()
    ensures WordSteps(0xF68D2C9E ^ 0x37, 8) == 0xAFFC9660
    ensures WordSteps(0xAFFC9660 ^ 0x38, 8) == 0x651F2550
    ensures WordSteps(0x651F2550 ^ 0x39, 8) == 0x340BC6D9
  {
  }

  lemma ThreeBytes(x: bv32, y: bv32, z: bv32, w: bv32, a: bv32, b: bv32, c: bv32, s: string)
    requires |s| >= 3 && NatOf(a) == s[0] as int % 256 && NatOf(b) == s[1] as int % 256
    requires NatOf(c) == s[2] as int % 256
    requires WordSteps(x ^ a, 8) == y && WordSteps(y ^ b, 8) == z && WordSteps(z ^ c, 8) == w
    ensures NatUpdate(NatOf(x), s) == NatUpdate(NatOf(w), s[3..])
  {
    FeedByte(x, y, a, s);
    FeedByte(y, z, b, s[1..]);
    FeedByte(z, w, c, s[1..][1..]);
    assert s[1..][1..][1..] == s[3..];
  }

  lemma FirstDigits(s: string)
    requires |s| >= 3 && s[0] as int == 0x31 && s[1] as int == 0x32 && s[2] as int == 0x33
    ensures NatUpdate(NatOf(0xFFFFFFFF), s) == NatUpdate(NatOf(0x77B79C2D), s[3..])
  {
    DigitWords();
    FirstSteps();
    ThreeBytes(0xFFFFFFFF, 0x7C231048, 0xB0ACBB32, 0x77B79C2D, 0x31, 0x32, 0x33, s);
  }

  lemma MiddleDigits(s: string)
    requires |s| >= 3 && s[0] as int == 0x34 && s[1] as int == 0x35 && s[2] as int == 0x36
    ensures NatUpdate(NatOf(0x77B79C2D), s) == NatUpdate(NatOf(0xF68D2C9E), s[3..])
  {
    DigitWords();
    MiddleSteps();
    ThreeBytes(0x77B79C2D, 0x641C1F5C, 0x340AC5E3, 0xF68D2C9E, 0x34, 0x35, 0x36, s);
  }

  lemma LastDigits(s: string)
    requires |s| >= 3 && s[0] as int == 0x37 && s[1] as int == 0x38 && s[2] as int == 0x39
    ensures NatUpdate(NatOf(0xF68D2C9E), s) == NatUpdate(NatOf(0x340BC6D9), s[3..])
  {
    DigitWords();
    LastSteps();
    ThreeBytes(0xF68D2C9E, 0xAFFC9660, 0x651F2550, 0x340BC6D9, 0x37, 0x38, 0x39, s);
  }

  predicate IsDigits(s: string) {
    |s| == 9 && forall i :: 0 <= i < 9 ==> s[i] as int == 0x31 + i
  }

  lemma DigitsUpdate(s: string)
    requires IsDigits(s)
    ensures NatUpdate(NatOf(0xFFFF_FFFF), s) == NatOf(0x340BC6D9)
  {
    FirstDigits(s);
    MiddleDigits(s[3..]);
    LastDigits(s[3..][3..]);
    assert s[3..][3..][3..] == "";
  }

  /** The check value of CRC-32/IEEE. */
  lemma CheckValue()
    ensures Unsigned(Checksum(Octets("123456789"))) == 0xCBF4_3926
  {
    CheckValueOf("123456789");
  }

  lemma CheckValueOf(s: string)
    requires IsDigits(s)
    ensures Unsigned(Checksum(Octets(s))) == 0xCBF4_3926
  {
    ChecksumIsNat(s);
    OnesWord();
    DigitsUpdate(s);
    XorIsWords(0x340BC6D9, 0xFFFF_FFFF);
    CheckWord();
  }
}
