/** Bearer tokens (keyfile/token.go): prefix, marker, 43 base-62 characters of a 32-byte secret,
    then 6 base-62 characters of the CRC-32 of everything before them. */
module Token {
  import opened Base62
  import opened Crc32
  import opened GoTypes

  const MARKER := "1_"
  const BODY_LEN: nat := 43
  const CRC_LEN: nat := 6
  const SECRET_BYTES: nat := 32

  type Secret = raw: seq<Byte> | |raw| == SECRET_BYTES witness seq(SECRET_BYTES, i => 0)

  predicate ValidPrefix(p: string) {
    2 <= |p| <= 8 && forall i :: 0 <= i < |p| ==> 'a' <= p[i] <= 'z'
  }

  /** The value of a big-endian byte string. */
  function SetBytes(raw: seq<Byte>): nat {
    if raw == [] then 0 else SetBytes(raw[..|raw| - 1]) * 256 + raw[|raw| - 1] as nat
  }

  function OctetOf(c: char): Octet {
    BitsOf(c as int % 256, 8)
  }

  function Octets(s: string): (o: seq<Octet>)
    ensures |o| == |s| && forall i :: 0 <= i < |s| ==> o[i] == OctetOf(s[i])
  {
    seq(|s|, i requires 0 <= i < |s| => OctetOf(s[i]))
  }

  function CrcDigits(s: string): string {
    Encode(Unsigned(Checksum(Octets(s))), CRC_LEN)
  }

  function Head(prefix: string, raw: Secret): string {
    prefix + MARKER + Encode(SetBytes(raw), BODY_LEN)
  }

  function EncodeToken(prefix: string, raw: Secret): string {
    Head(prefix, raw) + CrcDigits(Head(prefix, raw))
  }

  /** Where the body starts. */
  function HeadLen(prefix: string): nat {
    |prefix| + |MARKER|
  }

  predicate IsWellFormed(prefix: string, token: string) {
    var h := HeadLen(prefix);
    && |token| == h + BODY_LEN + CRC_LEN
    && prefix + MARKER <= token
    && IsNumeral(token[h..])
    && token[h + BODY_LEN..] == CrcDigits(token[..h + BODY_LEN])
  }

  lemma NumeralGrows(token: string, h: nat, i: nat)
    requires h <= i < |token| && IsNumeral(token[h..i])
    ensures IsDigit(token[i]) ==> IsNumeral(token[h..i + 1])
    ensures !IsDigit(token[i]) ==> !IsNumeral(token[h..])
  {
    assert token[h..i + 1] == token[h..i] + [token[i]];
    assert token[h..][i - h] == token[i];
  }

  /** The scan of the source: length and prefix first, then the alphabet, then the checksum. */
  method WellFormed(prefix: string, token: string) returns (ok: bool)
    ensures ok == IsWellFormed(prefix, token)
  {
    var h := HeadLen(prefix);
    if |token| != h + BODY_LEN + CRC_LEN || !(prefix + MARKER <= token) {
      return false;
    }
    for i := h to |token|
      invariant IsNumeral(token[h..i])
    {
      InAlphabet(token[i]);
      NumeralGrows(token, h, i);
      if token[i] !in ALPHABET {
        return false;
      }
    }
    assert token[h..|token|] == token[h..];
    return token[h + BODY_LEN..] == CrcDigits(token[..h + BODY_LEN]);
  }

  // ----- what a well-formed token is

  function BodyOf(prefix: string, token: string): (body: string)
    requires |token| >= HeadLen(prefix) + BODY_LEN
    ensures |body| == BODY_LEN
  {
    token[HeadLen(prefix)..HeadLen(prefix) + BODY_LEN]
  }

  lemma CrcDigitsShape(s: string)
    ensures |CrcDigits(s)| == CRC_LEN && IsNumeral(CrcDigits(s))
  {
    EncodeShape(Unsigned(Checksum(Octets(s))), CRC_LEN);
  }

  /** A body and nothing else determines a well-formed token, and any body will do. */
  lemma WellFormedShape(prefix: string, token: string)
    ensures IsWellFormed(prefix, token) <==>
            exists body :: |body| == BODY_LEN && IsNumeral(body)
                        && token == prefix + MARKER + body + CrcDigits(prefix + MARKER + body)
  {
    if IsWellFormed(prefix, token) {
      HasBody(prefix, token);
    }
    if body :| |body| == BODY_LEN && IsNumeral(body)
             && token == prefix + MARKER + body + CrcDigits(prefix + MARKER + body) {
      AnyBodyWillDo(prefix, body);
    }
  }

  lemma HasBody(prefix: string, token: string)
    requires IsWellFormed(prefix, token)
    ensures var body := BodyOf(prefix, token);
            IsNumeral(body) && token == prefix + MARKER + body + CrcDigits(prefix + MARKER + body)
  {
    var h := HeadLen(prefix);
    var body := BodyOf(prefix, token);
    assert token[..h] == prefix + MARKER;
    assert token[..h + BODY_LEN] == prefix + MARKER + body;
    assert forall i :: 0 <= i < BODY_LEN ==> body[i] == token[h..][i];
  }

  lemma AnyBodyWillDo(prefix: string, body: string)
    requires |body| == BODY_LEN && IsNumeral(body)
    ensures IsWellFormed(prefix, prefix + MARKER + body + CrcDigits(prefix + MARKER + body))
  {
    var h, head := HeadLen(prefix), prefix + MARKER + body;
    CrcDigitsShape(head);
    var token := head + CrcDigits(head);
    assert token[..h + BODY_LEN] == head;
    assert token[h..] == body + CrcDigits(head);
  }

  /** Tokens of two different prefixes are never confused. */
  lemma PrefixDetermined(p: string, q: string, token: string)
    requires ValidPrefix(p) && ValidPrefix(q)
    requires IsWellFormed(p, token) && IsWellFormed(q, token)
    ensures p == q
  {
    assert p == token[..|p|] && q == token[..|q|];
  }

  // ----- minting

  lemma {:induction false} SetBytesBound(raw: seq<Byte>)
    ensures SetBytes(raw) < Pow(256, |raw|)
  {
    if raw != [] {
      SetBytesBound(raw[..|raw| - 1]);
    }
  }

  lemma {:induction false} SetBytesInjective(r: seq<Byte>, s: seq<Byte>)
    requires |r| == |s| && SetBytes(r) == SetBytes(s)
    ensures r == s
  {
    if r != [] {
      SetBytesInjective(r[..|r| - 1], s[..|s| - 1]);
      assert r == r[..|r| - 1] + [r[|r| - 1]] && s == s[..|s| - 1] + [s[|s| - 1]];
    }
  }

  /** The secret is read with its first byte highest. */
  lemma {:induction false} SetBytesAt(raw: seq<Byte>, i: nat)
    requires i < |raw|
    ensures Pow(256, i) > 0 && SetBytes(raw) / Pow(256, i) % 256 == raw[|raw| - 1 - i] as nat
    decreases i
  {
    PowPositive(256, i);
    var front := raw[..|raw| - 1];
    LastByte(SetBytes(front), raw[|raw| - 1] as nat);
    if i == 0 {
      assert SetBytes(raw) / 1 == SetBytes(raw);
    } else {
      SetBytesAt(front, i - 1);
      DivDiv(SetBytes(raw), 256, Pow(256, i - 1));
    }
  }

  lemma LastByte(q: nat, r: nat)
    requires r < 256
    ensures (q * 256 + r) / 256 == q && (q * 256 + r) % 256 == r
  {
  }

  lemma {:induction false} SetBytesOnto(n: nat, width: nat) returns (raw: seq<Byte>)
    requires n < Pow(256, width)
    ensures |raw| == width && SetBytes(raw) == n
  {
    if width == 0 {
      raw := [];
    } else {
      var high := SetBytesOnto(n / 256, width - 1);
      raw := high + [(n % 256) as Byte];
      assert raw[..|raw| - 1] == high;
    }
  }

  lemma SecretFits(raw: Secret)
    ensures SetBytes(raw) < Pow(RADIX, BODY_LEN)
  {
    SetBytesBound(raw);
    WidthsAreTight();
  }

  /** Every minted token has the one length of its prefix, passes the check, and its body
      still holds the whole secret. */
  lemma MintedIsWellFormed(prefix: string, raw: Secret)
    ensures var token := EncodeToken(prefix, raw);
            && |token| == |prefix| + 51 && prefix + "1_" <= token
            && IsWellFormed(prefix, token)
            && IsNumeral(BodyOf(prefix, token))
            && Decode(BodyOf(prefix, token)) == SetBytes(raw)
  {
    var body := Encode(SetBytes(raw), BODY_LEN);
    EncodeShape(SetBytes(raw), BODY_LEN);
    CrcDigitsShape(prefix + MARKER + body);
    WellFormedShape(prefix, EncodeToken(prefix, raw));
    assert BodyOf(prefix, EncodeToken(prefix, raw)) == body;
    SecretFits(raw);
    DecodeEncode(SetBytes(raw), BODY_LEN);
  }

  lemma MintInjective(prefix: string, r: Secret, s: Secret)
    requires EncodeToken(prefix, r) == EncodeToken(prefix, s)
    ensures r == s
  {
    MintedIsWellFormed(prefix, r);
    MintedIsWellFormed(prefix, s);
    SetBytesInjective(r, s);
  }

  lemma MintPreimage(prefix: string, token: string) returns (raw: Secret)
    requires IsWellFormed(prefix, token) && IsNumeral(BodyOf(prefix, token))
    requires Decode(BodyOf(prefix, token)) < Pow(256, SECRET_BYTES)
    ensures token == EncodeToken(prefix, raw)
  {
    var h := HeadLen(prefix);
    var body := BodyOf(prefix, token);
    raw := SetBytesOnto(Decode(body), SECRET_BYTES);
    EncodeDecode(body);
    assert token[..h] == prefix + MARKER;
    assert token[..h + BODY_LEN] == token[..h] + body;
    assert token[..h + BODY_LEN] == Head(prefix, raw);
    assert token == token[..h + BODY_LEN] + token[h + BODY_LEN..];
  }

  /** The check accepts more than was ever minted: exactly the bodies worth 2^256 or more. */
  lemma MintedExactly(prefix: string, token: string)
    ensures (exists raw: Secret :: token == EncodeToken(prefix, raw)) <==>
            (IsWellFormed(prefix, token)
             && IsNumeral(BodyOf(prefix, token))
             && Decode(BodyOf(prefix, token)) < Pow(256, SECRET_BYTES))
  {
    if raw: Secret :| token == EncodeToken(prefix, raw) {
      MintedIsWellFormed(prefix, raw);
      SetBytesBound(raw);
    }
    if IsWellFormed(prefix, token) {
      var body := BodyOf(prefix, token);
      if IsNumeral(body) && Decode(body) < Pow(256, SECRET_BYTES) {
        var raw := MintPreimage(prefix, token);
      }
    }
  }

  // ----- corruption

  lemma OctetInjective(c: char, d: char)
    requires IsDigit(c) && IsDigit(d) && OctetOf(c) == OctetOf(d)
    ensures c == d
  {
    TwoTo8();
    BelowItself(c as int);
    BelowItself(d as int);
    BitsOfInjective(c as int % 256, d as int % 256, 8);
  }

  lemma BelowItself(n: nat)
    requires n < 256
    ensures n % 256 == n
  {
  }

  lemma BitsOfInjective(m: nat, n: nat, width: nat)
    requires m < TwoTo(width) && n < TwoTo(width) && BitsOf(m, width) == BitsOf(n, width)
    ensures m == n
  {
    UnsignedBitsOf(m, width);
    UnsignedBitsOf(n, width);
  }

  lemma TwoTo8()
    ensures TwoTo(8) == 256
  {
    assert TwoTo(4) == 16;
  }

  lemma CrcDigitsInjective(s: string, t: string)
    requires CrcDigits(s) == CrcDigits(t)
    ensures Checksum(Octets(s)) == Checksum(Octets(t))
  {
    var cs, ct := Checksum(Octets(s)), Checksum(Octets(t));
    UnsignedBound(cs);
    UnsignedBound(ct);
    TwoTo32();
    WidthsAreTight();
    EncodeInjective(Unsigned(cs), Unsigned(ct), CRC_LEN);
    UnsignedInjective(cs, ct);
  }

  lemma TwoTo32()
    ensures TwoTo(32) == 0x1_0000_0000
  {
    assert TwoTo(8) == 256;
    assert TwoTo(16) == 256 * TwoTo(8);
    assert TwoTo(24) == 256 * TwoTo(16);
    assert TwoTo(32) == 256 * TwoTo(24);
  }

  lemma ChecksumIsOfHead(prefix: string, token: string)
    requires IsWellFormed(prefix, token)
    ensures var n := HeadLen(prefix) + BODY_LEN;
            n <= |token| && token[n..] == CrcDigits(token[..n])
  {
  }

  lemma JoinedAt(s: string, t: string, n: nat)
    requires n <= |s| && n <= |t| && s[..n] == t[..n] && s[n..] == t[n..]
    ensures s == t
  {
    assert s == s[..n] + s[n..] && t == t[..n] + t[n..];
  }

  /** Changing any of the six checksum characters, and nothing else, is noticed. */
  lemma ChecksumChangeDetected(prefix: string, token: string, bad: string)
    requires IsWellFormed(prefix, token) && |bad| == |token| && bad != token
    requires bad[..HeadLen(prefix) + BODY_LEN] == token[..HeadLen(prefix) + BODY_LEN]
    ensures !IsWellFormed(prefix, bad)
  {
    var n := HeadLen(prefix) + BODY_LEN;
    ChecksumIsOfHead(prefix, token);
    if IsWellFormed(prefix, bad) {
      ChecksumIsOfHead(prefix, bad);
      JoinedAt(token, bad, n);
    }
  }

  /** Two well-formed tokens that agree outside four consecutive body characters are one. */
  lemma BodyBurstUnique(prefix: string, token: string, other: string, w: nat)
    requires IsWellFormed(prefix, token) && IsWellFormed(prefix, other)
    requires HeadLen(prefix) <= w && w + 4 <= HeadLen(prefix) + BODY_LEN
    requires other[..w] == token[..w] && other[w + 4..] == token[w + 4..]
    ensures other == token
  {
    var h := HeadLen(prefix);
    var n := h + BODY_LEN;
    var s, t := token[..n], other[..n];
    assert t[..w] == other[..w] && s[..w] == token[..w];
    assert s[w + 4..] == token[w + 4..][..n - w - 4] && t[w + 4..] == other[w + 4..][..n - w - 4];
    assert token[n..] == token[w + 4..][n - w - 4..] && other[n..] == other[w + 4..][n - w - 4..];
    CrcDigitsInjective(s, t);
    OctetsWindow(s, t, w);
    BurstDetected(Octets(s), Octets(t), w);
    forall i | w <= i < w + 4
      ensures s[i] == t[i]
    {
      assert token[h..][i - h] == s[i] && other[h..][i - h] == t[i];
      assert Octets(s)[i] == Octets(t)[i];
      OctetInjective(s[i], t[i]);
    }
    assert token == token[..w] + s[w..w + 4] + token[w + 4..];
    assert other == other[..w] + t[w..w + 4] + other[w + 4..];
  }

  /** So is changing any body characters inside one window of four consecutive ones. */
  lemma BodyBurstDetected(prefix: string, token: string, bad: string, w: nat)
    requires IsWellFormed(prefix, token) && |bad| == |token| && bad != token
    requires HeadLen(prefix) <= w && w + 4 <= HeadLen(prefix) + BODY_LEN
    requires bad[..w] == token[..w] && bad[w + 4..] == token[w + 4..]
    ensures !IsWellFormed(prefix, bad)
  {
    if IsWellFormed(prefix, bad) {
      BodyBurstUnique(prefix, token, bad, w);
    }
  }

  lemma OctetsWindow(s: string, t: string, w: nat)
    requires |s| == |t| && w + 4 <= |s|
    requires s[..w] == t[..w] && s[w + 4..] == t[w + 4..]
    ensures Octets(s)[..w] == Octets(t)[..w] && Octets(s)[w + 4..] == Octets(t)[w + 4..]
  {
    forall i | 0 <= i < |s| && (i < w || w + 4 <= i)
      ensures Octets(s)[i] == Octets(t)[i]
    {
      if i < w {
        assert s[i] == s[..w][i] && t[i] == t[..w][i];
      } else {
        assert s[i] == s[w + 4..][i - w - 4] && t[i] == t[w + 4..][i - w - 4];
      }
    }
  }

  /** One wrong character anywhere (prefix, marker, body or checksum) is always noticed. */
  lemma OneCharacterDetected(prefix: string, token: string, i: nat, c: char)
    requires IsWellFormed(prefix, token) && i < |token| && c != token[i]
    ensures !IsWellFormed(prefix, token[i := c])
  {
    var h := HeadLen(prefix);
    var bad := token[i := c];
    assert bad != token by {
      assert bad[i] == c;
    }
    if i < h {
      assert (prefix + MARKER)[i] == token[i] != bad[i];
    } else if i < h + BODY_LEN {
      var w := if i + 4 <= h + BODY_LEN then i else h + BODY_LEN - 4;
      assert bad[..w] == token[..w] && bad[w + 4..] == token[w + 4..];
      BodyBurstDetected(prefix, token, bad, w);
    } else {
      assert bad[..h + BODY_LEN] == token[..h + BODY_LEN];
      ChecksumChangeDetected(prefix, token, bad);
    }
  }
}
