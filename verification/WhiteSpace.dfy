/** Which lines of a key file are blank: strings.TrimSpace against the characters it is said to trim. */
module WhiteSpace {
  import opened Truncation

  /** The code points with the property White_Space of the Unicode standard. */
  predicate WhiteSpace(c: nat) {
    9 <= c <= 13 || 0x2000 <= c <= 0x200A
    || c in {0x20, 0x85, 0xA0, 0x1680, 0x2028, 0x2029, 0x202F, 0x205F, 0x3000}
  }

  /** The UTF-8 encoding of a code point of the basic multilingual plane (section 3 of RFC 3629). */
  function Utf8(c: nat): string
    requires c < 0x1_0000
  {
    if c < 0x80 then [c as char]
    else if c < 0x800 then [(0xC0 + c / 64) as char, (0x80 + c % 64) as char]
    else [(0xE0 + c / 4096) as char, (0x80 + c / 64 % 64) as char, (0x80 + c % 64) as char]
  }

  predicate AllSpace(cs: seq<nat>) {
    forall i :: 0 <= i < |cs| ==> WhiteSpace(cs[i])
  }

  function Encoded(cs: seq<nat>): string
    requires AllSpace(cs)
  {
    if cs == [] then "" else Utf8(cs[0]) + Encoded(cs[1..])
  }

  lemma EncodedIsSpace(c: nat, s: string)
    requires WhiteSpace(c)
    ensures SpaceAt(Utf8(c) + s) == |Utf8(c)|
  {
    var u := Utf8(c);
    assert u + s != [] && (u + s)[0] == u[0];
    if c >= 0x80 {
      assert (u + s)[1] == u[1];
    }
    if c >= 0x800 {
      assert (u + s)[2] == u[2];
    }
  }

  lemma SpaceIsEncoded(s: string) returns (c: nat)
    requires SpaceAt(s) > 0
    ensures WhiteSpace(c) && s[..SpaceAt(s)] == Utf8(c)
  {
    if SpaceAt(s) == 1 {
      c := s[0] as int;
      assert s[..1] == [s[0]];
    } else if SpaceAt(s) == 2 {
      c := s[1] as int;
      assert s[..2] == [s[0], s[1]];
    } else {
      assert s[..3] == [s[0], s[1], s[2]];
      c := WideIsEncoded(s[0] as int, s[1] as int, s[2] as int);
    }
  }

  lemma WideIsEncoded(x: int, y: int, z: int) returns (c: nat)
    requires WideSpace(x, y, z)
    ensures WhiteSpace(c) && 0x800 <= c && 0xE0 + c / 4096 == x && 0x80 + c / 64 % 64 == y && 0x80 + c % 64 == z
  {
    c := (x - 0xE0) * 4096 + (y - 0x80) * 64 + (z - 0x80);
  }

  /** A line is blank exactly if it is the UTF-8 text of white-space characters. */
  lemma BlankExactly(s: string)
    ensures Blank(s) <==> exists cs: seq<nat> :: AllSpace(cs) && s == Encoded(cs)
  {
    if Blank(s) {
      var _ := BlankIsEncoded(s);
    }
    if cs: seq<nat> :| AllSpace(cs) && s == Encoded(cs) {
      EncodedIsBlank(cs);
    }
  }

  lemma {:induction false} BlankIsEncoded(s: string) returns (cs: seq<nat>)
    requires Blank(s)
    ensures AllSpace(cs) && s == Encoded(cs)
    decreases |s|
  {
    if s == [] {
      cs := [];
    } else {
      var n := SpaceAt(s);
      var c := SpaceIsEncoded(s);
      var rest := BlankIsEncoded(s[n..]);
      cs := [c] + rest;
      assert cs[1..] == rest && s == s[..n] + s[n..];
    }
  }

  lemma {:induction false} EncodedIsBlank(cs: seq<nat>)
    requires AllSpace(cs)
    ensures Blank(Encoded(cs))
  {
    if cs != [] {
      var rest := Encoded(cs[1..]);
      EncodedIsSpace(cs[0], rest);
      EncodedIsBlank(cs[1..]);
      assert (Utf8(cs[0]) + rest)[|Utf8(cs[0])|..] == rest;
    }
  }
}
