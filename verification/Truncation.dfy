/** The end marker of a key file (keyfile/load.go, lastNonBlankLine and its use in parse):
    when exactly does a write cut short at some byte show? */
module Truncation {
  import opened GoTypes

  const MARKER := "end: true"

  // ----- lines

  /** `strings.Split(data, "\n")`, built one byte at a time. */
  function Lines(data: string): (lines: seq<string>)
    ensures |lines| > 0
  {
    if data == [] then [""] else AddByte(Lines(data[..|data| - 1]), data[|data| - 1])
  }

  /** A newline begins an empty line; any other byte goes on with the last one. */
  function AddByte(lines: seq<string>, c: char): (more: seq<string>)
    requires |lines| > 0
    ensures |more| > 0
  {
    if c == '\n' then lines + [""] else GoOn(lines, [c])
  }

  function GoOn(lines: seq<string>, more: string): seq<string>
    requires |lines| > 0
  {
    lines[..|lines| - 1] + [lines[|lines| - 1] + more]
  }

  function Join(lines: seq<string>): string
    requires |lines| > 0
  {
    if |lines| == 1 then lines[0] else Join(lines[..|lines| - 1]) + "\n" + lines[|lines| - 1]
  }

  lemma JoinOneMore(lines: seq<string>, c: char)
    requires |lines| > 0
    ensures Join(AddByte(lines, c)) == Join(lines) + [c]
  {
    var more := AddByte(lines, c);
    if c == '\n' {
      assert more[..|more| - 1] == lines;
    } else if |lines| > 1 {
      assert more[..|more| - 1] == lines[..|lines| - 1];
      assert Join(more) == Join(lines[..|lines| - 1]) + "\n" + (lines[|lines| - 1] + [c]);
    }
  }

  predicate NoNewline(lines: seq<string>) {
    forall i :: 0 <= i < |lines| ==> '\n' !in lines[i]
  }

  lemma NoNewlineAdded(lines: seq<string>, c: char)
    requires |lines| > 0 && NoNewline(lines)
    ensures NoNewline(AddByte(lines, c))
  {
  }

  /** The lines hold no newline, and joining them with newlines gives the data back. */
  lemma {:induction false} LinesJoin(data: string)
    ensures Join(Lines(data)) == data
    ensures forall i :: 0 <= i < |Lines(data)| ==> '\n' !in Lines(data)[i]
  {
    if data != [] {
      var front, c := data[..|data| - 1], data[|data| - 1];
      LinesJoin(front);
      JoinOneMore(Lines(front), c);
      assert NoNewline(Lines(front));
      NoNewlineAdded(Lines(front), c);
      assert data == front + [c];
    }
  }

  // ----- blank lines

  /** The length of the white-space character the line starts with, in bytes of UTF-8; 0 if none. */
  function SpaceAt(s: string): (n: nat)
    ensures n <= |s|
  {
    if s == [] then 0
    else if '\t' <= s[0] <= '\r' || s[0] == ' ' then 1
    else if |s| >= 2 && s[0] == 0xC2 as char && (s[1] == 0x85 as char || s[1] == 0xA0 as char) then 2
    else if |s| >= 3 && WideSpace(s[0] as int, s[1] as int, s[2] as int) then 3
    else 0
  }

  /** U+1680, U+2000 to U+200A, U+2028, U+2029, U+202F, U+205F and U+3000. */
  predicate WideSpace(a: int, b: int, c: int) {
    || (a == 0xE1 && b == 0x9A && c == 0x80)
    || (a == 0xE2 && b == 0x80 && (0x80 <= c <= 0x8A || c == 0xA8 || c == 0xA9 || c == 0xAF))
    || (a == 0xE2 && b == 0x81 && c == 0x9F)
    || (a == 0xE3 && b == 0x80 && c == 0x80)
  }

  /** `strings.TrimSpace(s) == ""`. */
  predicate Blank(s: string) {
    s == [] || (SpaceAt(s) > 0 && Blank(s[SpaceAt(s)..]))
  }

  function NonBlank(lines: seq<string>): seq<string> {
    if lines == [] then []
    else
      var front := NonBlank(lines[..|lines| - 1]);
      if Blank(lines[|lines| - 1]) then front else front + [lines[|lines| - 1]]
  }

  function TrimCR(s: string): string {
    if HasSuffix(s, "\r") then s[..|s| - 1] else s
  }

  function LastNonBlank(lines: seq<string>): string {
    var kept := NonBlank(lines);
    if kept == [] then "" else TrimCR(kept[|kept| - 1])
  }

  method LastNonBlankLine(data: string) returns (s: string)
    ensures s == LastNonBlank(Lines(data))
  {
    var lines := Lines(data);
    var i := |lines|;
    assert lines[..i] == lines;
    while i > 0
      invariant 0 <= i <= |lines|
      invariant NonBlank(lines) == NonBlank(lines[..i])
    {
      i := i - 1;
      assert lines[..i + 1][..i] == lines[..i];
      if !Blank(lines[i]) {
        return TrimCR(lines[i]);
      }
    }
    return "";
  }

  // ----- truncation

  predicate Marked(data: string) {
    LastNonBlank(Lines(data)) == MARKER
  }

  /** What the file says: its non-blank lines, the last one without a final carriage return. */
  function Substance(data: string): seq<string> {
    TrimLast(NonBlank(Lines(data)))
  }

  function TrimLast(kept: seq<string>): seq<string> {
    if kept == [] then [] else kept[..|kept| - 1] + [TrimCR(kept[|kept| - 1])]
  }

  /** Every proper prefix that carries the marker says what the whole file says. */
  ghost predicate TruncationShows(data: string) {
    forall n :: 0 <= n < |data| && Marked(data[..n]) ==> Substance(data[..n]) == Substance(data)
  }

  /** Only the last non-blank line begins with the marker, and it holds nothing else. */
  predicate MarkerOnlyLast(data: string) {
    var lines := Lines(data);
    forall i :: 0 <= i < |lines| && HasPrefix(lines[i], MARKER) ==>
      && (lines[i] == MARKER || lines[i] == MARKER + "\r")
      && forall j :: i < j < |lines| ==> Blank(lines[j])
  }

  /** A prefix of the data has the same lines, up to its last one which may be cut. */
  lemma {:induction false} LinesOfPrefix(data: string, n: nat)
    requires n <= |data|
    ensures var p, l := Lines(data[..n]), Lines(data);
            |p| <= |l| && p[..|p| - 1] == l[..|p| - 1] && p[|p| - 1] <= l[|p| - 1]
    decreases |data|
  {
    if n == |data| {
      assert data[..n] == data;
    } else {
      var m := |data| - 1;
      LinesOfPrefix(data[..m], n);
      assert data[..m][..n] == data[..n];
      var p, f, l := Lines(data[..n]), Lines(data[..m]), Lines(data);
      if |p| < |f| {
        assert l[|p| - 1] == f[|p| - 1];
      }
      assert l[..|f| - 1] == f[..|f| - 1];
      assert p[..|p| - 1] == f[..|f| - 1][..|p| - 1];
    }
  }

  /** Conversely every cut inside a line is reached by some prefix. */
  lemma {:induction false} PrefixOfLines(data: string, i: nat, head: string) returns (n: nat)
    requires i < |Lines(data)| && head <= Lines(data)[i]
    ensures n <= |data| && Lines(data[..n]) == Lines(data)[..i] + [head]
    ensures n == |data| ==> i == |Lines(data)| - 1 && head == Lines(data)[i]
    decreases |data|
  {
    var l := Lines(data);
    if i == |l| - 1 && head == l[i] {
      n := |data|;
      assert data[..n] == data;
      assert l == l[..i] + [head];
    } else {
      var m := |data| - 1;
      CutOfAdded(Lines(data[..m]), data[m], i, head);
      n := PrefixOfLines(data[..m], i, head);
      assert data[..m][..n] == data[..n];
    }
  }

  lemma CutOfAdded(f: seq<string>, c: char, i: nat, head: string)
    requires |f| > 0 && i < |AddByte(f, c)| && head <= AddByte(f, c)[i]
    requires i < |AddByte(f, c)| - 1 || head != AddByte(f, c)[i]
    ensures i < |f| && head <= f[i] && f[..i] == AddByte(f, c)[..i]
  {
    var l := AddByte(f, c);
    if c == '\n' {
      assert i < |f| && l[..i] == f[..i];
    } else {
      assert l[..i] == f[..i];
      if i == |f| - 1 {
        assert l[i] == f[i] + [c] && |head| < |l[i]|;
        assert head == l[i][..|head|] == f[i][..|head|];
      }
    }
  }

  lemma {:induction false} NonBlankAppend(a: seq<string>, b: seq<string>)
    ensures NonBlank(a + b) == NonBlank(a) + NonBlank(b)
  {
    if b == [] {
      assert a + b == a;
    } else {
      NonBlankAppend(a, b[..|b| - 1]);
      assert (a + b)[..|a + b| - 1] == a + b[..|b| - 1];
    }
  }

  lemma {:induction false} AllBlank(lines: seq<string>)
    ensures NonBlank(lines) == [] <==> forall j :: 0 <= j < |lines| ==> Blank(lines[j])
  {
    if lines != [] {
      AllBlank(lines[..|lines| - 1]);
    }
  }

  lemma MarkerNotBlank(s: string)
    requires HasPrefix(s, MARKER)
    ensures !Blank(s)
  {
    assert s[0] == 'e';
  }

  /** Non-blank lines around line `i`, when that one is not blank. */
  lemma NonBlankAround(lines: seq<string>, i: nat)
    requires i < |lines| && !Blank(lines[i])
    ensures NonBlank(lines) == NonBlank(lines[..i]) + [lines[i]] + NonBlank(lines[i + 1..])
  {
    assert lines == lines[..i] + [lines[i]] + lines[i + 1..];
    NonBlankAppend(lines[..i] + [lines[i]], lines[i + 1..]);
    NonBlankAppend(lines[..i], [lines[i]]);
  }

  /** The last non-blank line, by position. */
  lemma {:induction false} LastNonBlankAt(lines: seq<string>) returns (i: nat)
    requires NonBlank(lines) != []
    ensures i < |lines| && !Blank(lines[i]) && NonBlank(lines[i + 1..]) == []
    ensures NonBlank(lines) == NonBlank(lines[..i]) + [lines[i]]
  {
    var last := |lines| - 1;
    if Blank(lines[last]) {
      i := LastNonBlankAt(lines[..last]);
      assert lines[..last][..i] == lines[..i];
      AllBlank(lines[..last][i + 1..]);
      AllBlank(lines[i + 1..]);
      assert lines[i + 1..] == lines[..last][i + 1..] + [lines[last]];
    } else {
      i := last;
    }
  }

  /** Two files whose lines agree up to a cut last line: if the cut one ends in the marker and the
      whole one begins with it only at its end, they say the same. */
  lemma SafeCut(p: seq<string>, l: seq<string>, i: nat)
    requires i < |p| <= |l| && p[..i] == l[..i] && p[i] <= l[i]
    requires NonBlank(p) == NonBlank(p[..i]) + [p[i]] && TrimCR(p[i]) == MARKER
    requires l[i] == MARKER || l[i] == MARKER + "\r"
    requires forall j :: i < j < |l| ==> Blank(l[j])
    ensures TrimLast(NonBlank(p)) == TrimLast(NonBlank(l))
  {
    MarkerNotBlank(l[i]);
    AllBlank(l[i + 1..]);
    NonBlankAround(l, i);
  }

  lemma SafePrefix(data: string, n: nat)
    requires MarkerOnlyLast(data) && n < |data| && Marked(data[..n])
    ensures Substance(data[..n]) == Substance(data)
  {
    var p, l := Lines(data[..n]), Lines(data);
    LinesOfPrefix(data, n);
    var i := LastNonBlankAt(p);
    if i < |p| - 1 {
      assert p[i] == p[..|p| - 1][i] == l[..|p| - 1][i];
    }
    assert p[..i] == p[..|p| - 1][..i] && l[..i] == l[..|p| - 1][..i];
    assert TrimCR(p[i]) == MARKER;
    assert HasPrefix(p[i], MARKER);
    SafeCut(p, l, i);
  }

  lemma CutAfterMarker(data: string, i: nat)
    requires TruncationShows(data) && i < |Lines(data)| && HasPrefix(Lines(data)[i], MARKER)
    ensures Lines(data)[i] == MARKER || Lines(data)[i] == MARKER + "\r"
    ensures forall j :: i < j < |Lines(data)| ==> Blank(Lines(data)[j])
  {
    var l := Lines(data);
    var n := PrefixOfLines(data, i, MARKER);
    if n < |data| {
      var p := Lines(data[..n]);
      MarkerNotBlank(MARKER);
      NonBlankAppend(l[..i], [MARKER]);
      assert Substance(data[..n]) == NonBlank(l[..i]) + [MARKER];
      SameSubstance(l, i);
    }
  }

  lemma SameSubstance(l: seq<string>, i: nat)
    requires i < |l| && HasPrefix(l[i], MARKER)
    requires TrimLast(NonBlank(l)) == NonBlank(l[..i]) + [MARKER]
    ensures l[i] == MARKER || l[i] == MARKER + "\r"
    ensures forall j :: i < j < |l| ==> Blank(l[j])
  {
    MarkerNotBlank(l[i]);
    NonBlankAround(l, i);
    assert |NonBlank(l)| == |NonBlank(l[..i])| + 1 + |NonBlank(l[i + 1..])|;
    assert NonBlank(l[i + 1..]) == [];
    AllBlank(l[i + 1..]);
    forall j | i < j < |l|
      ensures Blank(l[j])
    {
      assert l[j] == l[i + 1..][j - i - 1];
    }
    assert TrimLast(NonBlank(l))[|NonBlank(l[..i])|] == TrimCR(l[i]);
  }

  /** The exact guarantee of the end marker, for every file. */
  lemma TruncationShowsExactly(data: string)
    ensures TruncationShows(data) <==> MarkerOnlyLast(data)
  {
    if MarkerOnlyLast(data) {
      forall n | 0 <= n < |data| && Marked(data[..n])
        ensures Substance(data[..n]) == Substance(data)
      {
        SafePrefix(data, n);
      }
    }
    if TruncationShows(data) {
      forall i | 0 <= i < |Lines(data)| && HasPrefix(Lines(data)[i], MARKER)
        ensures Lines(data)[i] == MARKER || Lines(data)[i] == MARKER + "\r"
        ensures forall j :: i < j < |Lines(data)| ==> Blank(Lines(data)[j])
      {
        CutAfterMarker(data, i);
      }
    }
  }

  /** A newline ends the last line and begins an empty one. */
  lemma LinesEnd(data: string)
    ensures Lines(data + "\n") == Lines(data) + [""]
  {
    assert (data + "\n")[..|data|] == data;
  }

  /** Anything else goes on with the last line. */
  lemma {:induction false} LinesGoOn(data: string, more: string)
    requires '\n' !in more
    ensures Lines(data + more) == GoOn(Lines(data), more)
  {
    if more == "" {
      assert data + more == data;
      var l := Lines(data);
      assert l[|l| - 1] + more == l[|l| - 1];
    } else {
      var front, c := more[..|more| - 1], more[|more| - 1];
      assert more == front + [c];
      assert c in more && c != '\n' && '\n' !in front;
      LinesGoOn(data, front);
      assert (data + more)[..|data + more| - 1] == data + front;
      GoOnTwice(Lines(data), front, [c]);
    }
  }

  lemma GoOnTwice(lines: seq<string>, a: string, b: string)
    requires |lines| > 0
    ensures GoOn(GoOn(lines, a), b) == GoOn(lines, a + b)
  {
    assert lines[|lines| - 1] + a + b == lines[|lines| - 1] + (a + b);
  }

  lemma LinesOfTwo(a: string, b: string)
    requires '\n' !in a && '\n' !in b
    ensures Lines(a + "\n" + b) == [a, b]
  {
    LinesGoOn("", a);
    assert "" + a == a;
    LinesEnd(a);
    LinesGoOn(a + "\n", b);
    assert "" + b == b;
  }

  lemma RepeatedMarker(m: string)
    requires m == MARKER
    ensures Marked(m + "\n" + m) && !TruncationShows(m + "\n" + m)
  {
    LinesOfTwo(m, m);
    var l := Lines(m + "\n" + m);
    MarkerNotBlank(m);
    NonBlankAround(l, 1);
    assert l[2..] == [];
    TruncationShowsExactly(m + "\n" + m);
    assert HasPrefix(l[0], MARKER) && !Blank(l[1]);
  }

  /** The marker alone is not enough: two lines of it pass the check, and are not safe to cut. (Whether such a
      file also decodes is not a matter of the marker.) */
  lemma EarlyMarkerHidesTruncation()
    ensures Marked(MARKER + "\n" + MARKER) && !TruncationShows(MARKER + "\n" + MARKER)
  {
    RepeatedMarker(MARKER);
  }
}
