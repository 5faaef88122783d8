/** Entry validation (keyfile/load.go): which raw entries of a key file become keys. */
module Entries {
  import opened GoTypes

  type Digest = d: seq<Byte> | |d| == 32 witness seq(32, i => 0)

  const MAX_ATTRS: nat := 32
  const MAX_ATTR_VALUE: nat := 256

  /** A decoded attribute: only strings are usable. */
  datatype AttrValue = Text(text: string) | NotText

  datatype RawKey = RawKey(
    name: string, sha256: string, expires: string, tools: seq<string>, attrs: map<string, AttrValue>)

  datatype KeyEntry = KeyEntry(
    name: string, digest: Digest, expires: int, tools: seq<string>, attrs: map<string, string>)

  /** What is fixed when the store is opened; `parseTime` is RFC 3339 parsing. */
  datatype Rules = Rules(tools: set<string>, reserved: seq<string>, parseTime: string -> Option<int>)

  /** What one load asks of the outside: the clock when the entry of that name is checked, and
      whether the consumer's validator refuses it (an error or a panic). Only an entry whose name
      is unique gets that far, so the name identifies the question. */
  datatype Answers = Answers(now: string -> int, vetoes: string -> bool)

  // ----- the checks

  predicate Lower(c: char) { 'a' <= c <= 'z' }

  predicate Numeric(c: char) { '0' <= c <= '9' }

  predicate NameOk(s: string) {
    2 <= |s| <= 32 && Lower(s[0]) && forall i :: 0 <= i < |s| ==> Lower(s[i]) || Numeric(s[i]) || s[i] == '-'
  }

  predicate AttrKeyOk(s: string) {
    1 <= |s| <= 32 && Lower(s[0]) && forall i :: 0 <= i < |s| ==> Lower(s[i]) || Numeric(s[i]) || s[i] == '_'
  }

  predicate HexDigit(c: char) { Numeric(c) || 'a' <= c <= 'f' }

  predicate HashOk(s: string) {
    |s| == 64 && forall i :: 0 <= i < |s| ==> HexDigit(s[i])
  }

  predicate ReservedName(reserved: seq<string>, name: string) {
    name == "unknown" || name == "anonymous" || exists i :: 0 <= i < |reserved| && HasPrefix(name, reserved[i])
  }

  method IsReserved(rules: Rules, name: string) returns (r: bool)
    ensures r == ReservedName(rules.reserved, name)
  {
    if name in ["unknown", "anonymous"] {
      return true;
    }
    for i := 0 to |rules.reserved|
      invariant forall j :: 0 <= j < i ==> !HasPrefix(name, rules.reserved[j])
    {
      if HasPrefix(name, rules.reserved[i]) {
        return true;
      }
    }
    return false;
  }

  function Expiry(rules: Rules, v: string): Option<int> {
    if HasSuffix(v, "Z") then rules.parseTime(v) else None
  }

  predicate ToolsOk(known: set<string>, tools: seq<string>) {
    tools != [] && forall i :: 0 <= i < |tools| ==> tools[i] != "*" && tools[i] in known
  }

  method CheckTools(rules: Rules, tools: seq<string>) returns (ok: bool)
    ensures ok == ToolsOk(rules.tools, tools)
  {
    if |tools| == 0 {
      return false;
    }
    for i := 0 to |tools|
      invariant forall j :: 0 <= j < i ==> tools[j] != "*" && tools[j] in rules.tools
    {
      if tools[i] == "*" || tools[i] !in rules.tools {
        return false;
      }
    }
    return true;
  }

  predicate AttrOk(key: string, v: AttrValue) {
    AttrKeyOk(key) && v.Text? && |v.text| <= MAX_ATTR_VALUE
  }

  predicate AttrsOk(attrs: map<string, AttrValue>) {
    |attrs| <= MAX_ATTRS && forall k :: k in attrs ==> AttrOk(k, attrs[k])
  }

  function Texts(attrs: map<string, AttrValue>): map<string, string>
    requires AttrsOk(attrs)
  {
    map k | k in attrs :: attrs[k].text
  }

  /** Go visits a map in any order. */
  method CheckAttrs(attrs: map<string, AttrValue>) returns (out: Option<map<string, string>>)
    ensures out == if AttrsOk(attrs) then Some(Texts(attrs)) else None
  {
    if |attrs| > MAX_ATTRS {
      return None;
    }
    var copied: map<string, string> := map[];
    var todo := attrs.Keys;
    while todo != {}
      invariant todo <= attrs.Keys
      invariant copied.Keys == attrs.Keys - todo
      invariant forall k :: k in copied ==> AttrOk(k, attrs[k]) && copied[k] == attrs[k].text
      decreases |todo|
    {
      var k :| k in todo;
      if !AttrKeyOk(k) || !attrs[k].Text? || |attrs[k].text| > MAX_ATTR_VALUE {
        return None;
      }
      copied := copied[k := attrs[k].text];
      todo := todo - {k};
    }
    assert copied.Keys == attrs.Keys;
    assert copied == Texts(attrs);
    return Some(copied);
  }

  /** `out` lists each element of `s` once, in order of first appearance. */
  function Distinct(s: seq<string>): seq<string> {
    if s == [] then []
    else
      var front := Distinct(s[..|s| - 1]);
      if s[|s| - 1] in front then front else front + [s[|s| - 1]]
  }

  lemma {:induction false} DistinctKeepsMembers(s: seq<string>)
    ensures forall t :: t in Distinct(s) <==> t in s
    ensures forall i, j :: 0 <= i < j < |Distinct(s)| ==> Distinct(s)[i] != Distinct(s)[j]
  {
    if s != [] {
      DistinctKeepsMembers(s[..|s| - 1]);
      assert s == s[..|s| - 1] + [s[|s| - 1]];
    }
  }

  method Dedupe(s: seq<string>) returns (out: seq<string>)
    ensures out == Distinct(s)
  {
    out := [];
    for i := 0 to |s|
      invariant out == Distinct(s[..i])
    {
      assert s[..i + 1][..i] == s[..i];
      if s[i] !in out {
        out := out + [s[i]];
      }
    }
    assert s[..|s|] == s;
  }

  // ----- hexadecimal digests

  function HexValue(c: char): (v: nat)
    requires HexDigit(c)
    ensures v < 16
  {
    if Numeric(c) then (c - '0') as nat else (c - 'a') as nat + 10
  }

  function HexDecode(s: string): (d: Digest)
    requires HashOk(s)
  {
    seq(32, i requires 0 <= i < 32 => (HexValue(s[2 * i]) * 16 + HexValue(s[2 * i + 1])) as Byte)
  }

  lemma HexDecodeInjective(s: string, t: string)
    requires HashOk(s) && HashOk(t) && HexDecode(s) == HexDecode(t)
    ensures s == t
  {
    forall i | 0 <= i < 64
      ensures s[i] == t[i]
    {
      var j := i / 2;
      assert HexDecode(s)[j] == HexDecode(t)[j];
      assert HexValue(s[2 * j]) == HexValue(t[2 * j]) && HexValue(s[2 * j + 1]) == HexValue(t[2 * j + 1]);
    }
  }

  function HexChar(v: nat): char
    requires v < 16
  {
    "0123456789abcdef"[v]
  }

  /** hex.EncodeToString, which renders the hash of a token for the key file. */
  function Hex(d: Digest): (s: string)
    ensures |s| == 64
  {
    seq(64, i requires 0 <= i < 64 =>
      if i % 2 == 0 then HexChar(d[i / 2] as nat / 16) else HexChar(d[i / 2] as nat % 16))
  }

  lemma HexCharValue(v: nat)
    requires v < 16
    ensures HexDigit(HexChar(v)) && HexValue(HexChar(v)) == v
  {
    assert v < 10 ==> HexChar(v) == '0' + v as char;
    assert v >= 10 ==> HexChar(v) == 'a' + (v - 10) as char;
  }

  /** Decoding undoes rendering, for every digest. */
  lemma HexRoundTrip(d: Digest)
    ensures HashOk(Hex(d)) && HexDecode(Hex(d)) == d
  {
    var s := Hex(d);
    forall i | 0 <= i < 64
      ensures HexDigit(s[i])
    {
      HexCharValue(if i % 2 == 0 then d[i / 2] as nat / 16 else d[i / 2] as nat % 16);
    }
    forall j | 0 <= j < 32
      ensures HexDecode(s)[j] == d[j]
    {
      HexCharValue(d[j] as nat / 16);
      HexCharValue(d[j] as nat % 16);
      assert s[2 * j] == HexChar(d[j] as nat / 16) && s[2 * j + 1] == HexChar(d[j] as nat % 16);
    }
    assert HexDecode(s) == d;
  }

  /** So a valid hash decodes to a digest exactly if it is its rendering. */
  lemma HexExactly(s: string, d: Digest)
    requires HashOk(s)
    ensures HexDecode(s) == d <==> s == Hex(d)
  {
    HexRoundTrip(d);
    if HexDecode(s) == d {
      HexDecodeInjective(s, Hex(d));
    }
  }

  // ----- one entry

  predicate Valid(rules: Rules, ask: Answers, k: RawKey) {
    && NameOk(k.name) && !ReservedName(rules.reserved, k.name)
    && HashOk(k.sha256)
    && Expiry(rules, k.expires).Some? && ask.now(k.name) < Expiry(rules, k.expires).value
    && ToolsOk(rules.tools, k.tools)
    && AttrsOk(k.attrs)
    && !ask.vetoes(k.name)
  }

  /** The checks one by one, down to the characters. */
  lemma ValidExactly(rules: Rules, ask: Answers, k: RawKey)
    ensures Valid(rules, ask, k) <==>
            && 2 <= |k.name| <= 32 && 'a' <= k.name[0] <= 'z'
            && (forall c :: c in k.name ==> 'a' <= c <= 'z' || '0' <= c <= '9' || c == '-')
            && k.name != "unknown" && k.name != "anonymous" && (forall p :: p in rules.reserved ==> !(p <= k.name))
            && |k.sha256| == 64 && (forall c :: c in k.sha256 ==> '0' <= c <= '9' || 'a' <= c <= 'f')
            && k.expires != "" && k.expires[|k.expires| - 1] == 'Z' && rules.parseTime(k.expires).Some?
            && ask.now(k.name) < rules.parseTime(k.expires).value
            && k.tools != [] && (forall t :: t in k.tools ==> t in rules.tools && t != "*")
            && |k.attrs| <= 32 && (forall a :: a in k.attrs ==> UsableAttr(a, k.attrs[a]))
            && !ask.vetoes(k.name)
  {
    EndsInZ(k.expires);
    if forall c :: c in k.name ==> 'a' <= c <= 'z' || '0' <= c <= '9' || c == '-' {
      assert forall i :: 0 <= i < |k.name| ==> k.name[i] in k.name;
    }
    if forall c :: c in k.sha256 ==> '0' <= c <= '9' || 'a' <= c <= 'f' {
      assert forall i :: 0 <= i < |k.sha256| ==> k.sha256[i] in k.sha256;
    }
    assert forall i :: 0 <= i < |rules.reserved| ==> rules.reserved[i] in rules.reserved;
    assert forall i :: 0 <= i < |k.tools| ==> k.tools[i] in k.tools;
    forall a | a in k.attrs
      ensures AttrOk(a, k.attrs[a]) <==> UsableAttr(a, k.attrs[a])
    {
      AttrExactly(a, k.attrs[a]);
    }
  }

  predicate UsableAttr(a: string, v: AttrValue) {
    && 1 <= |a| <= 32 && 'a' <= a[0] <= 'z'
    && (forall c :: c in a ==> 'a' <= c <= 'z' || '0' <= c <= '9' || c == '_')
    && v.Text? && |v.text| <= 256
  }

  lemma AttrExactly(a: string, v: AttrValue)
    ensures AttrOk(a, v) <==> UsableAttr(a, v)
  {
    assert forall i :: 0 <= i < |a| ==> a[i] in a;
  }

  lemma EndsInZ(s: string)
    ensures HasSuffix(s, "Z") <==> s != "" && s[|s| - 1] == 'Z'
  {
    if s != "" {
      assert s[|s| - 1..] == [s[|s| - 1]];
    }
  }

  function Build(rules: Rules, k: RawKey): KeyEntry
    requires HashOk(k.sha256) && Expiry(rules, k.expires).Some? && AttrsOk(k.attrs)
  {
    KeyEntry(k.name, HexDecode(k.sha256), Expiry(rules, k.expires).value, Distinct(k.tools), Texts(k.attrs))
  }

  method Validate(rules: Rules, ask: Answers, k: RawKey) returns (e: Option<KeyEntry>)
    ensures e == if Valid(rules, ask, k) then Some(Build(rules, k)) else None
  {
    if !NameOk(k.name) {
      return None;
    }
    var reserved := IsReserved(rules, k.name);
    if reserved || !HashOk(k.sha256) {
      return None;
    }
    var expires := Expiry(rules, k.expires);
    if expires.None? || !(ask.now(k.name) < expires.value) {
      return None;
    }
    var toolsOk := CheckTools(rules, k.tools);
    if !toolsOk {
      return None;
    }
    var attrs := CheckAttrs(k.attrs);
    if attrs.None? || ask.vetoes(k.name) {
      return None;
    }
    var tools := Dedupe(k.tools);
    return Some(KeyEntry(k.name, HexDecode(k.sha256), expires.value, tools, attrs.value));
  }

  // ----- the whole list

  /** No other entry of the file claims the name, or the hash, of `k`. */
  ghost predicate SoleClaim(all: multiset<RawKey>, k: RawKey) {
    all[k] == 1 && forall j :: j in all && j != k ==> j.name != k.name && j.sha256 != k.sha256
  }

  ghost predicate Survives(rules: Rules, ask: Answers, all: multiset<RawKey>, k: RawKey) {
    k in all && SoleClaim(all, k) && Valid(rules, ask, k)
  }

  ghost function Kept(rules: Rules, ask: Answers, all: multiset<RawKey>, keys: seq<RawKey>): seq<KeyEntry> {
    if keys == [] then []
    else
      var front := Kept(rules, ask, all, keys[..|keys| - 1]);
      var k := keys[|keys| - 1];
      if Survives(rules, ask, all, k) then front + [Build(rules, k)] else front
  }

  function Count(s: seq<string>, x: string): nat {
    if s == [] then 0 else Count(s[..|s| - 1], x) + (if s[|s| - 1] == x then 1 else 0)
  }

  lemma {:induction false} CountAppend(s: seq<string>, t: seq<string>, x: string)
    ensures Count(s + t, x) == Count(s, x) + Count(t, x)
  {
    if t == [] {
      assert s + t == s;
    } else {
      CountAppend(s, t[..|t| - 1], x);
      assert (s + t)[..|s + t| - 1] == s + t[..|t| - 1];
    }
  }

  lemma {:induction false} CountZero(s: seq<string>, x: string)
    ensures Count(s, x) == 0 <==> x !in s
  {
    if s != [] {
      CountZero(s[..|s| - 1], x);
      assert s == s[..|s| - 1] + [s[|s| - 1]];
    }
  }

  /** A string is counted once exactly when no other position holds it. */
  lemma CountOnce(s: seq<string>, i: nat)
    requires i < |s|
    ensures Count(s, s[i]) >= 1
    ensures Count(s, s[i]) == 1 <==> s[i] !in s[..i] && s[i] !in s[i + 1..]
  {
    var x, pre, post := s[i], s[..i], s[i + 1..];
    assert s == pre + [x] + post;
    CountAround(pre, x, post);
    CountZero(pre, x);
    CountZero(post, x);
  }

  lemma CountAround(pre: seq<string>, x: string, post: seq<string>)
    ensures Count(pre + [x] + post, x) == Count(pre, x) + 1 + Count(post, x)
  {
    CountAppend(pre + [x], post, x);
    assert (pre + [x])[..|pre|] == pre;
  }

  function Names(keys: seq<RawKey>): (s: seq<string>)
    ensures |s| == |keys| && forall i :: 0 <= i < |keys| ==> s[i] == keys[i].name
  {
    seq(|keys|, i requires 0 <= i < |keys| => keys[i].name)
  }

  function Hashes(keys: seq<RawKey>): (s: seq<string>)
    ensures |s| == |keys| && forall i :: 0 <= i < |keys| ==> s[i] == keys[i].sha256
  {
    seq(|keys|, i requires 0 <= i < |keys| => keys[i].sha256)
  }

  ghost predicate Apart(k: RawKey, others: seq<RawKey>) {
    forall j :: j in others ==> j.name != k.name && j.sha256 != k.sha256
  }

  lemma SoleClaimByPosition(keys: seq<RawKey>, i: nat)
    requires i < |keys|
    ensures SoleClaim(multiset(keys), keys[i]) <==> Apart(keys[i], keys[..i]) && Apart(keys[i], keys[i + 1..])
  {
    var k := keys[i];
    var pre, post := keys[..i], keys[i + 1..];
    assert keys == pre + [k] + post;
    assert multiset(keys) == multiset(pre) + multiset{k} + multiset(post);
    assert forall j :: j in pre <==> j in multiset(pre);
    assert forall j :: j in post <==> j in multiset(post);
    assert multiset(keys)[k] == multiset(pre)[k] + 1 + multiset(post)[k];
  }

  lemma ApartByStrings(k: RawKey, others: seq<RawKey>)
    ensures Apart(k, others) <==> k.name !in Names(others) && k.sha256 !in Hashes(others)
  {
    forall n | 0 <= n < |others|
      ensures others[n] in others && Names(others)[n] in Names(others) && Hashes(others)[n] in Hashes(others)
    {
    }
  }

  /** The two counters of the source decide exactly whether the claim is sole. */
  lemma SoleClaimIsCountedOnce(keys: seq<RawKey>, i: nat)
    requires i < |keys|
    ensures SoleClaim(multiset(keys), keys[i]) <==>
            Count(Names(keys), keys[i].name) == 1 && Count(Hashes(keys), keys[i].sha256) == 1
  {
    CountOnce(Names(keys), i);
    CountOnce(Hashes(keys), i);
    assert Names(keys)[..i] == Names(keys[..i]) && Names(keys)[i + 1..] == Names(keys[i + 1..]);
    assert Hashes(keys)[..i] == Hashes(keys[..i]) && Hashes(keys)[i + 1..] == Hashes(keys[i + 1..]);
    ApartByStrings(keys[i], keys[..i]);
    ApartByStrings(keys[i], keys[i + 1..]);
    SoleClaimByPosition(keys, i);
  }

  /** What a counting map says of a string. */
  function Tally(m: map<string, nat>, x: string): nat {
    if x in m then m[x] else 0
  }

  ghost predicate Tallies(m: map<string, nat>, s: seq<string>) {
    forall x :: Tally(m, x) == Count(s, x)
  }

  lemma TallyStep(m: map<string, nat>, s: seq<string>, i: nat)
    requires i < |s| && Tallies(m, s[..i])
    ensures Tallies(m[s[i] := Tally(m, s[i]) + 1], s[..i + 1])
  {
    var part := s[..i + 1];
    assert part[..|part| - 1] == s[..i] && part[|part| - 1] == s[i];
    forall x
      ensures Tally(m[s[i] := Tally(m, s[i]) + 1], x) == Count(part, x)
    {
      assert Tally(m, x) == Count(s[..i], x);
    }
  }

  lemma KeptStep(rules: Rules, ask: Answers, all: multiset<RawKey>, keys: seq<RawKey>, i: nat)
    requires i < |keys|
    ensures Kept(rules, ask, all, keys[..i + 1]) ==
            if Survives(rules, ask, all, keys[i]) then Kept(rules, ask, all, keys[..i]) + [Build(rules, keys[i])]
            else Kept(rules, ask, all, keys[..i])
  {
    var part := keys[..i + 1];
    assert part[..|part| - 1] == keys[..i] && part[|part| - 1] == keys[i];
  }

  /** The two tests of the source and the validation decide who survives. */
  lemma TalliesDecide(rules: Rules, ask: Answers, keys: seq<RawKey>, names: map<string, nat>,
                      hashes: map<string, nat>, i: nat)
    requires i < |keys| && Tallies(names, Names(keys)) && Tallies(hashes, Hashes(keys))
    ensures var k := keys[i];
            && k.name in names && k.sha256 in hashes
            && (Survives(rules, ask, multiset(keys), k) <==>
                  !(names[k.name] > 1) && !(k.sha256 != "" && hashes[k.sha256] > 1) && Valid(rules, ask, k))
  {
    var k := keys[i];
    CountOnce(Names(keys), i);
    CountOnce(Hashes(keys), i);
    SoleClaimIsCountedOnce(keys, i);
    assert Tally(names, k.name) >= 1 && Tally(hashes, k.sha256) >= 1;
  }

  /** Count names and hashes, then validate every entry that claims both alone. */
  method FilterEntries(rules: Rules, ask: Answers, keys: seq<RawKey>) returns (out: seq<KeyEntry>)
    ensures out == Kept(rules, ask, multiset(keys), keys)
  {
    var names: map<string, nat> := map[];
    var hashes: map<string, nat> := map[];
    for i := 0 to |keys|
      invariant Tallies(names, Names(keys)[..i]) && Tallies(hashes, Hashes(keys)[..i])
    {
      TallyStep(names, Names(keys), i);
      TallyStep(hashes, Hashes(keys), i);
      var n, h := keys[i].name, keys[i].sha256;
      names := names[n := Tally(names, n) + 1];
      hashes := hashes[h := Tally(hashes, h) + 1];
    }
    assert Names(keys)[..|keys|] == Names(keys) && Hashes(keys)[..|keys|] == Hashes(keys);
    out := [];
    for i := 0 to |keys|
      invariant out == Kept(rules, ask, multiset(keys), keys[..i])
    {
      var k := keys[i];
      TalliesDecide(rules, ask, keys, names, hashes, i);
      KeptStep(rules, ask, multiset(keys), keys, i);
      if names[k.name] > 1 {
        continue;
      }
      if k.sha256 != "" && hashes[k.sha256] > 1 {
        continue;
      }
      var e := Validate(rules, ask, k);
      if e.Some? {
        out := out + [e.value];
      }
    }
    assert keys[..|keys|] == keys;
  }

  // ----- what the list is worth: an order-free map that loses no surviving entry

  lemma {:induction false} KeptExactly(rules: Rules, ask: Answers, all: multiset<RawKey>, keys: seq<RawKey>)
    ensures forall e :: e in Kept(rules, ask, all, keys) <==>
              exists k :: k in keys && Survives(rules, ask, all, k) && e == Build(rules, k)
  {
    if keys != [] {
      KeptExactly(rules, ask, all, keys[..|keys| - 1]);
      assert keys == keys[..|keys| - 1] + [keys[|keys| - 1]];
    }
  }

  /** Distinct raw entries that survive have distinct names and distinct digests. */
  lemma SurvivorsApart(rules: Rules, ask: Answers, all: multiset<RawKey>, j: RawKey, k: RawKey)
    requires Survives(rules, ask, all, j) && Survives(rules, ask, all, k) && j != k
    ensures Build(rules, j).name != Build(rules, k).name
    ensures Build(rules, j).digest != Build(rules, k).digest
  {
    if HexDecode(j.sha256) == HexDecode(k.sha256) {
      HexDecodeInjective(j.sha256, k.sha256);
    }
  }

  ghost predicate PairwiseApart(es: seq<KeyEntry>) {
    forall i, j :: 0 <= i < j < |es| ==> es[i].name != es[j].name && es[i].digest != es[j].digest
  }

  lemma LastApart(rules: Rules, ask: Answers, all: multiset<RawKey>, front: seq<RawKey>, k: RawKey)
    requires multiset(front) <= all && multiset(front)[k] == 0 && Survives(rules, ask, all, k)
    ensures forall e :: e in Kept(rules, ask, all, front) ==> e.name != k.name && e.digest != Build(rules, k).digest
  {
    KeptExactly(rules, ask, all, front);
    forall e | e in Kept(rules, ask, all, front)
      ensures e.name != k.name && e.digest != Build(rules, k).digest
    {
      var j :| j in front && Survives(rules, ask, all, j) && e == Build(rules, j);
      assert j in multiset(front);
      SurvivorsApart(rules, ask, all, j, k);
    }
  }

  lemma {:induction false} KeptApart(rules: Rules, ask: Answers, all: multiset<RawKey>, keys: seq<RawKey>)
    requires multiset(keys) <= all
    ensures PairwiseApart(Kept(rules, ask, all, keys))
  {
    if keys != [] {
      var front, k := keys[..|keys| - 1], keys[|keys| - 1];
      assert keys == front + [k];
      KeptApart(rules, ask, all, front);
      if Survives(rules, ask, all, k) {
        assert multiset(front)[k] == 0;
        LastApart(rules, ask, all, front, k);
      }
    }
  }

  /** The loop that fills the snapshot's map. */
  method KeyMap(es: seq<KeyEntry>) returns (m: map<Digest, KeyEntry>)
    ensures m == MapOf(es)
  {
    m := map[];
    for i := 0 to |es|
      invariant m == MapOf(es[..i])
    {
      assert es[..i + 1][..i] == es[..i];
      m := m[es[i].digest := es[i]];
    }
    assert es[..|es|] == es;
  }

  function MapOf(es: seq<KeyEntry>): map<Digest, KeyEntry> {
    if es == [] then map[] else MapOf(es[..|es| - 1])[es[|es| - 1].digest := es[|es| - 1]]
  }

  lemma {:induction false} MapLosesNone(es: seq<KeyEntry>)
    requires PairwiseApart(es)
    ensures |MapOf(es)| == |es|
    ensures forall e :: e in es <==> e.digest in MapOf(es) && MapOf(es)[e.digest] == e
    ensures forall d :: d in MapOf(es) ==> MapOf(es)[d].digest == d
  {
    if es != [] {
      var front, last := es[..|es| - 1], es[|es| - 1];
      assert es == front + [last];
      MapLosesNone(front);
    }
  }

  /** The key map of one load of the raw entries `keys`. */
  ghost function Loaded(rules: Rules, ask: Answers, keys: seq<RawKey>): map<Digest, KeyEntry> {
    MapOf(Kept(rules, ask, multiset(keys), keys))
  }

  /** One key per surviving entry: the number of keys is the number of survivors, and a digest is
      present exactly when some surviving entry has it, mapped to that entry's key. */
  lemma LoadedExactly(rules: Rules, ask: Answers, keys: seq<RawKey>)
    ensures |Loaded(rules, ask, keys)| == |Kept(rules, ask, multiset(keys), keys)|
    ensures forall e: KeyEntry :: e.digest in Loaded(rules, ask, keys) && Loaded(rules, ask, keys)[e.digest] == e <==>
              exists k :: Survives(rules, ask, multiset(keys), k) && e == Build(rules, k)
    ensures forall d :: d in Loaded(rules, ask, keys) ==> Loaded(rules, ask, keys)[d].digest == d
  {
    KeptApart(rules, ask, multiset(keys), keys);
    MapLosesNone(Kept(rules, ask, multiset(keys), keys));
    KeptExactly(rules, ask, multiset(keys), keys);
    assert forall k :: Survives(rules, ask, multiset(keys), k) ==> k in keys;
  }

  lemma KeyPersists(rules: Rules, ask: Answers, keys: seq<RawKey>, other: seq<RawKey>, d: Digest)
    requires forall k :: Survives(rules, ask, multiset(keys), k) ==> Survives(rules, ask, multiset(other), k)
    requires d in Loaded(rules, ask, keys)
    ensures d in Loaded(rules, ask, other) && Loaded(rules, ask, other)[d] == Loaded(rules, ask, keys)[d]
  {
    LoadedExactly(rules, ask, keys);
    LoadedExactly(rules, ask, other);
    var e := Loaded(rules, ask, keys)[d];
    assert e.digest in Loaded(rules, ask, keys) && Loaded(rules, ask, keys)[e.digest] == e;
    var k :| Survives(rules, ask, multiset(keys), k) && e == Build(rules, k);
    assert Survives(rules, ask, multiset(other), k);
  }

  lemma SameSurvivorsSameMap(rules: Rules, ask: Answers, keys: seq<RawKey>, other: seq<RawKey>)
    requires forall k :: Survives(rules, ask, multiset(keys), k) <==> Survives(rules, ask, multiset(other), k)
    ensures Loaded(rules, ask, keys) == Loaded(rules, ask, other)
  {
    var m, n := Loaded(rules, ask, keys), Loaded(rules, ask, other);
    forall d | d in m
      ensures d in n && m[d] == n[d]
    {
      KeyPersists(rules, ask, keys, other, d);
    }
    forall d | d in n
      ensures d in m
    {
      KeyPersists(rules, ask, other, keys, d);
    }
  }

  /** The order of the entries in the file does not matter. */
  lemma OrderFree(rules: Rules, ask: Answers, keys: seq<RawKey>, shuffled: seq<RawKey>)
    requires multiset(keys) == multiset(shuffled)
    ensures Loaded(rules, ask, keys) == Loaded(rules, ask, shuffled)
  {
    SameSurvivorsSameMap(rules, ask, keys, shuffled);
  }

  function Without(keys: seq<RawKey>, i: nat): seq<RawKey>
    requires i < |keys|
  {
    keys[..i] + keys[i + 1..]
  }

  lemma WithoutMultiset(keys: seq<RawKey>, i: nat)
    requires i < |keys|
    ensures multiset(Without(keys, i)) == multiset(keys) - multiset{keys[i]}
  {
    assert keys == keys[..i] + [keys[i]] + keys[i + 1..];
  }

  /** Removing one entry never costs another one its key. */
  lemma RemovalSparesOthers(rules: Rules, ask: Answers, keys: seq<RawKey>, i: nat, k: RawKey)
    requires i < |keys| && k != keys[i] && Survives(rules, ask, multiset(keys), k)
    ensures Survives(rules, ask, multiset(Without(keys, i)), k)
  {
    WithoutMultiset(keys, i);
  }

  /** An entry that is invalid on its own account has no effect at all. */
  lemma InvalidEntryIsInert(rules: Rules, ask: Answers, keys: seq<RawKey>, i: nat)
    requires i < |keys| && SoleClaim(multiset(keys), keys[i]) && !Valid(rules, ask, keys[i])
    ensures Loaded(rules, ask, Without(keys, i)) == Loaded(rules, ask, keys)
  {
    WithoutMultiset(keys, i);
    var all, rest := multiset(keys), multiset(Without(keys, i));
    forall k
      ensures Survives(rules, ask, all, k) <==> Survives(rules, ask, rest, k)
    {
      if Survives(rules, ask, rest, k) {
        assert k != keys[i];
        assert all[k] == rest[k];
      }
    }
    SameSurvivorsSameMap(rules, ask, keys, Without(keys, i));
  }
}
