/** Coercion is conservative: what it changes, what it keeps, and that once is enough. */
module LenientTheorems {
  import opened GoTypes
  import opened Json
  import opened Lenient

  // ----- once is enough

  lemma {:induction false} CoerceTwice(floats: Floats, v: Json, prop: Option<Schema>)
    ensures Coerce(floats, Coerce(floats, v, prop), prop) == Coerce(floats, v, prop)
    decreases v
  {
    if prop.Some? {
      match v
      case Obj(m) =>
        var c := CoerceFields(floats, v, prop.value);
        assert Coerce(floats, v, prop) == c;
        forall k | k in m
          ensures CoerceFields(floats, c, prop.value).fields[k] == c.fields[k]
        {
          if k in prop.value.properties {
            CoerceTwice(floats, m[k], prop.value.properties[k]);
          }
        }
        assert CoerceFields(floats, c, prop.value).fields == c.fields;
      case Arr(e) =>
        if prop.value.items.Some? {
          var c := CoerceElems(floats, v, prop.value);
          assert Coerce(floats, v, prop) == c;
          forall i | 0 <= i < |e|
            ensures CoerceElems(floats, c, prop.value).elems[i] == c.elems[i]
          {
            CoerceTwice(floats, e[i], prop.value.items);
          }
          assert CoerceElems(floats, c, prop.value).elems == c.elems;
        }
      case _ =>
    }
  }

  // ----- the frame

  /** The same keys and lengths everywhere, and the same scalars except that a string may have become a
      boolean or a number. */
  predicate SameFrame(v: Json, w: Json) {
    match v
    case Obj(m) => w.Obj? && w.fields.Keys == m.Keys && forall k :: k in m ==> SameFrame(m[k], w.fields[k])
    case Arr(e) => w.Arr? && |w.elems| == |e| && forall i :: 0 <= i < |e| ==> SameFrame(e[i], w.elems[i])
    case Str(_) => w == v || w.Bool? || w.Num?
    case _ => w == v
  }

  lemma {:induction false} FrameRefl(v: Json)
    ensures SameFrame(v, v)
  {
    match v
    case Obj(m) =>
      forall k | k in m
        ensures SameFrame(m[k], m[k])
      {
        FrameRefl(m[k]);
      }
    case Arr(e) =>
      forall i | 0 <= i < |e|
        ensures SameFrame(e[i], e[i])
      {
        FrameRefl(e[i]);
      }
    case _ =>
  }

  lemma {:induction false} CoerceKeepsFrame(floats: Floats, v: Json, prop: Option<Schema>)
    ensures SameFrame(v, Coerce(floats, v, prop))
    decreases v
  {
    FrameRefl(v);
    if prop.Some? {
      match v
      case Obj(m) =>
        var w := CoerceFields(floats, v, prop.value);
        assert Coerce(floats, v, prop) == w;
        assert w.fields.Keys == m.Keys;
        forall k | k in m
          ensures SameFrame(m[k], w.fields[k])
        {
          if k in prop.value.properties {
            CoerceKeepsFrame(floats, m[k], prop.value.properties[k]);
          } else {
            FrameRefl(m[k]);
          }
        }
      case Arr(e) =>
        if prop.value.items.Some? {
          forall i | 0 <= i < |e|
            ensures SameFrame(e[i], Coerce(floats, e[i], prop.value.items))
          {
            CoerceKeepsFrame(floats, e[i], prop.value.items);
          }
        }
      case _ =>
    }
  }

  // ----- exactly what changes

  /** The string spells a value of the type. */
  predicate Spells(floats: Floats, s: string, typ: string) {
    || (typ == "boolean" && Lower(s) in ["true", "1", "false", "0"])
    || (typ == "integer" && ParseInt(s).Some?)
    || (typ == "number" && floats(s).Some?)
  }

  /** Somewhere the walk over value and schema meets a string that spells a value of the type there. */
  ghost predicate HasSpelled(floats: Floats, v: Json, prop: Option<Schema>) {
    prop.Some? &&
    match v
    case Str(s) => Spells(floats, s, PropType(prop.value))
    case Obj(m) =>
      exists k :: k in m && k in prop.value.properties && HasSpelled(floats, m[k], prop.value.properties[k])
    case Arr(e) =>
      prop.value.items.Some? && exists i :: 0 <= i < |e| && HasSpelled(floats, e[i], prop.value.items)
    case _ => false
  }

  lemma {:induction false} ChangedExactly(floats: Floats, v: Json, prop: Option<Schema>)
    ensures Coerce(floats, v, prop) != v <==> HasSpelled(floats, v, prop)
    decreases v
  {
    if prop.Some? {
      match v
      case Obj(m) =>
        var w := CoerceFields(floats, v, prop.value).fields;
        assert Coerce(floats, v, prop) == Obj(w);
        forall k | k in m && k in prop.value.properties
          ensures w[k] != m[k] <==> HasSpelled(floats, m[k], prop.value.properties[k])
        {
          ChangedExactly(floats, m[k], prop.value.properties[k]);
        }
        if w != m {
          var k :| k in m && w[k] != m[k];
          assert HasSpelled(floats, m[k], prop.value.properties[k]);
        }
      case Arr(e) =>
        if prop.value.items.Some? {
          var w := CoerceElems(floats, v, prop.value).elems;
          assert Coerce(floats, v, prop) == Arr(w);
          forall i | 0 <= i < |e|
            ensures w[i] != e[i] <==> HasSpelled(floats, e[i], prop.value.items)
          {
            ChangedExactly(floats, e[i], prop.value.items);
          }
          if w != e {
            var i :| 0 <= i < |e| && w[i] != e[i];
            assert HasSpelled(floats, e[i], prop.value.items);
          }
        }
      case _ =>
    }
  }

  // ----- values that already type-check

  function Allowed(s: Schema): seq<string> {
    if s.typ != "" then [s.typ] else s.types
  }

  /** The JSON Schema type of a value; `integral` tells which numbers are integers. */
  predicate HasType(integral: Number -> bool, v: Json, t: string) {
    match v
    case Null => t == "null"
    case Bool(_) => t == "boolean"
    case Num(n) => t == "number" || (t == "integer" && integral(n))
    case Str(_) => t == "string"
    case Arr(_) => t == "array"
    case Obj(_) => t == "object"
  }

  ghost predicate Checks(integral: Number -> bool, v: Json, prop: Option<Schema>)
    decreases v
  {
    prop.Some? ==>
      && (Allowed(prop.value) == [] || exists t :: t in Allowed(prop.value) && HasType(integral, v, t))
      && match v
         case Obj(m) =>
           forall k :: k in m && k in prop.value.properties ==> Checks(integral, m[k], prop.value.properties[k])
         case Arr(e) =>
           forall i :: 0 <= i < |e| ==>
             Checks(integral, e[i],
                    if i < |prop.value.prefixItems| then Some(prop.value.prefixItems[i]) else prop.value.items)
         case _ => true
  }

  /** At most one type besides null at every property, and no `prefixItems`. */
  ghost predicate OneType(prop: Option<Schema>) {
    prop.Some? ==>
      && (forall t, u :: t in Allowed(prop.value) && u in Allowed(prop.value) && t != "null" && u != "null" ==> t == u)
      && prop.value.prefixItems == []
      && (forall k :: k in prop.value.properties ==> OneType(prop.value.properties[k]))
      && OneType(prop.value.items)
  }

  lemma {:induction false} FirstNonNullIsOne(types: seq<string>, t: string)
    requires t in types && t != "null"
    ensures FirstNonNull(types) in types && FirstNonNull(types) != "null"
  {
    if types[0] == "null" {
      FirstNonNullIsOne(types[1..], t);
    }
  }

  lemma CheckedStringIsKept(floats: Floats, integral: Number -> bool, s: string, prop: Schema)
    requires Checks(integral, Str(s), Some(prop)) && OneType(Some(prop))
    ensures !Spells(floats, s, PropType(prop))
  {
    if Allowed(prop) != [] {
      assert HasType(integral, Str(s), "string");
      assert "string" in Allowed(prop);
      if prop.typ == "" {
        NotNull();
        FirstNonNullIsOne(prop.types, "string");
      }
      assert PropType(prop) == "string";
    }
    StringSpellsNothing(floats, s);
  }

  lemma NotNull()
    ensures "string" != "null"
  {
  }

  lemma StringSpellsNothing(floats: Floats, s: string)
    ensures !Spells(floats, s, "string") && !Spells(floats, s, "")
  {
    assert |"string"| == 6 && |"boolean"| == 7 && |"integer"| == 7 && "string"[0] != "number"[0];
  }

  /** Coercion is the identity on what already type-checks. */
  lemma {:induction false} CheckedIsKept(floats: Floats, integral: Number -> bool, v: Json, prop: Option<Schema>)
    requires Checks(integral, v, prop) && OneType(prop)
    ensures Coerce(floats, v, prop) == v
  {
    CheckedHasNothingSpelled(floats, integral, v, prop);
    ChangedExactly(floats, v, prop);
  }

  lemma {:induction false} CheckedHasNothingSpelled(
      floats: Floats, integral: Number -> bool, v: Json, prop: Option<Schema>)
    requires Checks(integral, v, prop) && OneType(prop)
    ensures !HasSpelled(floats, v, prop)
    decreases v
  {
    if prop.Some? {
      match v
      case Str(s) => CheckedStringIsKept(floats, integral, s, prop.value);
      case Obj(m) =>
        forall k | k in m && k in prop.value.properties
          ensures !HasSpelled(floats, m[k], prop.value.properties[k])
        {
          CheckedHasNothingSpelled(floats, integral, m[k], prop.value.properties[k]);
        }
      case Arr(e) =>
        forall i | 0 <= i < |e|
          ensures !HasSpelled(floats, e[i], prop.value.items)
        {
          CheckedHasNothingSpelled(floats, integral, e[i], prop.value.items);
        }
      case _ =>
    }
  }

  /** A string that type-checks, under any schema: it is changed exactly when the schema lists several types,
      string is one of them but not the first besides null, and the string spells a value of that first one. */
  lemma CheckedStringChanges(floats: Floats, integral: Number -> bool, s: string, p: Schema)
    requires Checks(integral, Str(s), Some(p))
    ensures Coerce(floats, Str(s), Some(p)) != Str(s) <==>
            && p.typ == "" && "string" in p.types && FirstNonNull(p.types) != "string"
            && Spells(floats, s, FirstNonNull(p.types))
  {
    ChangedExactly(floats, Str(s), Some(p));
    StringSpellsNothing(floats, s);
    if Allowed(p) != [] {
      StringIsAllowed(integral, s, Allowed(p));
    }
  }

  lemma StringIsAllowed(integral: Number -> bool, s: string, allowed: seq<string>)
    requires exists t :: t in allowed && HasType(integral, Str(s), t)
    ensures "string" in allowed
  {
  }

  /** For example the text of a number where integer is listed before string. */
  lemma IntegerBeforeString(floats: Floats, integral: Number -> bool, i: int)
    requires -INT64_LIMIT <= i < INT64_LIMIT
    ensures var prop := Some(Schema("", ["integer", "string"], map[], [], None));
            Checks(integral, Str(FormatInt(i)), prop) && Coerce(floats, Str(FormatInt(i)), prop) == Num(Int64(i))
  {
    var p := Schema("", ["integer", "string"], map[], [], None);
    assert Allowed(p)[1] == "string" && HasType(integral, Str(FormatInt(i)), "string");
    assert p.types[0] == "integer" && |"null"| == 4 && |"integer"| == 7;
    assert PropType(p) == "integer";
    IntegerSpelling(floats, i);
  }

  // ----- what a string becomes

  /** A changed string has become a value of the declared type. */
  lemma ChangedHasType(floats: Floats, integral: Number -> bool, s: string, typ: string)
    requires forall i :: integral(Int64(i))
    requires CoerceScalar(floats, s, typ) != Str(s)
    ensures HasType(integral, CoerceScalar(floats, s, typ), typ)
  {
  }

  /** The word in any mixture of its small and capital letters. */
  predicate AnyCase(s: string, small: string, capital: string)
    requires |small| == |capital|
  {
    |s| == |small| && forall i :: 0 <= i < |s| ==> s[i] == small[i] || s[i] == capital[i]
  }

  /** The boolean words in any case, and the digits, mean the boolean one expects; nothing else is one. */
  lemma BooleanSpelling(floats: Floats, s: string, b: bool)
    ensures CoerceScalar(floats, s, "boolean") == Bool(b) <==>
            if b then AnyCase(s, "true", "TRUE") || s == "1" else AnyCase(s, "false", "FALSE") || s == "0"
    ensures !CoerceScalar(floats, s, "boolean").Bool? ==> CoerceScalar(floats, s, "boolean") == Str(s)
  {
    LowerDigit(s, '1');
    LowerDigit(s, '0');
    LowerWord(s, "true", "TRUE");
    LowerWord(s, "false", "FALSE");
    assert "true"[0] != "false"[0] && "1"[0] != "0"[0] && |"true"| == 4 && |"false"| == 5 && |"1"| == |"0"| == 1;
    assert "boolean"[0] != "integer"[0] && "boolean"[0] != "number"[0];
  }

  predicate Letters(small: string, capital: string) {
    |small| == |capital| &&
    forall i :: 0 <= i < |small| ==> 'a' <= small[i] <= 'z' && small[i] as int == capital[i] as int + 32
  }

  lemma LowerWord(s: string, small: string, capital: string)
    requires Letters(small, capital)
    ensures Lower(s) == small <==> AnyCase(s, small, capital)
  {
    assert |Lower(s)| == |s| && forall i :: 0 <= i < |s| ==> Lower(s)[i] == LowerChar(s[i]);
    if |s| == |small| {
      forall i | 0 <= i < |s|
        ensures LowerChar(s[i]) == small[i] <==> s[i] == small[i] || s[i] == capital[i]
      {
      }
    }
  }

  lemma LowerDigit(s: string, c: char)
    requires '0' <= c <= '9'
    ensures Lower(s) == [c] <==> s == [c]
  {
    if |s| == 1 {
      assert Lower(s)[0] == LowerChar(s[0]);
      assert Lower(s) == [LowerChar(s[0])] && s == [s[0]];
    }
  }

  /** A number is what the string denotes as a float, and a string that denotes none stays. */
  lemma NumberSpelling(floats: Floats, s: string)
    ensures floats(s).Some? ==> CoerceScalar(floats, s, "number") == Num(Float64(floats(s).value))
    ensures floats(s).None? ==> CoerceScalar(floats, s, "number") == Str(s)
  {
    assert "number"[0] != "boolean"[0] && "number"[0] != "integer"[0];
  }

  function Digit(d: nat): char
    requires d < 10
  {
    ('0' as int + d) as char
  }

  function FormatNat(n: nat): string {
    if n < 10 then [Digit(n)] else FormatNat(n / 10) + [Digit(n % 10)]
  }

  /** Decimal notation. */
  function FormatInt(i: int): string {
    if i < 0 then "-" + FormatNat(-i) else FormatNat(i)
  }

  lemma {:induction false} MagnitudeOfFormat(n: nat)
    ensures FormatNat(n) != "" && IsDigits(FormatNat(n)) && Magnitude(FormatNat(n)) == n
  {
    var s := FormatNat(n);
    if n < 10 {
      assert s[..0] == "";
    } else {
      MagnitudeOfFormat(n / 10);
      assert s[..|s| - 1] == FormatNat(n / 10);
    }
  }

  lemma ParseUnsigned(s: string)
    requires s != "" && IsDigits(s)
    ensures ParseInt(s) == if Magnitude(s) < INT64_LIMIT then Some(Magnitude(s)) else None
  {
    assert '0' <= s[0] <= '9';
  }

  lemma ParseNegative(s: string)
    requires s != "" && IsDigits(s)
    ensures ParseInt("-" + s) == if Magnitude(s) <= INT64_LIMIT then Some(-(Magnitude(s) as int)) else None
  {
    assert ("-" + s)[1..] == s;
  }

  lemma ParseOfFormat(i: int)
    ensures ParseInt(FormatInt(i)) == if -INT64_LIMIT <= i < INT64_LIMIT then Some(i) else None
  {
    var n := if i < 0 then -i else i;
    MagnitudeOfFormat(n);
    if i < 0 {
      ParseNegative(FormatNat(n));
    } else {
      ParseUnsigned(FormatNat(n));
    }
  }

  lemma IntegerOnly(floats: Floats, s: string)
    ensures CoerceScalar(floats, s, "integer") == if ParseInt(s).Some? then Num(Int64(ParseInt(s).value)) else Str(s)
  {
    assert "integer"[0] != "boolean"[0] && "integer"[0] != "number"[0];
  }

  /** The decimal notation of an integer is accepted exactly when it fits into 64 bits, and is that integer. */
  lemma IntegerSpelling(floats: Floats, i: int)
    ensures CoerceScalar(floats, FormatInt(i), "integer") ==
            if -INT64_LIMIT <= i < INT64_LIMIT then Num(Int64(i)) else Str(FormatInt(i))
  {
    ParseOfFormat(i);
    var s := FormatInt(i);
    IntegerOnly(floats, s);
  }

  // ----- every notation of an integer

  function Zeros(k: nat): string {
    seq(k, i => '0')
  }

  /** An optional sign, any leading zeros, and the shortest decimal notation. */
  ghost predicate Notation(s: string, i: int) {
    exists sign, k: nat, n: nat :: IsNotation(s, i, sign, k, n)
  }

  predicate IsNotation(s: string, i: int, sign: string, k: nat, n: nat) {
    && (sign == "" || sign == "+" || sign == "-")
    && s == sign + (Zeros(k) + FormatNat(n))
    && i == if sign == "-" then -(n as int) else n
  }

  lemma {:induction false} MagnitudeOfZeros(k: nat, s: string)
    requires IsDigits(s)
    ensures IsDigits(Zeros(k) + s) && Magnitude(Zeros(k) + s) == Magnitude(s)
    decreases k + |s|
  {
    var z := Zeros(k) + s;
    if s != "" {
      assert z[..|z| - 1] == Zeros(k) + s[..|s| - 1];
      MagnitudeOfZeros(k, s[..|s| - 1]);
    } else if k > 0 {
      assert z[..|z| - 1] == Zeros(k - 1) + s;
      MagnitudeOfZeros(k - 1, s);
    }
  }

  /** Digits are leading zeros and the notation of their value. */
  lemma {:induction false} DigitsAreNotation(s: string)
    requires s != "" && IsDigits(s)
    ensures var f := FormatNat(Magnitude(s)); |f| <= |s| && s == Zeros(|s| - |f|) + f
    decreases |s|
  {
    var front, d := s[..|s| - 1], s[|s| - 1] as int - '0' as int;
    assert s == front + [Digit(d)];
    if front == "" {
      assert Magnitude(front) == 0 && FormatNat(d) == s;
    } else {
      DigitsAreNotation(front);
      var m := Magnitude(front);
      if m == 0 {
        assert FormatNat(m) == "0" && front == Zeros(|front|);
        assert FormatNat(Magnitude(s)) == [Digit(d)];
      } else {
        assert (10 * m + d) / 10 == m && (10 * m + d) % 10 == d;
        assert FormatNat(10 * m + d) == FormatNat(m) + [Digit(d)];
      }
    }
  }

  lemma ParsesExactly(s: string, i: int)
    ensures ParseInt(s) == Some(i) <==> -INT64_LIMIT <= i < INT64_LIMIT && Notation(s, i)
  {
    if ParseInt(s) == Some(i) {
      var signed := s[0] == '-' || s[0] == '+';
      var digits := if signed then s[1..] else s;
      DigitsAreNotation(digits);
      var n := Magnitude(digits);
      var sign := if signed then [s[0]] else "";
      assert s == sign + digits;
      assert IsNotation(s, i, sign, |digits| - |FormatNat(n)|, n);
    }
    if Notation(s, i) {
      var sign, k: nat, n: nat :| IsNotation(s, i, sign, k, n);
      NotationParses(s, i, sign, k, n);
    }
  }

  lemma NotationParses(s: string, i: int, sign: string, k: nat, n: nat)
    requires IsNotation(s, i, sign, k, n)
    ensures ParseInt(s) == if -INT64_LIMIT <= i < INT64_LIMIT then Some(i) else None
  {
    var digits := Zeros(k) + FormatNat(n);
    MagnitudeOfFormat(n);
    MagnitudeOfZeros(k, FormatNat(n));
    if sign == "" {
      assert s == digits;
      ParseUnsigned(digits);
    } else if sign == "-" {
      ParseNegative(digits);
    } else {
      assert ("+" + digits)[1..] == digits;
    }
  }

  /** A string becomes the integer `i` exactly if it is a decimal notation of `i`, with or without a sign and
      leading zeros, and `i` fits into 64 bits; a string that becomes no integer stays. */
  lemma IntegerExactly(floats: Floats, s: string, i: int)
    ensures CoerceScalar(floats, s, "integer") == Num(Int64(i)) <==>
            -0x8000_0000_0000_0000 <= i < 0x8000_0000_0000_0000 && Notation(s, i)
    ensures (forall j :: !Notation(s, j)) ==> CoerceScalar(floats, s, "integer") == Str(s)
  {
    IntegerOnly(floats, s);
    ParsesExactly(s, i);
    if ParseInt(s).Some? {
      ParsesExactly(s, ParseInt(s).value);
    }
  }
}
