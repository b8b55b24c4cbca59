/** Spellings of a type. Each type has one printed name and no two share one; the parser reads more strings than
    the printer writes, and exactly the canonical ones print back as they were. */
module AbiSpellings {
  import opened Types
  import opened Abi
  import opened AbiNames

  // ---------------------------------------------------------------- canonical strings

  /** A zero that starts a longer numeral. */
  predicate PaddedAt(s: string, i: nat)
    requires i < |s|
  {
    s[i] == '0' && i + 1 < |s| && IsDigit(s[i + 1]) && (i == 0 || !IsDigit(s[i - 1]))
  }

  /** No plus sign, and no numeral of several digits that starts with a zero. */
  predicate Canonical(s: string) { forall i :: 0 <= i < |s| ==> s[i] != '+' && !PaddedAt(s, i) }

  /** The numerals of two strings are not run together where the strings meet. */
  predicate Apart(a: string, b: string) { a == "" || b == "" || !IsDigit(a[|a| - 1]) || !IsDigit(b[0]) }

  lemma PaddedInParts(a: string, b: string, i: nat)
    requires Apart(a, b) && i < |a + b|
    ensures PaddedAt(a + b, i) <==> if i < |a| then PaddedAt(a, i) else PaddedAt(b, i - |a|)
  {
  }

  lemma CanonicalParts(a: string, b: string)
    requires Apart(a, b)
    ensures Canonical(a + b) <==> Canonical(a) && Canonical(b)
  {
    hide PaddedAt;
    var s := a + b;
    forall i | 0 <= i < |s|
      ensures s[i] == (if i < |a| then a[i] else b[i - |a|])
      ensures PaddedAt(s, i) <==> if i < |a| then PaddedAt(a, i) else PaddedAt(b, i - |a|)
    {
      PaddedInParts(a, b, i);
    }
    if Canonical(s) {
      forall i | 0 <= i < |a| ensures a[i] != '+' && !PaddedAt(a, i) { assert s[i] != '+' && !PaddedAt(s, i); }
      forall i | 0 <= i < |b| ensures b[i] != '+' && !PaddedAt(b, i) {
        assert s[|a| + i] != '+' && !PaddedAt(s, |a| + i);
      }
    }
  }

  lemma NumeralCanonical(d: string)
    requires d != "" && Digits(d)
    ensures Canonical(d) <==> |d| == 1 || d[0] != '0'
  {
    if |d| > 1 && d[0] == '0' { assert PaddedAt(d, 0); }
  }

  lemma {:induction false} ValuePositive(d: string)
    requires d != "" && Digits(d) && d[0] != '0'
    ensures Value(d) > 0
    decreases |d|
  {
    var init := d[..|d| - 1];
    if init == "" { assert d[0] == d[|d| - 1]; } else { ValuePositive(init); }
  }

  /** Digits print back as they were, unless they start with a zero that means nothing. */
  lemma {:induction false} NumeralPrintsBack(d: string)
    requires d != "" && Digits(d)
    ensures Decimal(Value(d)) == d <==> |d| == 1 || d[0] != '0'
    decreases |d|
  {
    var init, last := d[..|d| - 1], d[|d| - 1];
    var v, x := Value(init), (last - '0') as nat;
    assert Value(d) == 10 * v + x && DigitOf(x) == last && d == init + [last];
    if init == "" {
      assert Decimal(x) == [last];
    } else {
      NumeralPrintsBack(init);
      if d[0] != '0' {
        ValuePositive(init);
        assert Decimal(10 * v + x) == Decimal(v) + [last];
      } else {
        NoLeadingZero(Value(d));
      }
    }
  }

  lemma {:induction false} NoLeadingZero(n: nat)
    ensures |Decimal(n)| == 1 || Decimal(n)[0] != '0'
  {
    if n >= 10 {
      NoLeadingZero(n / 10);
      assert Decimal(n)[0] == Decimal(n / 10)[0];
    }
  }

  lemma {:induction false} NumeralSpelling(d: string)
    requires d != "" && Digits(d)
    ensures Decimal(Value(d)) == d <==> Canonical(d)
  {
    NumeralCanonical(d);
    NumeralPrintsBack(d);
  }

  // ---------------------------------------------------------------- lists

  /** Strings joined with commas. */
  function Commas(parts: seq<string>): string
    requires parts != []
  {
    if |parts| == 1 then parts[0] else parts[0] + ("," + Commas(parts[1..]))
  }

  /** Joining the parts of any string gives the string back, whatever its nesting. */
  lemma {:induction false} CommasOfSplit(s: string, depth: nat, part: string)
    ensures Commas(Split(s, depth, part)) == part + s
    decreases |s|
  {
    if s == "" {
      assert Commas([part]) == part + "";
    } else {
      SplitStep(s, depth, part);
      hide Split, Commas, NextDepth;
      assert s == [s[0]] + s[1..];
      if s[0] == ',' && depth == 0 {
        CommasOfSplit(s[1..], 0, "");
        CommasStep(part, Split(s[1..], 0, ""));
        assert "" + s[1..] == s[1..];
      } else {
        CommasOfSplit(s[1..], NextDepth(s[0], depth), part + [s[0]]);
        assert part + [s[0]] + s[1..] == part + s;
      }
    }
  }

  lemma {:induction false} SplitStep(s: string, depth: nat, part: string)
    requires s != ""
    ensures Split(s, depth, part) == if s[0] == ',' && depth == 0 then [part] + Split(s[1..], 0, "")
                                     else Split(s[1..], NextDepth(s[0], depth), part + [s[0]])
  {
  }

  lemma {:induction false} CommasStep(part: string, rest: seq<string>)
    requires rest != []
    ensures Commas([part] + rest) == part + ("," + Commas(rest))
  {
    assert ([part] + rest)[1..] == rest;
  }

  lemma {:induction false} CommasOfNames(ts: seq<AbiType>, j: nat)
    requires j < |ts|
    ensures Commas(Names(ts, |ts|)[j..]) == Name(ts[j]) + Tail(ts, j + 1)
    decreases |ts| - j
  {
    hide Name;
    var names := Names(ts, |ts|)[j..];
    if j + 1 == |ts| {
      assert Name(ts[j]) + "" == Name(ts[j]);
    } else {
      assert names[1..] == Names(ts, |ts|)[j + 1..];
      CommasOfNames(ts, j + 1);
      assert Tail(ts, j + 1) == "," + (Name(ts[j + 1]) + Tail(ts, j + 2));
    }
  }

  lemma {:induction false} JoinedIsCommas(ts: seq<AbiType>)
    requires ts != []
    ensures Joined(ts, |ts|) == Commas(Names(ts, |ts|))
  {
    hide Name;
    JoinedTail(ts, 1);
    CommasOfNames(ts, 0);
    assert Names(ts, |ts|)[0..] == Names(ts, |ts|);
  }

  predicate AllCanonical(parts: seq<string>) { forall i :: 0 <= i < |parts| ==> Canonical(parts[i]) }

  lemma {:induction false} CommasCanonical(parts: seq<string>)
    requires parts != []
    ensures Canonical(Commas(parts)) <==> AllCanonical(parts)
  {
    hide Canonical;
    if |parts| > 1 {
      var rest := parts[1..];
      CommasCanonical(rest);
      PlainChar(',');
      CanonicalParts(",", Commas(rest));
      CanonicalParts(parts[0], "," + Commas(rest));
      assert parts == [parts[0]] + rest;
      assert AllCanonical(parts) <==> Canonical(parts[0]) && AllCanonical(rest) by { AllCanonicalSplit(parts); }
    }
  }

  lemma AllCanonicalSplit(parts: seq<string>)
    requires parts != []
    ensures AllCanonical(parts) <==> Canonical(parts[0]) && AllCanonical(parts[1..])
  {
    hide Canonical;
    assert parts == [parts[0]] + parts[1..];
  }

  lemma PlainChar(ch: char)
    requires ch != '+' && !IsDigit(ch)
    ensures Canonical([ch])
  {
  }

  lemma {:induction false} ParsedAll(parts: seq<string>, bound: nat)
    requires forall i :: 0 <= i < |parts| ==> |parts[i]| < bound
    requires ParseAll(parts, bound).Some?
    ensures var ts := ParseAll(parts, bound).value;
            |ts| == |parts| && forall i :: 0 <= i < |parts| ==> Parse(parts[i]) == Some(ts[i])
  {
    hide Parse;
    if parts != [] { ParsedAll(parts[..|parts| - 1], bound); }
  }

  // ---------------------------------------------------------------- the shapes a parsed string can have

  /** `s` parsed as an array: element name, brackets and what stands between them. */
  lemma {:induction false} ArrayShape(s: string, name: string, len: string)
    requires s == name + "[" + len + "]" && (len == "" || Digits(len))
    ensures Canonical(s) <==> Canonical(name) && Canonical(len)
    ensures LastOpen(s) == Some(|name|)
  {
    hide Canonical, LastOpen;
    PlainChar('[');
    PlainChar(']');
    CanonicalParts(name, "[");
    CanonicalParts(name + "[", len);
    CanonicalParts(name + "[" + len, "]");
    assert s == name + "[" + (len + "]");
    forall i | 0 <= i < |len + "]"| ensures (len + "]")[i] != '[' { if i < |len| { assert IsDigit(len[i]); } }
    LastOpenAt(name, len + "]");
  }

  /** Two array spellings agree exactly when their parts do. */
  lemma ArraysAgree(a: string, x: string, b: string, y: string)
    requires Digits(x) && Digits(y)
    ensures a + "[" + x + "]" == b + "[" + y + "]" <==> a == b && x == y
  {
    hide Canonical, LastOpen;
    var s, t := a + "[" + x + "]", b + "[" + y + "]";
    ArrayShape(s, a, x);
    ArrayShape(t, b, y);
    if s == t {
      assert s[..|a|] == a && t[..|b|] == b;
      assert s[|a| + 1..|s| - 1] == x && t[|b| + 1..|t| - 1] == y;
    }
  }

  lemma {:induction false} ParsedArray(s: string, t: AbiType)
    requires EndsWith(s, "[]")
    requires Name(t) == s[..|s| - 2] <==> Canonical(s[..|s| - 2])
    ensures Name(Array(t)) == s <==> Canonical(s)
  {
    hide Canonical;
    var name := s[..|s| - 2];
    assert s == name + "[" + "" + "]" && Name(Array(t)) == Name(t) + "[" + "" + "]";
    hide Name, EndsWith;
    ArrayShape(s, name, "");
    NothingCanonical();
    ArraysAgree(Name(t), "", name, "");
  }

  lemma NothingCanonical()
    ensures Canonical("")
  {
  }

  lemma {:induction false} ParsedFixedArray(s: string, name: string, len: string, t: AbiType)
    requires s == name + "[" + len + "]" && len != "" && Digits(len)
    requires Name(t) == name <==> Canonical(name)
    ensures Name(FixedArray(t, Value(len))) == s <==> Canonical(s)
  {
    hide Canonical;
    var d := Decimal(Value(len));
    assert Name(FixedArray(t, Value(len))) == Name(t) + "[" + d + "]";
    hide Name, Decimal, Value;
    ArrayShape(s, name, len);
    NumeralSpelling(len);
    ArraysAgree(Name(t), d, name, len);
  }

  lemma {:induction false} ParsedTuple(inner: string, ts: seq<AbiType>)
    requires var parts := Split(inner, 0, "");
             |ts| == |parts| && forall i :: 0 <= i < |parts| ==> (Name(ts[i]) == parts[i] <==> Canonical(parts[i]))
    ensures Name(Tuple(ts)) == "(" + inner + ")" <==> Canonical("(" + inner + ")")
  {
    var parts := Split(inner, 0, "");
    var names, joined := Names(ts, |ts|), Joined(ts, |ts|);
    assert Name(Tuple(ts)) == "(" + joined + ")";
    ParensAgree(joined, inner);
    hide Canonical, Name, Split, Joined, Names;
    CommasOfSplit(inner, 0, "");
    assert "" + inner == inner;
    CommasCanonical(parts);
    SplitJoined(ts);
    JoinedIsCommas(ts);
    assert AllCanonical(parts) <==> names == parts;
  }

  lemma ParensAgree(a: string, b: string)
    ensures "(" + a + ")" == "(" + b + ")" <==> a == b
    ensures Canonical("(" + b + ")") <==> Canonical(b)
  {
    var s, t := "(" + a + ")", "(" + b + ")";
    if s == t { assert s[1..|s| - 1] == a && t[1..|t| - 1] == b; }
    hide Canonical;
    PlainChar('(');
    PlainChar(')');
    CanonicalParts("(", b);
    CanonicalParts("(" + b, ")");
  }

  lemma IntegerShape(s: string, t: AbiType) returns (word: string, num: string)
    requires ParseInteger(s) == Some(t)
    ensures t.Uint? || t.Int?
    ensures word == (if t.Uint? then "uint" else "int") && s == word + num && ParseNumber(num, U16_MAX) == Some(t.bits)
  {
    hide ParseNumber;
    word := if t.Uint? then "uint" else "int";
    num := s[|word|..];
    assert s[..|word|] == word;
  }

  lemma {:induction false} ParsedInteger(s: string, t: AbiType)
    requires ParseInteger(s) == Some(t)
    ensures Name(t) == s <==> Canonical(s)
  {
    var word, num := IntegerShape(s, t);
    assert Name(t) == word + Decimal(t.bits);
    hide Name, Decimal, ParseInteger, ParseNumber;
    assert Canonical(word);
    hide Canonical;
    CanonicalParts(word, num);
    SameWord(word, Decimal(t.bits), num);
    NumberSpelling(num, U16_MAX);
  }

  lemma SameWord(word: string, a: string, b: string)
    ensures word + a == word + b <==> a == b
  {
    assert (word + a)[|word|..] == a && (word + b)[|word|..] == b;
  }

  lemma NumberSpelling(num: string, max: nat)
    requires ParseNumber(num, max).Some?
    ensures Decimal(ParseNumber(num, max).value) == num <==> Canonical(num)
  {
    var n := ParseNumber(num, max).value;
    hide Decimal;
    if num[0] == '+' {
      assert !Canonical(num);
      assert IsDigit(Decimal(n)[0]);
    } else {
      NumeralSpelling(num);
    }
  }

  lemma {:induction false} ParsedSimple(s: string, t: AbiType)
    requires ParseSimple(s) == Some(t)
    ensures Name(t) == s <==> Canonical(s)
  {
    if s == "bool" || s == "address" || s == "bytes" || s == "string" {
      assert Canonical(s);
    } else {
      ParsedInteger(s, t);
    }
  }

  // ---------------------------------------------------------------- the exact condition

  lemma {:induction false} ParseArrayCase(s: string, t: AbiType)
    requires Parse(s) == Some(t) && EndsWith(s, "[]")
    ensures t.Array? && Parse(s[..|s| - 2]) == Some(t.elem)
  {
  }

  lemma ParseFixedCase(s: string, t: AbiType) returns (name: string, len: string)
    requires Parse(s) == Some(t) && EndsWith(s, "]") && !EndsWith(s, "[]")
    ensures s == name + "[" + len + "]" && len != "" && Digits(len)
    ensures |name| < |s| && Parse(name).Some? && t == FixedArray(Parse(name).value, Value(len))
  {
    hide Parse, Value, Digits, EndsWith;
    var k := FixedCaseParses(s, t);
    name, len := s[..k], s[k + 1..|s| - 1];
    EndChar(s, "]");
    CutAt(s, k);
  }

  lemma CutAt(s: string, k: nat)
    requires k + 1 < |s| && s[k] == '[' && s[|s| - 1] == ']'
    ensures s == s[..k] + "[" + s[k + 1..|s| - 1] + "]"
  {
  }

  lemma FixedCaseParses(s: string, t: AbiType) returns (k: nat)
    requires Parse(s) == Some(t) && EndsWith(s, "]") && !EndsWith(s, "[]")
    ensures k + 1 <= |s| - 1 && s[k] == '['
    ensures var len := s[k + 1..|s| - 1]; len != "" && Digits(len)
    ensures Parse(s[..k]).Some? && t == FixedArray(Parse(s[..k]).value, Value(s[k + 1..|s| - 1]))
  {
    EndChar(s, "]");
    hide LastOpen, Value, Digits, Split, ParseAll, ParseSimple, StartsWith, EndsWith;
    k := LastOpen(s).value;
  }

  lemma {:induction false} ParseSimpleCase(s: string, t: AbiType)
    requires Parse(s) == Some(t) && !EndsWith(s, "[]") && !EndsWith(s, "]")
    requires !(StartsWith(s, "(") && EndsWith(s, ")") && |s| >= 2)
    ensures ParseSimple(s) == Some(t)
  {
    hide LastOpen, Value, Digits, Split, StartsWith, EndsWith;
  }

  lemma Parenthesised(s: string)
    requires StartsWith(s, "(") && EndsWith(s, ")") && |s| >= 2
    ensures s == "(" + s[1..|s| - 1] + ")"
  {
    StartChar(s, "(");
    EndChar(s, ")");
  }

  /** A string that parses prints back as it was exactly when it is canonical: no plus sign and no padded numeral. */
  lemma {:induction false} ParsedPrintsBack(s: string, t: AbiType)
    requires Parse(s) == Some(t)
    ensures Name(t) == s <==> Canonical(s)
    decreases |s|
  {
    hide Parse, Canonical, Name, Value;
    if EndsWith(s, "[]") {
      ParseArrayCase(s, t);
      ParsedPrintsBack(s[..|s| - 2], t.elem);
      ParsedArray(s, t.elem);
    } else if EndsWith(s, "]") {
      var name, len := ParseFixedCase(s, t);
      ParsedPrintsBack(name, t.elem);
      ParsedFixedArray(s, name, len, t.elem);
    } else if StartsWith(s, "(") && EndsWith(s, ")") && |s| >= 2 {
      Parenthesised(s);
      TuplePrintsBack(s[1..|s| - 1], s, t);
    } else {
      ParseSimpleCase(s, t);
      ParsedSimple(s, t);
    }
  }

  lemma UnitPrintsBack()
    ensures Name(Tuple([])) == "()" && Canonical("()")
  {
    assert Joined([], 0) == "";
  }

  lemma {:induction false} TuplePrintsBack(inner: string, s: string, t: AbiType)
    requires s == "(" + inner + ")" && Parse(s) == Some(t)
    ensures Name(t) == s <==> Canonical(s)
    decreases |s|, 0
  {
    hide Canonical, Name, Split, Parse, ParseAll;
    ParseTuple(inner);
    if inner == "" {
      UnitPrintsBack();
      return;
    }
    var parts := Split(inner, 0, "");
    ParsedAll(parts, |s|);
    forall i | 0 <= i < |parts| ensures Name(t.elems[i]) == parts[i] <==> Canonical(parts[i]) {
      ParsedPrintsBack(parts[i], t.elems[i]);
    }
    ParsedTuple(inner, t.elems);
  }

  /** Two spellings of one type the printer never produces: both fail `Canonical`. */
  lemma ParsesOtherSpellings()
    ensures Parse("uint+8") == Parse("uint08") == Some(Uint(8))
    ensures Name(Uint(8)) == "uint8"
  {
    assert Value("8") == 8 by { assert "8"[..0] == ""; }
    assert Value("08") == 8 by { assert "08"[..1] == "0" && "0"[..0] == ""; }
    assert Value("0") == 0 by { assert "0"[..0] == ""; }
    assert "uint+8"[4..] == "+8" && "+8"[1..] == "8" && "uint08"[4..] == "08";
    assert "uint+8"[..4] == "uint" && "uint08"[..4] == "uint";
    assert Decimal(8) == "8";
  }

  lemma {:induction false} NumeralOf(n: nat)
    requires n >= 10
    ensures Decimal(n) == Decimal(n / 10) + [DigitOf(n % 10)]
  {
  }

  lemma SomeNumerals()
    ensures Decimal(8) == "8" && Decimal(10) == "10" && Decimal(64) == "64" && Decimal(256) == "256"
  {
    NumeralOf(10);
    NumeralOf(64);
    NumeralOf(25);
    NumeralOf(256);
    assert Decimal(1) == "1" && Decimal(2) == "2" && Decimal(6) == "6" && Decimal(8) == "8";
  }

  lemma {:induction false} JoinedPair(t: AbiType, u: AbiType)
    ensures Joined([t, u], 2) == Name(t) + "," + Name(u)
  {
    assert Joined([t, u], 1) == Name(t);
  }

  /** The names that go into selectors. */
  lemma CanonicalNames()
    ensures Name(Uint(256)) == "uint256" && Name(Int(8)) == "int8" && Name(Bytestring) == "bytes"
    ensures Name(Array(Uint(64))) == "uint64[]" && Name(FixedArray(String, 10)) == "string[10]"
    ensures Name(Tuple([Bool, Address])) == "(bool,address)" && Name(Tuple([])) == "()"
  {
    hide Decimal, Joined;
    SomeNumerals();
    JoinedPair(Bool, Address);
    UnitPrintsBack();
  }

  // ---------------------------------------------------------------- one type, one name

  /** What a name ends with tells an array from a tuple from anything else. */
  lemma {:induction false} NameEnd(t: AbiType)
    ensures Name(t) != ""
    ensures Name(t)[|Name(t)| - 1] == ']' <==> t.Array? || t.FixedArray?
    ensures Name(t)[|Name(t)| - 1] == ')' <==> t.Tuple?
  {
    hide Decimal, Joined;
    if t.Uint? || t.Int? {
      var d := Decimal(t.bits);
      assert Name(t)[|Name(t)| - 1] == d[|d| - 1] && IsDigit(d[|d| - 1]);
    }
  }

  function Between(t: AbiType): (d: string)
    requires t.Array? || t.FixedArray?
    ensures Digits(d) && Name(t) == Name(t.elem) + "[" + d + "]" && (d == "" <==> t.Array?)
  {
    if t.Array? then "" else Decimal(t.len)
  }

  lemma {:induction false} SimpleNames(t: AbiType, u: AbiType)
    requires Simple(t) && Simple(u) && Name(t) == Name(u)
    ensures t == u
  {
    hide Decimal;
    if t.Uint? || t.Int? {
      var d := Decimal(t.bits);
      assert Name(t)[|Name(t)| - 1] == d[|d| - 1] && IsDigit(d[|d| - 1]);
    }
    if u.Uint? || u.Int? {
      var d := Decimal(u.bits);
      assert Name(u)[|Name(u)| - 1] == d[|d| - 1] && IsDigit(d[|d| - 1]);
    }
    if (t.Uint? || t.Int?) && (u.Uint? || u.Int?) {
      assert Name(t)[0] == Name(u)[0];
      ValueOfDecimal(t.bits);
      ValueOfDecimal(u.bits);
      SameWord(if t.Uint? then "uint" else "int", Decimal(t.bits), Decimal(u.bits));
    }
  }

  lemma TupleNames(ts: seq<AbiType>, us: seq<AbiType>)
    requires Name(Tuple(ts)) == Name(Tuple(us))
    ensures Names(ts, |ts|) == Names(us, |us|)
  {
    var a, b := Joined(ts, |ts|), Joined(us, |us|);
    assert Name(Tuple(ts)) == "(" + a + ")" && Name(Tuple(us)) == "(" + b + ")";
    assert ts == [] ==> a == "";
    assert us == [] ==> b == "";
    ParensAgree(a, b);
    hide Name, Joined;
    if ts != [] { SplitJoined(ts); NamesFit(ts, |ts|); }
    if us != [] { SplitJoined(us); NamesFit(us, |us|); }
  }

  /** Different types have different names, so different selectors: all types, also those no string parses to. */
  lemma {:induction false} NamesDiffer(t: AbiType, u: AbiType)
    ensures Name(t) == Name(u) <==> t == u
    decreases t
  {
    hide Name, Decimal;
    if Name(t) == Name(u) {
      NameEnd(t);
      NameEnd(u);
      if t.Array? || t.FixedArray? {
        ArraysAgree(Name(t.elem), Between(t), Name(u.elem), Between(u));
        NamesDiffer(t.elem, u.elem);
        if t.FixedArray? { ValueOfDecimal(t.len); ValueOfDecimal(u.len); }
      } else if t.Tuple? {
        TupleNames(t.elems, u.elems);
        ElementsAgree(t.elems, u.elems);
      } else {
        SimpleNames(t, u);
      }
    }
  }

  lemma {:induction false} ElementsAgree(ts: seq<AbiType>, us: seq<AbiType>)
    requires Names(ts, |ts|) == Names(us, |us|)
    ensures ts == us
    decreases ts
  {
    assert |Names(ts, |ts|)| == |ts| && |Names(us, |us|)| == |us|;
    forall i | 0 <= i < |ts| ensures ts[i] == us[i] {
      assert Names(ts, |ts|)[i] == Names(us, |us|)[i];
      NamesDiffer(ts[i], us[i]);
    }
  }
}
