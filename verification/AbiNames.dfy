/** Canonical type names: the printer whose output goes into selectors, and the parser that reads it. */
module AbiNames {
  import opened Types
  import opened Abi

  const U16_MAX := 0xFFFF
  const USIZE_MAX := U64_MAX

  // ---------------------------------------------------------------- numerals

  predicate IsDigit(ch: char) { '0' <= ch <= '9' }

  predicate Digits(s: string) { forall i :: 0 <= i < |s| ==> IsDigit(s[i]) }

  function DigitOf(d: nat): (ch: char)
    requires d < 10
    ensures IsDigit(ch)
  {
    '0' + d as char
  }

  function Decimal(n: nat): (s: string)
    ensures s != "" && Digits(s)
  {
    if n < 10 then [DigitOf(n)] else Decimal(n / 10) + [DigitOf(n % 10)]
  }

  function Value(s: string): nat
    requires Digits(s)
  {
    if s == "" then 0 else 10 * Value(s[..|s| - 1]) + (s[|s| - 1] - '0') as nat
  }

  lemma {:induction false} ValueOfDecimal(n: nat)
    ensures Value(Decimal(n)) == n
  {
    var s := Decimal(n);
    if n < 10 {
      assert s[..0] == "";
    } else {
      ValueOfDecimal(n / 10);
      assert s[..|s| - 1] == Decimal(n / 10);
    }
  }

  /** A number with an optional plus sign, at most `max`. */
  function ParseNumber(s: string, max: nat): Option<nat> {
    var body := if s != "" && s[0] == '+' then s[1..] else s;
    if body == "" || !Digits(body) || Value(body) > max then None else Some(Value(body))
  }

  lemma {:induction false} ParseDecimal(n: nat, max: nat)
    ensures ParseNumber(Decimal(n), max) == if n <= max then Some(n) else None
  {
    hide Decimal;
    ValueOfDecimal(n);
    assert IsDigit(Decimal(n)[0]);
  }

  // ---------------------------------------------------------------- printing

  function Name(t: AbiType): (s: string)
    decreases t, 1
  {
    match t
    case Uint(n) => "uint" + Decimal(n)
    case Int(n) => "int" + Decimal(n)
    case Bool => "bool"
    case Address => "address"
    case Bytestring => "bytes"
    case String => "string"
    case Array(elem) => Name(elem) + "[]"
    case FixedArray(elem, len) => Name(elem) + "[" + Decimal(len) + "]"
    case Tuple(elems) => "(" + Joined(elems, |elems|) + ")"
  }

  /** The first `k` names, separated by commas. */
  function Joined(ts: seq<AbiType>, k: nat): string
    requires k <= |ts|
    decreases ts, 0, k
  {
    if k == 0 then ""
    else if k == 1 then Name(ts[0])
    else Joined(ts, k - 1) + "," + Name(ts[k - 1])
  }

  // ---------------------------------------------------------------- parsing

  predicate Opens(ch: char) { ch == '(' || ch == '[' }
  predicate Closes(ch: char) { ch == ')' || ch == ']' }

  /** The parts of `s` between commas outside all brackets, `part` being the one under way. */
  function Split(s: string, depth: nat, part: string): (r: seq<string>)
    ensures r != [] && forall i :: 0 <= i < |r| ==> |r[i]| <= |part| + |s|
    decreases |s|
  {
    if s == "" then [part]
    else if s[0] == ',' && depth == 0 then [part] + Split(s[1..], 0, "")
    else Split(s[1..], NextDepth(s[0], depth), part + [s[0]])
  }

  function NextDepth(ch: char, depth: nat): nat {
    if Opens(ch) then depth + 1 else if Closes(ch) && depth > 0 then depth - 1 else depth
  }

  /** Where the scan stands: parts found, depth, and start of the part under way. */
  ghost predicate Scanned(s: string, i: nat, parts: seq<string>, depth: nat, start: nat) {
    start <= i <= |s| && Split(s, 0, "") == parts + Split(s[i..], depth, s[start..i])
  }

  lemma ScanStarts(s: string)
    ensures Scanned(s, 0, [], 0, 0)
  {
    assert s[0..] == s && s[0..0] == "";
  }

  lemma ScanSteps(s: string, i: nat, parts: seq<string>, depth: nat, start: nat)
    requires i < |s| && Scanned(s, i, parts, depth, start)
    ensures if s[i] == ',' && depth == 0 then Scanned(s, i + 1, parts + [s[start..i]], 0, i + 1)
            else Scanned(s, i + 1, parts, NextDepth(s[i], depth), start)
  {
    var rest, part := s[i..], s[start..i];
    assert rest[0] == s[i] && rest[1..] == s[i + 1..];
    assert part + [s[i]] == s[start..i + 1] && s[i + 1..i + 1] == "";
    assert Split(rest, depth, part) == if s[i] == ',' && depth == 0 then [part] + Split(s[i + 1..], 0, "")
                                       else Split(s[i + 1..], NextDepth(s[i], depth), part + [s[i]]);
    hide Split;
  }

  lemma {:induction false} ScanEnds(s: string, parts: seq<string>, depth: nat, start: nat)
    requires Scanned(s, |s|, parts, depth, start)
    ensures Split(s, 0, "") == parts + [s[start..]]
  {
    assert s[|s|..] == "" && s[start..|s|] == s[start..];
  }

  /** `Split` as the source runs it: one scan with a depth and the start of the current part. */
  method SplitParts(s: string) returns (parts: seq<string>)
    ensures parts == Split(s, 0, "")
  {
    hide Scanned;
    var depth: nat, start: nat := 0, 0;
    parts := [];
    ScanStarts(s);
    for i := 0 to |s|
      invariant start <= i && Scanned(s, i, parts, depth, start)
    {
      ScanSteps(s, i, parts, depth, start);
      if Opens(s[i]) {
        depth := depth + 1;
      } else if Closes(s[i]) {
        depth := if depth > 0 then depth - 1 else 0;
      } else if s[i] == ',' && depth == 0 {
        parts := parts + [s[start..i]];
        start := i + 1;
      }
    }
    ScanEnds(s, parts, depth, start);
    parts := parts + [s[start..]];
  }

  predicate EndsWith(s: string, end: string) { |end| <= |s| && s[|s| - |end|..] == end }
  predicate StartsWith(s: string, start: string) { |start| <= |s| && s[..|start|] == start }

  /** Position of the last opening square bracket. */
  function LastOpen(s: string): (k: Option<nat>)
    ensures k.Some? ==> k.value < |s| && s[k.value] == '['
  {
    if s == "" then None
    else if s[|s| - 1] == '[' then Some(|s| - 1)
    else LastOpen(s[..|s| - 1])
  }

  function ParseInteger(s: string): Option<AbiType> {
    var unsigned := StartsWith(s, "uint");
    if !unsigned && !StartsWith(s, "int") then None
    else
      match ParseNumber(if unsigned then s[4..] else s[3..], U16_MAX)
      case None => None
      case Some(bits) => if !ValidBits(bits) then None else Some(if unsigned then Uint(bits) else Int(bits))
  }

  function ParseSimple(s: string): Option<AbiType> {
    if s == "bool" then Some(Bool)
    else if s == "address" then Some(Address)
    else if s == "bytes" then Some(Bytestring)
    else if s == "string" then Some(String)
    else ParseInteger(s)
  }

  function Parse(s: string): Option<AbiType>
    decreases |s|, 1, 0
  {
    if EndsWith(s, "[]") then
      (match Parse(s[..|s| - 2]) case None => None case Some(t) => Some(Array(t)))
    else if EndsWith(s, "]") then
      (match LastOpen(s)
       case None => None
       case Some(k) =>
         var len := s[k + 1..|s| - 1];
         if len == "" || !Digits(len) || Value(len) == 0 || Value(len) > USIZE_MAX then None
         else
           (match Parse(s[..k]) case None => None case Some(t) => Some(FixedArray(t, Value(len)))))
    else if StartsWith(s, "(") && EndsWith(s, ")") && |s| >= 2 then
      var inner := s[1..|s| - 1];
      if inner == "" then Some(Tuple([]))
      else
        match ParseAll(Split(inner, 0, ""), |s|)
        case None => None
        case Some(ts) => Some(Tuple(ts))
    else ParseSimple(s)
  }

  function ParseAll(parts: seq<string>, bound: nat): Option<seq<AbiType>>
    requires forall i :: 0 <= i < |parts| ==> |parts[i]| < bound
    decreases bound, 0, |parts|
  {
    if parts == [] then Some([])
    else
      match (ParseAll(parts[..|parts| - 1], bound), Parse(parts[|parts| - 1]))
      case (Some(ts), Some(t)) => Some(ts + [t])
      case _ => None
  }

  // ---------------------------------------------------------------- names are balanced

  predicate Plain(s: string) { forall i :: 0 <= i < |s| ==> !Opens(s[i]) && !Closes(s[i]) && s[i] != ',' }

  lemma {:induction false} PlainScans(w: string, rest: string, depth: nat, part: string)
    requires Plain(w)
    ensures Split(w + rest, depth, part) == Split(rest, depth, part + w)
    decreases |w|
  {
    if w == "" {
      assert w + rest == rest && part + w == part;
    } else {
      assert (w + rest)[0] == w[0] && (w + rest)[1..] == w[1..] + rest;
      PlainScans(w[1..], rest, depth, part + [w[0]]);
      assert part + [w[0]] + w[1..] == part + w;
    }
  }

  lemma BracketScans(ch: char, rest: string, depth: nat, part: string)
    ensures Opens(ch) ==> Split([ch] + rest, depth, part) == Split(rest, depth + 1, part + [ch])
    ensures Closes(ch) && depth > 0 ==> Split([ch] + rest, depth, part) == Split(rest, depth - 1, part + [ch])
    ensures ch == ',' && depth > 0 ==> Split([ch] + rest, depth, part) == Split(rest, depth, part + [ch])
    ensures ch == ',' && depth == 0 ==> Split([ch] + rest, depth, part) == [part] + Split(rest, 0, "")
  {
    assert ([ch] + rest)[0] == ch && ([ch] + rest)[1..] == rest;
  }

  lemma {:induction false} DecimalPlain(n: nat)
    ensures Plain(Decimal(n))
  {
    hide Decimal;
    forall i | 0 <= i < |Decimal(n)| ensures IsDigit(Decimal(n)[i]) { }
  }

  predicate Simple(t: AbiType) { !t.Array? && !t.FixedArray? && !t.Tuple? }

  lemma {:induction false} SimplePlain(t: AbiType)
    requires Simple(t)
    ensures Plain(Name(t))
  {
    hide Decimal;
    if t.Uint? || t.Int? { DecimalPlain(t.bits); }
  }

  /** A name followed by an array suffix, once the name itself is passed over. */
  lemma {:induction false} SuffixScans(name: string, len: string, rest: string, depth: nat, part: string)
    requires Plain(len)
    requires var suffix := "[" + (len + ("]" + rest));
             Split(name + suffix, depth, part) == Split(suffix, depth, part + name)
    ensures Split(name + "[" + len + "]" + rest, depth, part) == Split(rest, depth, part + (name + "[" + len + "]"))
  {
    hide Split;
    var p := part + name;
    assert name + "[" + len + "]" + rest == name + ("[" + (len + ("]" + rest)));
    BracketScans('[', len + ("]" + rest), depth, p);
    PlainScans(len, "]" + rest, depth + 1, p + "[");
    BracketScans(']', rest, depth + 1, p + "[" + len);
    assert p + "[" + len + "]" == part + (name + "[" + len + "]");
  }

  /** Parentheses around something passed over one level down. */
  lemma {:induction false} ParensScan(inner: string, rest: string, depth: nat, part: string)
    requires Split(inner + (")" + rest), depth + 1, part + "(") == Split(")" + rest, depth + 1, part + "(" + inner)
    ensures Split("(" + inner + ")" + rest, depth, part) == Split(rest, depth, part + ("(" + inner + ")"))
  {
    hide Split;
    assert "(" + inner + ")" + rest == "(" + (inner + (")" + rest));
    BracketScans('(', inner + (")" + rest), depth, part);
    BracketScans(')', rest, depth + 1, part + "(" + inner);
    assert part + "(" + inner + ")" == part + ("(" + inner + ")");
  }

  /** The scanner passes over a whole name: commas inside it are inside brackets. */
  lemma {:induction false} NameScans(t: AbiType, rest: string, depth: nat, part: string)
    ensures Split(Name(t) + rest, depth, part) == Split(rest, depth, part + Name(t))
    decreases t, 1
  {
    hide Split, Decimal, Joined;
    match t
    case Array(elem) =>
      NameScans(elem, "[" + ("" + ("]" + rest)), depth, part);
      SuffixScans(Name(elem), "", rest, depth, part);
      assert Name(t) == Name(elem) + "[" + "" + "]";
    case FixedArray(elem, len) =>
      DecimalPlain(len);
      NameScans(elem, "[" + (Decimal(len) + ("]" + rest)), depth, part);
      SuffixScans(Name(elem), Decimal(len), rest, depth, part);
    case Tuple(elems) =>
      JoinedScans(elems, |elems|, ")" + rest, depth + 1, part + "(");
      ParensScan(Joined(elems, |elems|), rest, depth, part);
    case _ =>
      SimplePlain(t);
      PlainScans(Name(t), rest, depth, part);
  }

  /** Something passed over, a comma inside brackets, and a name. */
  lemma {:induction false} CommaScans(init: string, last: string, rest: string, depth: nat, part: string)
    requires depth > 0
    requires Split(init + ("," + (last + rest)), depth, part) == Split("," + (last + rest), depth, part + init)
    requires Split(last + rest, depth, part + init + ",") == Split(rest, depth, part + init + "," + last)
    ensures Split(init + "," + last + rest, depth, part) == Split(rest, depth, part + (init + "," + last))
  {
    hide Split;
    assert init + "," + last + rest == init + ("," + (last + rest));
    BracketScans(',', last + rest, depth, part + init);
    assert part + init + "," + last == part + (init + "," + last);
  }

  lemma {:induction false} JoinedScans(ts: seq<AbiType>, k: nat, rest: string, depth: nat, part: string)
    requires k <= |ts| && depth > 0
    ensures Split(Joined(ts, k) + rest, depth, part) == Split(rest, depth, part + Joined(ts, k))
    decreases ts, 0, k
  {
    hide Split, Name;
    if k == 0 {
      assert "" + rest == rest && part + "" == part;
    } else if k == 1 {
      NameScans(ts[0], rest, depth, part);
    } else {
      var init, last := Joined(ts, k - 1), Name(ts[k - 1]);
      JoinedScans(ts, k - 1, "," + (last + rest), depth, part);
      NameScans(ts[k - 1], rest, depth, part + init + ",");
      CommaScans(init, last, rest, depth, part);
    }
  }

  // ---------------------------------------------------------------- splitting a list of names

  function Names(ts: seq<AbiType>, k: nat): (r: seq<string>)
    requires k <= |ts|
    ensures |r| == k && forall i :: 0 <= i < k ==> r[i] == Name(ts[i])
  {
    seq(k, i requires 0 <= i < k => Name(ts[i]))
  }

  /** Names `j` on, as they stand after the first comma before them. */
  function Tail(ts: seq<AbiType>, j: nat): string
    requires j <= |ts|
    decreases |ts| - j
  {
    if j == |ts| then "" else "," + Name(ts[j]) + Tail(ts, j + 1)
  }

  lemma {:induction false} SplitTail(ts: seq<AbiType>, j: nat, part: string)
    requires j <= |ts|
    ensures Split(Tail(ts, j), 0, part) == [part] + Names(ts, |ts|)[j..]
    decreases |ts| - j
  {
    if j < |ts| {
      hide Split, Name;
      var rest := Tail(ts, j + 1);
      assert Tail(ts, j) == "," + (Name(ts[j]) + rest);
      BracketScans(',', Name(ts[j]) + rest, 0, part);
      NameScans(ts[j], rest, 0, "");
      assert "" + Name(ts[j]) == Name(ts[j]);
      SplitTail(ts, j + 1, Name(ts[j]));
      assert Names(ts, |ts|)[j..] == [Name(ts[j])] + Names(ts, |ts|)[j + 1..];
    }
  }

  lemma {:induction false} JoinedTail(ts: seq<AbiType>, k: nat)
    requires 0 < k <= |ts|
    ensures Joined(ts, |ts|) == Joined(ts, k) + Tail(ts, k)
    decreases |ts| - k
  {
    hide Name;
    if k < |ts| {
      JoinedTail(ts, k + 1);
      assert Joined(ts, k + 1) == Joined(ts, k) + "," + Name(ts[k]);
      assert Joined(ts, k) + "," + Name(ts[k]) + Tail(ts, k + 1) == Joined(ts, k) + Tail(ts, k);
    }
  }

  /** Splitting joined names gives the names back. */
  lemma {:induction false} SplitJoined(ts: seq<AbiType>)
    requires ts != []
    ensures Split(Joined(ts, |ts|), 0, "") == Names(ts, |ts|)
  {
    var first := Name(ts[0]);
    JoinedTail(ts, 1);
    assert Joined(ts, 1) == first;
    hide Split, Name, Joined, Tail;
    NameScans(ts[0], Tail(ts, 1), 0, "");
    assert "" + first == first;
    SplitTail(ts, 1, first);
    FirstName(ts);
  }

  lemma FirstName(ts: seq<AbiType>)
    requires ts != []
    ensures Names(ts, |ts|) == [Name(ts[0])] + Names(ts, |ts|)[1..]
  {
    hide Name;
    assert Names(ts, |ts|)[0] == Name(ts[0]);
  }

  // ---------------------------------------------------------------- the round trip

  /** Types the parser can produce: integer widths valid, array lengths positive and in range. */
  predicate Nameable(t: AbiType) {
    match t
    case Uint(n) => ValidBits(n)
    case Int(n) => ValidBits(n)
    case Array(elem) => Nameable(elem)
    case FixedArray(elem, len) => 0 < len <= USIZE_MAX && Nameable(elem)
    case Tuple(elems) => forall i :: 0 <= i < |elems| ==> Nameable(elems[i])
    case _ => true
  }

  lemma {:induction false} NameNonempty(t: AbiType)
    ensures Name(t) != ""
  {
    hide Decimal, Joined;
  }

  lemma EndChar(s: string, end: string)
    ensures EndsWith(s, end) && end != "" ==> s != "" && s[|s| - 1] == end[|end| - 1]
  {
    if EndsWith(s, end) && end != "" { assert s[|s| - |end|..][|end| - 1] == s[|s| - 1]; }
  }

  lemma NoSquareEnd(s: string)
    requires s != "" && s[|s| - 1] != ']'
    ensures !EndsWith(s, "]") && !EndsWith(s, "[]")
  {
    hide EndsWith;
    EndChar(s, "]");
    EndChar(s, "[]");
  }

  lemma StartChar(s: string, start: string)
    ensures StartsWith(s, start) && start != "" ==> s != "" && s[0] == start[0]
  {
    if StartsWith(s, start) && start != "" { assert s[..|start|][0] == s[0]; }
  }

  lemma NoParenStart(s: string)
    requires s != "" && s[0] != '('
    ensures !StartsWith(s, "(")
  {
    hide StartsWith;
    StartChar(s, "(");
  }

  lemma {:induction false} ParseIntegerName(t: AbiType)
    requires t.Uint? || t.Int?
    ensures ParseSimple(Name(t)) == if Nameable(t) then Some(t) else None
    ensures !EndsWith(Name(t), "]") && !EndsWith(Name(t), "[]") && !StartsWith(Name(t), "(")
  {
    hide Decimal, ParseNumber, EndsWith;
    var s, d := Name(t), Decimal(t.bits);
    ParseDecimal(t.bits, U16_MAX);
    assert s[|s| - 1] == d[|d| - 1] && IsDigit(d[|d| - 1]);
    NoSquareEnd(s);
    NoParenStart(s);
    if t.Uint? {
      assert s[..4] == "uint" && s[4..] == d;
    } else {
      assert s[0] == 'i' && s[..3] == "int" && s[3..] == d;
    }
  }

  lemma {:induction false} ParseKeyword(t: AbiType)
    requires Simple(t) && !t.Uint? && !t.Int?
    ensures ParseSimple(Name(t)) == Some(t)
    ensures !EndsWith(Name(t), "]") && !EndsWith(Name(t), "[]") && !StartsWith(Name(t), "(")
  {
    NoSquareEnd(Name(t));
    NoParenStart(Name(t));
  }

  lemma {:induction false} LastOpenAt(a: string, b: string)
    requires forall i :: 0 <= i < |b| ==> b[i] != '['
    ensures LastOpen(a + "[" + b) == Some(|a|)
    decreases |b|
  {
    var s := a + "[" + b;
    if b == "" {
      assert s[|s| - 1] == '[';
    } else {
      assert s[|s| - 1] == b[|b| - 1];
      assert s[..|s| - 1] == a + "[" + b[..|b| - 1];
      LastOpenAt(a, b[..|b| - 1]);
    }
  }

  lemma {:induction false} ParseArray(name: string)
    ensures Parse(name + "[]") == match Parse(name) case None => None case Some(t) => Some(Array(t))
  {
    var s := name + "[]";
    assert s[|s| - 2..] == "[]" && s[..|s| - 2] == name;
  }

  lemma {:induction false} ParseFixedArray(name: string, len: nat)
    ensures Parse(name + "[" + Decimal(len) + "]") ==
            if len == 0 || len > USIZE_MAX then None
            else match Parse(name) case None => None case Some(t) => Some(FixedArray(t, len))
  {
    hide Decimal;
    var d := Decimal(len);
    var s := name + "[" + d + "]";
    ValueOfDecimal(len);
    assert IsDigit(d[|d| - 1]) && s[|s| - 2] == d[|d| - 1] && s[|s| - 1] == ']';
    assert s[|s| - 2..][0] == s[|s| - 2];
    assert s[|s| - 1..] == "]";
    assert s == name + "[" + (d + "]");
    forall i | 0 <= i < |d + "]"| ensures (d + "]")[i] != '[' { if i < |d| { assert IsDigit(d[i]); } }
    LastOpenAt(name, d + "]");
    assert s[..|name|] == name && s[|name| + 1..|s| - 1] == d;
  }

  lemma {:induction false} ParseTuple(inner: string)
    ensures Parse("(" + inner + ")") ==
            if inner == "" then Some(Tuple([]))
            else match ParseAll(Split(inner, 0, ""), |inner| + 2) case None => None case Some(ts) => Some(Tuple(ts))
  {
    var s := "(" + inner + ")";
    assert s[|s| - 1..] == ")" && s[..1] == "(" && s[1..|s| - 1] == inner;
    NoSquareEnd(s);
    assert StartsWith(s, "(") && EndsWith(s, ")");
    hide Split, ParseAll, LastOpen, ParseSimple, Digits, Value, StartsWith, EndsWith;
  }

  lemma {:induction false} ParseNames(ts: seq<AbiType>, k: nat, bound: nat)
    requires k <= |ts| && forall i :: 0 <= i < k ==> |Name(ts[i])| < bound
    requires forall i :: 0 <= i < k ==> Parse(Name(ts[i])) == if Nameable(ts[i]) then Some(ts[i]) else None
    ensures ParseAll(Names(ts, k), bound) ==
            if forall i :: 0 <= i < k ==> Nameable(ts[i]) then Some(ts[..k]) else None
    decreases k
  {
    hide Parse, Name, Nameable;
    if k == 0 {
      assert ts[..0] == [];
    } else {
      ParseNames(ts, k - 1, bound);
      assert Names(ts, k)[..k - 1] == Names(ts, k - 1);
      assert ts[..k] == ts[..k - 1] + [ts[k - 1]];
    }
  }

  lemma {:induction false} NameFits(ts: seq<AbiType>, k: nat, i: nat)
    requires i < k <= |ts|
    ensures |Name(ts[i])| <= |Joined(ts, k)|
    decreases k
  {
    hide Name;
    if i < k - 1 { NameFits(ts, k - 1, i); }
  }

  /** Parsing a printed type gives the type back, if and only if the type is one the parser can
      produce; otherwise it fails. */
  lemma {:induction false} ParseOfName(t: AbiType)
    ensures Parse(Name(t)) == if Nameable(t) then Some(t) else None
    decreases t
  {
    match t
    case Array(elem) =>
      ParseOfName(elem);
      hide Parse;
      ParseArray(Name(elem));
    case FixedArray(elem, len) =>
      ParseOfName(elem);
      hide Parse, Decimal;
      ParseFixedArray(Name(elem), len);
    case Tuple(elems) =>
      forall i | 0 <= i < |elems| ensures Parse(Name(elems[i])) == if Nameable(elems[i]) then Some(elems[i]) else None {
        ParseOfName(elems[i]);
      }
      TupleOfNames(elems);
    case _ =>
      if t.Uint? || t.Int? { ParseIntegerName(t); } else { ParseKeyword(t); }
  }

  lemma TupleOfNames(elems: seq<AbiType>)
    requires forall i :: 0 <= i < |elems| ==>
                           Parse(Name(elems[i])) == if Nameable(elems[i]) then Some(elems[i]) else None
    ensures Parse(Name(Tuple(elems))) == if Nameable(Tuple(elems)) then Some(Tuple(elems)) else None
  {
    var inner := Joined(elems, |elems|);
    assert Name(Tuple(elems)) == "(" + inner + ")";
    NameableTuple(elems);
    hide Parse, Split, Name, Nameable, ParseAll, Joined, Names;
    ParseTuple(inner);
    if elems == [] {
      assert Joined([], 0) == "" by { NothingJoined(); }
    } else {
      SplitJoined(elems);
      NamesFit(elems, |elems|);
      ParseNames(elems, |elems|, |inner| + 2);
      assert elems[..|elems|] == elems;
    }
  }

  lemma NothingJoined()
    ensures Joined([], 0) == ""
  {
  }

  lemma NameableTuple(elems: seq<AbiType>)
    ensures Nameable(Tuple(elems)) <==> forall i :: 0 <= i < |elems| ==> Nameable(elems[i])
  {
  }

  lemma {:induction false} NamesFit(ts: seq<AbiType>, k: nat)
    requires 0 < k <= |ts|
    ensures Joined(ts, k) != "" && forall i :: 0 <= i < k ==> |Name(ts[i])| < |Joined(ts, k)| + 2
  {
    hide Name, Joined;
    forall i | 0 <= i < k ensures |Name(ts[i])| < |Joined(ts, k)| + 2 { NameFits(ts, k, i); }
    NameNonempty(ts[0]);
    NameFits(ts, k, 0);
  }
}
