/** The layout of calldata, said without the codec: where each item stands and what number each word spells. The
    encoder produces exactly the bytes laid out this way. */
module AbiLayout {
  import opened Types
  import opened Abi
  import opened AbiRanges
  import opened AbiRoundTrip

  // ---------------------------------------------------------------- the layout

  /** Four bytes that spell the count `n` come first. */
  predicate Counted(n: nat, b: Bytes) { |b| >= 4 && Number(b[..4]) == n }

  /** A whole number of bytes, one to thirty-two of them. */
  predicate WholeBytes(bits: nat) { bits % 8 == 0 && 1 <= bits / 8 <= 32 }

  /** The bytes of one value: words as they are, a flag as the number one or zero, bytes and text after their
      length, arrays after their count, tuples and fixed arrays item by item. */
  ghost predicate Spells(t: AbiType, v: AbiValue, b: Bytes)
    decreases Height(t), 0, 0
  {
    match (t, v)
    case (Uint(bits), UintValue(w)) => b == w && WholeBytes(bits) && Number(w) < Base(bits / 8)
    case (Int(bits), IntValue(w)) =>
      b == w && WholeBytes(bits) && 0 - Base(bits / 8) <= 2 * Signed(w) < Base(bits / 8)
    case (Bool, BoolValue(flag)) => |b| == 32 && Number(b) == if flag then 1 else 0
    case (Address, AddressValue(w)) => b == w
    case (Bytestring, BytesValue(x)) => Counted(|x|, b) && b[4..] == x
    case (String, StringValue(x)) => Counted(|x|, b) && b[4..] == x
    case (Array(elem), ArrayValue(vs)) => Counted(|vs|, b) && SpellsAll(Repeat(elem, |vs|), vs, b[4..])
    case (FixedArray(elem, len), FixedArrayValue(vs)) => |vs| == len && SpellsAll(Repeat(elem, len), vs, b)
    case (Tuple(elems), TupleValue(vs)) => SpellsAll(elems, vs, b)
    case _ => false
  }

  /** Item `k`: a static one stands in the head; a dynamic one has four bytes there that spell where it starts, and
      it ends where the next one starts. */
  ghost predicate LaidAt(ts: seq<AbiType>, vs: seq<AbiValue>, data: Bytes, cuts: seq<nat>, k: nat)
    requires k < |ts| == |vs| && |cuts| == |ts| + 1
    decreases MaxHeight(ts), 1, 0
  {
    var at := HeadLen(ts, k);
    HeightOfMember(ts, k);
    if IsDynamic(ts[k]) then
      && at + 4 <= |data| && cuts[k] <= cuts[k + 1] <= |data| && Number(data[at..at + 4]) == cuts[k]
      && Spells(ts[k], vs[k], data[cuts[k]..cuts[k + 1]])
    else
      && cuts[k + 1] == cuts[k] && at + HeadSize(ts[k]) <= |data|
      && Spells(ts[k], vs[k], data[at..at + HeadSize(ts[k])])
  }

  /** Heads first, then the dynamic items one after the other up to the end. */
  ghost predicate LaidOut(ts: seq<AbiType>, vs: seq<AbiValue>, data: Bytes, cuts: seq<nat>)
    requires |ts| == |vs|
    decreases MaxHeight(ts), 2, 0
  {
    && |cuts| == |ts| + 1 && cuts[0] == HeadLen(ts, |ts|) && cuts[|ts|] == |data|
    && forall k :: 0 <= k < |ts| ==> LaidAt(ts, vs, data, cuts, k)
  }

  ghost predicate SpellsAll(ts: seq<AbiType>, vs: seq<AbiValue>, data: Bytes)
    decreases MaxHeight(ts), 3, 0
  {
    |ts| == |vs| && exists cuts :: LaidOut(ts, vs, data, cuts)
  }

  // ---------------------------------------------------------------- numbers

  lemma {:induction false} NumberInjective(a: Bytes, b: Bytes)
    requires |a| == |b| && Number(a) == Number(b)
    ensures a == b
  {
    if a != [] {
      var n := |a| - 1;
      NumberInjective(a[..n], b[..n]);
      assert a == a[..n] + [a[n]] && b == b[..n] + [b[n]];
    }
  }

  lemma {:induction false} NumberOfTwo(b: Bytes)
    requires |b| == 2
    ensures Number(b) == 256 * (b[0] as int) + b[1]
  {
    assert b[..1] == [b[0]] && [b[0]][..0] == [];
    assert Number([b[0]]) == b[0];
  }

  /** Counts and offsets are big-endian. */
  lemma NumberOfU32(n: nat)
    requires n <= U32_MAX
    ensures Number(U32Bytes(n)) == n
  {
    var high, low := U16Bytes(n / 0x1_0000), U16Bytes(n % 0x1_0000);
    NumberOfTwo(high);
    NumberOfTwo(low);
    NumberSplit(high, low);
    assert Base(0) == 1 && Base(1) == 256 && Base(2) == 65536;
    hide Number, Base, U16Bytes;
  }

  lemma {:induction false} SpellsU32(b: Bytes, n: nat)
    requires |b| == 4
    ensures Number(b) == n <==> n <= U32_MAX && b == U32Bytes(n)
  {
    NumberBound(b);
    assert Base(0) == 1 && Base(1) == 256 && Base(2) == 65536 && Base(4) == 65536 * Base(2);
    hide Number, Base, U32Bytes;
    if n <= U32_MAX {
      NumberOfU32(n);
      if Number(b) == n { NumberInjective(b, U32Bytes(n)); }
    }
  }

  lemma {:induction false} ZeroNumber(b: Bytes)
    requires forall i :: 0 <= i < |b| ==> b[i] == 0
    ensures Number(b) == 0
  {
    NumberExtremes(b);
  }

  lemma {:induction false} SpellsFlag(b: Bytes, flag: bool)
    ensures |b| == 32 && Number(b) == (if flag then 1 else 0) <==> b == BoolWord(flag)
  {
    var zeros: Bytes, last: Bytes := seq(31, _ => 0), [if flag then 1 else 0];
    ZeroNumber(zeros);
    NumberSplit(zeros, last);
    assert last[..0] == [] && Number(last) == last[0];
    assert Number(BoolWord(flag)) == if flag then 1 else 0;
    hide Number;
    if |b| == 32 && Number(b) == Number(BoolWord(flag)) { NumberInjective(b, BoolWord(flag)); }
  }

  // ---------------------------------------------------------------- the encoder lays out

  /** The encoding of an item, in the head or in the tail. */
  function Encoded(t: AbiType, v: AbiValue): Result<Bytes, AbiError> {
    if IsDynamic(t) then EncodeBody(t, v) else EncodeStatic(t, v)
  }

  /** What is to be shown of each item. */
  ghost predicate Faithful(t: AbiType, v: AbiValue) { forall b :: Encoded(t, v) == Ok(b) <==> Spells(t, v, b) }

  ghost predicate AllFaithful(ts: seq<AbiType>, vs: seq<AbiValue>)
    requires |ts| == |vs|
  {
    forall k :: 0 <= k < |ts| ==> Faithful(ts[k], vs[k])
  }

  /** Where item `k` starts: after the heads and the dynamic items before it. */
  function Start(ts: seq<AbiType>, vs: seq<AbiValue>, k: nat): nat
    requires k <= |ts| == |vs|
  {
    var parts := EncodePrefix(ts, vs, k);
    HeadLen(ts, |ts|) + if parts.Ok? then |parts.value.tail| else 0
  }

  lemma {:induction false} DynamicLaid(ts: seq<AbiType>, vs: seq<AbiValue>, k: nat, parts: Parts, before: Parts,
                                       now: Parts, body: Bytes)
    requires k < |ts| == |vs| && IsDynamic(ts[k])
    requires |before.head| == HeadLen(ts, k) && |parts.head| == HeadLen(ts, |ts|)
    requires now.head <= parts.head && now.tail <= parts.tail && |parts.head| + |before.tail| <= U32_MAX
    requires now == Parts(before.head + U32Bytes(|parts.head| + |before.tail|), before.tail + body)
    ensures var data, at, start := parts.head + parts.tail, HeadLen(ts, k), |parts.head| + |before.tail|;
            && at + 4 <= |data| && start + |body| <= |data| && Number(data[at..at + 4]) == start
            && data[start..start + |body|] == body
  {
    hide U32Bytes, HeadLen, Number, IsDynamic;
    var data, start := parts.head + parts.tail, |parts.head| + |before.tail|;
    DynamicSlices(parts, [], before, now, body);
    NumberOfU32(start);
    assert data + [] == data;
    assert data[start..] == body + (parts.tail[|now.tail|..] + []);
  }

  lemma {:induction false} EncodedStep(ts: seq<AbiType>, vs: seq<AbiValue>, k: nat)
    requires k < |ts| == |vs| && EncodePrefix(ts, vs, k + 1).Ok?
    ensures EncodePrefix(ts, vs, k).Ok? && Encoded(ts[k], vs[k]).Ok?
    ensures var before, now, b := EncodePrefix(ts, vs, k).value, EncodePrefix(ts, vs, k + 1).value,
                                  Encoded(ts[k], vs[k]).value;
            if IsDynamic(ts[k])
            then HeadLen(ts, |ts|) + |before.tail| <= U32_MAX &&
                 now == Parts(before.head + U32Bytes(HeadLen(ts, |ts|) + |before.tail|), before.tail + b)
            else now == Parts(before.head + b, before.tail)
  {
    hide EncodeBody, EncodeStatic, U32Bytes, IsDynamic;
  }

  /** A dynamic item placed by its start and end, a static one by its head. */
  lemma LaidDynamic(ts: seq<AbiType>, vs: seq<AbiValue>, data: Bytes, cuts: seq<nat>, k: nat, b: Bytes)
    requires k < |ts| == |vs| && |cuts| == |ts| + 1 && IsDynamic(ts[k]) && Spells(ts[k], vs[k], b)
    requires HeadLen(ts, k) + 4 <= |data| && Number(data[HeadLen(ts, k)..HeadLen(ts, k) + 4]) == cuts[k]
    requires cuts[k + 1] == cuts[k] + |b| <= |data| && data[cuts[k]..cuts[k + 1]] == b
    ensures LaidAt(ts, vs, data, cuts, k)
  {
    hide Spells, HeadLen, Number, IsDynamic;
  }

  lemma LaidStatic(ts: seq<AbiType>, vs: seq<AbiValue>, data: Bytes, cuts: seq<nat>, k: nat, b: Bytes)
    requires k < |ts| == |vs| && |cuts| == |ts| + 1 && !IsDynamic(ts[k]) && Spells(ts[k], vs[k], b)
    requires cuts[k + 1] == cuts[k] && HeadLen(ts, k) + HeadSize(ts[k]) <= |data|
    requires data[HeadLen(ts, k)..HeadLen(ts, k) + HeadSize(ts[k])] == b
    ensures LaidAt(ts, vs, data, cuts, k)
  {
    hide Spells, HeadLen, HeadSize, IsDynamic;
  }

  /** Item `k` of an encoding stands where the layout says. */
  lemma {:induction false} ItemLaid(ts: seq<AbiType>, vs: seq<AbiValue>, parts: Parts, cuts: seq<nat>, k: nat)
    requires k < |ts| == |vs| && EncodePrefix(ts, vs, |ts|) == Ok(parts) && Faithful(ts[k], vs[k])
    requires |cuts| == |ts| + 1 && cuts[k] == Start(ts, vs, k) && cuts[k + 1] == Start(ts, vs, k + 1)
    ensures LaidAt(ts, vs, parts.head + parts.tail, cuts, k)
  {
    hide EncodePrefix, EncodeBody, EncodeStatic, HeadLen, Spells, U32Bytes, Number, HeadSize, LaidAt, IsDynamic;
    PrefixExtends(ts, vs, k + 1, |ts|);
    PrefixLen(ts, vs, |ts|);
    EncodedStep(ts, vs, k);
    PrefixLen(ts, vs, k);
    var before, now, b := EncodePrefix(ts, vs, k).value, EncodePrefix(ts, vs, k + 1).value,
                          Encoded(ts[k], vs[k]).value;
    var data := parts.head + parts.tail;
    assert Spells(ts[k], vs[k], b);
    if IsDynamic(ts[k]) {
      DynamicLaid(ts, vs, k, parts, before, now, b);
      LaidDynamic(ts, vs, data, cuts, k, b);
    } else {
      StaticLen(ts[k], vs[k]);
      StaticSlices(parts, [], before, now, b);
      assert data + [] == data && |now.head| <= |parts.head|;
      LaidStatic(ts, vs, data, cuts, k, b);
    }
  }

  lemma {:induction false} TupleLaid(ts: seq<AbiType>, vs: seq<AbiValue>, parts: Parts)
    requires |ts| == |vs| && AllFaithful(ts, vs) && EncodePrefix(ts, vs, |ts|) == Ok(parts)
    ensures SpellsAll(ts, vs, parts.head + parts.tail)
  {
    hide LaidAt, Faithful;
    var n := |ts|;
    var cuts := seq(n + 1, k requires 0 <= k <= n => Start(ts, vs, k));
    PrefixLen(ts, vs, n);
    assert Start(ts, vs, 0) == HeadLen(ts, n);
    hide EncodePrefix, HeadLen;
    forall k | 0 <= k < n ensures LaidAt(ts, vs, parts.head + parts.tail, cuts, k) {
      ItemLaid(ts, vs, parts, cuts, k);
    }
    assert LaidOut(ts, vs, parts.head + parts.tail, cuts);
  }

  // ---------------------------------------------------------------- what is laid out is the encoding

  /** Up to item `k` head and tail are those of the encoder. */
  ghost predicate ReadUpTo(ts: seq<AbiType>, vs: seq<AbiValue>, data: Bytes, cuts: seq<nat>, k: nat)
    requires k <= |ts| == |vs| && |cuts| == |ts| + 1
  {
    var parts, h := EncodePrefix(ts, vs, k), HeadLen(ts, |ts|);
    && parts.Ok? && HeadLen(ts, k) <= h <= cuts[k] <= |data|
    && parts.value.head == data[..HeadLen(ts, k)] && parts.value.tail == data[h..cuts[k]]
  }

  lemma Joined(data: Bytes, a: nat, b: nat, c: nat)
    requires a <= b <= c <= |data|
    ensures data[a..b] + data[b..c] == data[a..c]
  {
  }

  /** What the layout says of a dynamic item, in the encoder's terms. */
  lemma {:induction false} DynamicFound(ts: seq<AbiType>, vs: seq<AbiValue>, data: Bytes, cuts: seq<nat>, k: nat)
    requires k < |ts| == |vs| && |cuts| == |ts| + 1 && IsDynamic(ts[k]) && Faithful(ts[k], vs[k])
    requires LaidAt(ts, vs, data, cuts, k)
    ensures HeadLen(ts, k + 1) == HeadLen(ts, k) + 4 <= |data|
    ensures cuts[k] <= cuts[k + 1] <= |data| && cuts[k] <= U32_MAX
    ensures data[HeadLen(ts, k)..HeadLen(ts, k) + 4] == U32Bytes(cuts[k])
    ensures EncodeBody(ts[k], vs[k]) == Ok(data[cuts[k]..cuts[k + 1]])
  {
    var at := HeadLen(ts, k);
    assert HeadLen(ts, k + 1) == at + 4;
    hide Spells, HeadLen, U32Bytes, Number, EncodeBody, EncodeStatic;
    SpellsU32(data[at..at + 4], cuts[k]);
    assert Encoded(ts[k], vs[k]) == Ok(data[cuts[k]..cuts[k + 1]]);
  }

  lemma {:induction false} DynamicRead(ts: seq<AbiType>, vs: seq<AbiValue>, data: Bytes, cuts: seq<nat>, k: nat)
    requires k < |ts| == |vs| && |cuts| == |ts| + 1 && IsDynamic(ts[k]) && Faithful(ts[k], vs[k])
    requires LaidAt(ts, vs, data, cuts, k) && ReadUpTo(ts, vs, data, cuts, k)
    ensures ReadUpTo(ts, vs, data, cuts, k + 1)
  {
    hide HeadLen, EncodePrefix, U32Bytes, EncodeBody, LaidAt, Faithful, IsDynamic;
    HeadLenMono(ts, k + 1, |ts|);
    DynamicFound(ts, vs, data, cuts, k);
    var h, at := HeadLen(ts, |ts|), HeadLen(ts, k);
    var before, body := EncodePrefix(ts, vs, k).value, data[cuts[k]..cuts[k + 1]];
    assert |before.tail| == cuts[k] - h;
    DynamicNext(ts, vs, k + 1, body, before);
    Joined(data, 0, at, at + 4);
    Joined(data, h, cuts[k], cuts[k + 1]);
  }

  lemma {:induction false} StaticFound(ts: seq<AbiType>, vs: seq<AbiValue>, data: Bytes, cuts: seq<nat>, k: nat)
    requires k < |ts| == |vs| && |cuts| == |ts| + 1 && !IsDynamic(ts[k]) && Faithful(ts[k], vs[k])
    requires LaidAt(ts, vs, data, cuts, k)
    ensures HeadLen(ts, k + 1) == HeadLen(ts, k) + HeadSize(ts[k]) <= |data| && cuts[k + 1] == cuts[k]
    ensures EncodeStatic(ts[k], vs[k]) == Ok(data[HeadLen(ts, k)..HeadLen(ts, k + 1)])
  {
    assert HeadLen(ts, k + 1) == HeadLen(ts, k) + HeadSize(ts[k]);
    hide Spells, HeadLen, HeadSize, EncodeBody, EncodeStatic;
    assert Encoded(ts[k], vs[k]) == Ok(data[HeadLen(ts, k)..HeadLen(ts, k + 1)]);
  }

  lemma {:induction false} StaticRead(ts: seq<AbiType>, vs: seq<AbiValue>, data: Bytes, cuts: seq<nat>, k: nat)
    requires k < |ts| == |vs| && |cuts| == |ts| + 1 && !IsDynamic(ts[k]) && Faithful(ts[k], vs[k])
    requires LaidAt(ts, vs, data, cuts, k) && ReadUpTo(ts, vs, data, cuts, k)
    ensures ReadUpTo(ts, vs, data, cuts, k + 1)
  {
    hide HeadLen, HeadSize, EncodePrefix, EncodeStatic, LaidAt, Faithful, IsDynamic;
    HeadLenMono(ts, k + 1, |ts|);
    StaticFound(ts, vs, data, cuts, k);
    var at, end := HeadLen(ts, k), HeadLen(ts, k + 1);
    StaticNext(ts, vs, k + 1, data[at..end], EncodePrefix(ts, vs, k).value);
    Joined(data, 0, at, end);
  }

  lemma {:induction false} PrefixRead(ts: seq<AbiType>, vs: seq<AbiValue>, data: Bytes, cuts: seq<nat>, k: nat)
    requires k <= |ts| == |vs| && AllFaithful(ts, vs) && LaidOut(ts, vs, data, cuts)
    requires HeadLen(ts, |ts|) <= |data|
    ensures ReadUpTo(ts, vs, data, cuts, k)
    decreases k
  {
    hide Faithful, LaidAt;
    if k == 0 {
      HeadLenMono(ts, 0, |ts|);
      assert data[..0] == [] && data[cuts[0]..cuts[0]] == [];
    } else {
      hide ReadUpTo;
      PrefixRead(ts, vs, data, cuts, k - 1);
      if IsDynamic(ts[k - 1]) {
        DynamicRead(ts, vs, data, cuts, k - 1);
      } else {
        StaticRead(ts, vs, data, cuts, k - 1);
      }
    }
  }

  /** The cuts only go forward, so the heads fit. */
  lemma {:induction false} CutsRise(ts: seq<AbiType>, vs: seq<AbiValue>, data: Bytes, cuts: seq<nat>, k: nat)
    requires k <= |ts| == |vs| && LaidOut(ts, vs, data, cuts)
    ensures cuts[0] <= cuts[k]
    decreases k
  {
    hide Spells, HeadLen;
    if k > 0 {
      CutsRise(ts, vs, data, cuts, k - 1);
      assert LaidAt(ts, vs, data, cuts, k - 1);
    }
  }

  lemma {:induction false} TupleRead(ts: seq<AbiType>, vs: seq<AbiValue>, data: Bytes)
    requires |ts| == |vs| && AllFaithful(ts, vs) && SpellsAll(ts, vs, data)
    ensures EncodeTuple(ts, vs) == Ok(data)
  {
    hide LaidAt, Faithful, HeadLen, EncodePrefix;
    var cuts :| LaidOut(ts, vs, data, cuts);
    CutsRise(ts, vs, data, cuts, |ts|);
    PrefixRead(ts, vs, data, cuts, |ts|);
    var h := HeadLen(ts, |ts|);
    assert data[..h] + data[h..|data|] == data;
  }

  // ---------------------------------------------------------------- both ways

  lemma CountedIs(n: nat, b: Bytes, x: Bytes)
    ensures Counted(n, b) && b[4..] == x <==> n <= U32_MAX && b == U32Bytes(n) + x
  {
    hide Number, U32Bytes;
    if |b| >= 4 {
      SpellsU32(b[..4], n);
      assert b == b[..4] + b[4..];
    }
    if n <= U32_MAX {
      assert (U32Bytes(n) + x)[..4] == U32Bytes(n) && (U32Bytes(n) + x)[4..] == x;
    }
  }

  lemma {:induction false} WordFaithful(t: AbiType, v: AbiValue)
    requires t.Uint? || t.Int? || t.Bool? || t.Address? || t.Bytestring? || t.String?
    ensures Faithful(t, v)
  {
    hide Number, Base, Signed, CheckUint, CheckInt, BoolWord, U32Bytes;
    forall b ensures Encoded(t, v) == Ok(b) <==> Spells(t, v, b) {
      match (t, v)
      case (Uint(bits), UintValue(w)) => UintRange(w, bits);
      case (Int(bits), IntValue(w)) => IntRange(w, bits);
      case (Bool, BoolValue(flag)) => SpellsFlag(b, flag);
      case (Bytestring, BytesValue(x)) => CountedIs(|x|, b, x);
      case (String, StringValue(x)) => CountedIs(|x|, b, x);
      case _ =>
    }
  }

  lemma {:induction false} ArrayFaithful(elem: AbiType, vs: seq<AbiValue>, b: Bytes)
    requires forall body :: EncodeTuple(Repeat(elem, |vs|), vs) == Ok(body) <==> SpellsAll(Repeat(elem, |vs|), vs, body)
    ensures Encoded(Array(elem), ArrayValue(vs)) == Ok(b) <==> Spells(Array(elem), ArrayValue(vs), b)
  {
    hide EncodeTuple, SpellsAll, Repeat, U32Bytes, Number;
    var r := EncodeTuple(Repeat(elem, |vs|), vs);
    if r.Ok? {
      CountedIs(|vs|, b, r.value);
      assert forall body :: SpellsAll(Repeat(elem, |vs|), vs, body) <==> body == r.value;
    } else {
      assert forall body :: !SpellsAll(Repeat(elem, |vs|), vs, body);
    }
  }

  /** The encoder and the layout agree on a list of items. */
  ghost predicate ListFaithful(ts: seq<AbiType>, vs: seq<AbiValue>) {
    forall body :: EncodeTuple(ts, vs) == Ok(body) <==> SpellsAll(ts, vs, body)
  }

  lemma {:induction false} GroupFaithful(t: AbiType, v: AbiValue)
    requires t.FixedArray? && v.FixedArrayValue? ==> ListFaithful(Repeat(t.elem, t.len), v.items)
    requires t.Tuple? && v.TupleValue? ==> ListFaithful(t.elems, v.items)
    requires (t.FixedArray? && v.FixedArrayValue?) || (t.Tuple? && v.TupleValue?)
    ensures Faithful(t, v)
  {
    hide EncodeTuple, SpellsAll, Repeat, IsDynamic;
    forall b ensures Encoded(t, v) == Ok(b) <==> Spells(t, v, b) { }
  }

  lemma {:induction false} ItemFaithful(t: AbiType, v: AbiValue)
    ensures Faithful(t, v)
    decreases Height(t), 0, 0
  {
    hide Faithful, ListFaithful;
    match (t, v)
    case (Array(elem), ArrayValue(vs)) =>
      ListExact(Repeat(elem, |vs|), vs);
      ArraysFaithful(elem, vs);
    case (FixedArray(elem, len), FixedArrayValue(vs)) =>
      ListExact(Repeat(elem, len), vs);
      GroupFaithful(t, v);
    case (Tuple(elems), TupleValue(vs)) =>
      ListExact(elems, vs);
      GroupFaithful(t, v);
    case _ =>
      if t.Array? || t.FixedArray? || t.Tuple? { Mismatch(t, v); } else { WordFaithful(t, v); }
  }

  lemma {:induction false} ArraysFaithful(elem: AbiType, vs: seq<AbiValue>)
    requires ListFaithful(Repeat(elem, |vs|), vs)
    ensures Faithful(Array(elem), ArrayValue(vs))
  {
    hide EncodeTuple, SpellsAll, Repeat, Encoded, Spells;
    forall b ensures Encoded(Array(elem), ArrayValue(vs)) == Ok(b) <==> Spells(Array(elem), ArrayValue(vs), b) {
      ArrayFaithful(elem, vs, b);
    }
  }

  lemma {:induction false} ListExact(ts: seq<AbiType>, vs: seq<AbiValue>)
    ensures ListFaithful(ts, vs)
    decreases MaxHeight(ts), 2, 0
  {
    hide EncodeTuple, SpellsAll;
    forall body ensures EncodeTuple(ts, vs) == Ok(body) <==> SpellsAll(ts, vs, body) { LayoutExact(ts, vs, body); }
  }

  lemma Mismatch(t: AbiType, v: AbiValue)
    requires (t.Array? && !v.ArrayValue?) || (t.FixedArray? && !v.FixedArrayValue?) || (t.Tuple? && !v.TupleValue?)
    ensures Faithful(t, v)
  {
  }

  /** Arguments encode to given bytes exactly when the bytes are laid out as their layout. */
  lemma {:induction false} LayoutExact(ts: seq<AbiType>, vs: seq<AbiValue>, data: Bytes)
    ensures EncodeTuple(ts, vs) == Ok(data) <==> SpellsAll(ts, vs, data)
    decreases MaxHeight(ts), 1, 0
  {
    if |ts| == |vs| {
      forall k | 0 <= k < |ts| ensures Faithful(ts[k], vs[k]) {
        HeightOfMember(ts, k);
        ItemFaithful(ts[k], vs[k]);
      }
      hide Faithful, SpellsAll, EncodePrefix;
      if EncodeTuple(ts, vs) == Ok(data) { TupleLaid(ts, vs, EncodePrefix(ts, vs, |ts|).value); }
      if SpellsAll(ts, vs, data) { TupleRead(ts, vs, data); }
    }
  }

  /** Calldata decodes to arguments exactly when it is their layout and their arrays fit the allocation guard. */
  lemma {:induction false} DecodesLayout(ts: seq<AbiType>, vs: seq<AbiValue>, data: Bytes)
    ensures DecodeArgs(ts, data) == Ok(vs) <==> SpellsAll(ts, vs, data) && FitsTuple(ts, vs, 0)
  {
    LayoutExact(ts, vs, data);
    hide EncodeTuple, DecodeArgs, SpellsAll, FitsTuple;
    if DecodeArgs(ts, data) == Ok(vs) { EncodeOfDecode(ts, data); }
    if EncodeArgs(ts, vs).Ok? { DecodeOfEncode(ts, vs); }
  }
}
