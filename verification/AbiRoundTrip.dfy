/** The codec is a bijection between the values that fit and the byte strings that decode. */
module AbiRoundTrip {
  import opened Types
  import opened Abi

  // ---------------------------------------------------------------- lengths

  lemma {:induction false} HeadLenOfPrefix(ts: seq<AbiType>, n: nat, k: nat)
    requires k <= n <= |ts|
    ensures HeadLen(ts[..n], k) == HeadLen(ts, k)
    decreases k
  {
    if k > 0 { HeadLenOfPrefix(ts, n, k - 1); }
  }

  lemma {:induction false} HeadLenOfRepeat(t: AbiType, n: nat, k: nat)
    requires k <= n
    ensures HeadLen(Repeat(t, n), k) == k * HeadSize(t)
    decreases k
  {
    hide HeadSize, Repeat;
    if k > 0 {
      HeadLenOfRepeat(t, n, k - 1);
      OneMore(k, HeadSize(t));
    }
  }

  lemma OneMore(k: nat, size: nat)
    requires k > 0
    ensures k * size == (k - 1) * size + size
  {
  }

  predicate AllStatic(ts: seq<AbiType>, k: nat)
    requires k <= |ts|
  {
    forall i :: 0 <= i < k ==> !IsDynamic(ts[i])
  }

  lemma {:induction false} StaticHeadLen(ts: seq<AbiType>)
    requires AllStatic(ts, |ts|)
    ensures StaticSizes(ts) == Some(HeadLen(ts, |ts|))
  {
    if ts != [] {
      var n := |ts| - 1;
      StaticHeadLen(ts[..n]);
      SizedIffStatic(ts[n]);
      HeadLenOfPrefix(ts, n, n);
    }
  }

  lemma {:induction false} FixedArrayHead(elem: AbiType, len: nat)
    requires !IsDynamic(FixedArray(elem, len))
    ensures AllStatic(Repeat(elem, len), len)
    ensures HeadSize(FixedArray(elem, len)) == HeadLen(Repeat(elem, len), len)
  {
    hide Repeat, HeadLen;
    SizedIffStatic(elem);
    HeadLenOfRepeat(elem, len, len);
  }

  lemma {:induction false} TupleHead(elems: seq<AbiType>)
    requires !IsDynamic(Tuple(elems))
    ensures AllStatic(elems, |elems|)
    ensures HeadSize(Tuple(elems)) == HeadLen(elems, |elems|)
  {
    hide HeadLen;
    StaticHeadLen(elems);
  }

  /** A static type's encoding has exactly its declared size. */
  lemma {:induction false} StaticLen(t: AbiType, v: AbiValue)
    requires !IsDynamic(t) && EncodeStatic(t, v).Ok?
    ensures |EncodeStatic(t, v).value| == HeadSize(t)
    decreases Height(t), 0, 0
  {
    match (t, v)
    case (FixedArray(elem, len), FixedArrayValue(vs)) =>
      hide Repeat, HeadLen, EncodePrefix, HeadSize, IsDynamic;
      FixedArrayHead(elem, len);
      PrefixLen(Repeat(elem, len), vs, len);
    case (Tuple(elems), TupleValue(vs)) =>
      hide HeadLen, EncodePrefix, HeadSize, IsDynamic;
      TupleHead(elems);
      PrefixLen(elems, vs, |elems|);
    case _ =>
  }

  /** Heads grow by the declared sizes; static items leave the tail empty. */
  lemma {:induction false} PrefixLen(ts: seq<AbiType>, vs: seq<AbiValue>, k: nat)
    requires k <= |ts| && k <= |vs| && EncodePrefix(ts, vs, k).Ok?
    ensures |EncodePrefix(ts, vs, k).value.head| == HeadLen(ts, k)
    ensures AllStatic(ts, k) ==> EncodePrefix(ts, vs, k).value.tail == []
    decreases MaxHeight(ts), 1, k
  {
    if k > 0 {
      PrefixLen(ts, vs, k - 1);
      HeightOfMember(ts, k - 1);
      if !IsDynamic(ts[k - 1]) { StaticLen(ts[k - 1], vs[k - 1]); }
    }
  }

  /** Heads and tails of longer prefixes extend those of shorter ones. */
  lemma {:induction false} PrefixExtends(ts: seq<AbiType>, vs: seq<AbiValue>, j: nat, k: nat)
    requires j <= k <= |ts| && k <= |vs| && EncodePrefix(ts, vs, k).Ok?
    ensures EncodePrefix(ts, vs, j).Ok?
    ensures EncodePrefix(ts, vs, j).value.head <= EncodePrefix(ts, vs, k).value.head
    ensures EncodePrefix(ts, vs, j).value.tail <= EncodePrefix(ts, vs, k).value.tail
    decreases k
  {
    hide EncodeBody, EncodeStatic;
    if j < k { PrefixExtends(ts, vs, j, k - 1); }
  }

  // ---------------------------------------------------------------- what fits

  /** Every array in the value has at most as many items as bytes follow its start, its own and
      `room` more. This is the decoder's allocation guard, and matters only for items of no size. */
  predicate FitsBody(t: AbiType, v: AbiValue, room: nat)
    decreases Height(t), 0, 0
  {
    match (t, v)
    case (Array(elem), ArrayValue(vs)) =>
      var body := EncodeTuple(Repeat(elem, |vs|), vs);
      body.Ok? ==> |vs| <= 4 + |body.value| + room && FitsTuple(Repeat(elem, |vs|), vs, room)
    case (FixedArray(elem, len), FixedArrayValue(vs)) => FitsTuple(Repeat(elem, len), vs, room)
    case (Tuple(elems), TupleValue(vs)) => FitsTuple(elems, vs, room)
    case _ => true
  }

  predicate FitsPrefix(ts: seq<AbiType>, vs: seq<AbiValue>, after: nat, k: nat)
    requires k <= |ts| && k <= |vs|
    decreases MaxHeight(ts), 1, k
  {
    k == 0 ||
    (&& FitsPrefix(ts, vs, after, k - 1)
     && (IsDynamic(ts[k - 1]) ==>
           var parts := EncodePrefix(ts, vs, k);
           HeightOfMember(ts, k - 1);
           parts.Ok? && |parts.value.tail| <= after ==> FitsBody(ts[k - 1], vs[k - 1], after - |parts.value.tail|)))
  }

  /** The tuple's arrays fit when `room` more bytes follow the tuple. */
  predicate FitsTuple(ts: seq<AbiType>, vs: seq<AbiValue>, room: nat)
    decreases MaxHeight(ts), 2, 0
  {
    |ts| == |vs| ==>
      var parts := EncodePrefix(ts, vs, |ts|);
      parts.Ok? ==> FitsPrefix(ts, vs, |parts.value.tail| + room, |ts|)
  }

  lemma {:induction false} StaticFits(ts: seq<AbiType>, vs: seq<AbiValue>, after: nat, k: nat)
    requires k <= |ts| && k <= |vs| && AllStatic(ts, k)
    ensures FitsPrefix(ts, vs, after, k)
  {
    if k > 0 { StaticFits(ts, vs, after, k - 1); }
  }

  // ---------------------------------------------------------------- decoding an encoding

  lemma {:induction false} WordRoundTrip(t: AbiType, v: AbiValue)
    requires t.Uint? || t.Int? || t.Bool? || t.Address?
    requires EncodeStatic(t, v).Ok?
    ensures DecodeStatic(t, EncodeStatic(t, v).value) == Ok(Item(v, 32))
  {
    var b := EncodeStatic(t, v).value;
    assert b[..32] == b;
    if t.Int? {
      assert SignExtend(b, t.bits) == b;
    }
  }

  lemma {:induction false} StaticRoundTrip(t: AbiType, v: AbiValue)
    requires !IsDynamic(t) && EncodeStatic(t, v).Ok?
    ensures DecodeStatic(t, EncodeStatic(t, v).value) == Ok(Item(v, HeadSize(t)))
    decreases Height(t), 0, 0
  {
    hide DecodeTuple;
    StaticLen(t, v);
    var b := EncodeStatic(t, v).value;
    assert b + [] == b;
    match (t, v)
    case (FixedArray(elem, len), FixedArrayValue(vs)) =>
      TupleRoundTrip(Repeat(elem, len), vs, []);
      StaticFits(Repeat(elem, len), vs, |EncodePrefix(Repeat(elem, len), vs, len).value.tail|, len);
    case (Tuple(elems), TupleValue(vs)) =>
      TupleRoundTrip(elems, vs, []);
      StaticFits(elems, vs, |EncodePrefix(elems, vs, |elems|).value.tail|, |elems|);
    case _ =>
      WordRoundTrip(t, v);
  }

  lemma PrefixedRoundTrip(b: Bytes, rest: Bytes)
    requires LengthPrefixed(b).Ok?
    ensures DecodeBytes(LengthPrefixed(b).value + rest) == Ok(b)
  {
    var data := LengthPrefixed(b).value + rest;
    assert data[0..4] == U32Bytes(|b|) && data[4..4 + |b|] == b;
    BigEndianOf(|b|);
  }

  lemma {:induction false} BodyRoundTrip(t: AbiType, v: AbiValue, rest: Bytes)
    requires IsDynamic(t) && EncodeBody(t, v).Ok?
    ensures DecodeBody(t, EncodeBody(t, v).value + rest).Ok? <==> FitsBody(t, v, |rest|)
    ensures FitsBody(t, v, |rest|) ==>
              DecodeBody(t, EncodeBody(t, v).value + rest) == Ok(Item(v, |EncodeBody(t, v).value|))
    decreases Height(t), 0, 0
  {
    hide EncodeTuple, DecodeTuple, FitsTuple, Repeat, BigEndian, U32Bytes;
    match (t, v)
    case (Bytestring, BytesValue(b)) => PrefixedRoundTrip(b, rest);
    case (String, StringValue(s)) => PrefixedRoundTrip(s, rest);
    case (Array(elem), ArrayValue(vs)) =>
      var ts := Repeat(elem, |vs|);
      var body := EncodeTuple(ts, vs).value;
      var data := U32Bytes(|vs|) + body + rest;
      assert data[0..4] == U32Bytes(|vs|) && data[4..] == body + rest;
      BigEndianOf(|vs|);
      TupleRoundTrip(ts, vs, rest);
    case (FixedArray(elem, len), FixedArrayValue(vs)) => TupleRoundTrip(Repeat(elem, len), vs, rest);
    case (Tuple(elems), TupleValue(vs)) => TupleRoundTrip(elems, vs, rest);
  }

  /** A tuple's encoding followed by any bytes decodes to the same values and takes exactly its own
      length, if and only if its arrays fit. */
  lemma {:induction false} TupleRoundTrip(ts: seq<AbiType>, vs: seq<AbiValue>, rest: Bytes)
    requires EncodeTuple(ts, vs).Ok?
    ensures DecodeTuple(ts, EncodeTuple(ts, vs).value + rest).Ok? <==> FitsTuple(ts, vs, |rest|)
    ensures FitsTuple(ts, vs, |rest|) ==>
              DecodeTuple(ts, EncodeTuple(ts, vs).value + rest) == Ok(Items(vs, |EncodeTuple(ts, vs).value|))
    decreases MaxHeight(ts), 2, 0
  {
    hide EncodePrefix, DecodePrefix, FitsPrefix;
    var parts := EncodePrefix(ts, vs, |ts|).value;
    PrefixLen(ts, vs, |ts|);
    PrefixRoundTrip(ts, vs, |ts|, parts, rest);
    assert vs[..|ts|] == vs;
  }

  /** Where the decoder stands after `k` items of an encoding followed by `rest`. */
  predicate Follows(ts: seq<AbiType>, vs: seq<AbiValue>, k: nat, parts: Parts, rest: Bytes)
    requires k <= |ts| == |vs| && HeadLen(ts, |ts|) == |parts.head| && EncodePrefix(ts, vs, k).Ok?
  {
    var c := DecodePrefix(ts, parts.head + parts.tail + rest, k);
    && (c.Ok? <==> FitsPrefix(ts, vs, |parts.tail| + |rest|, k))
    && (c.Ok? ==> c.value == Cursor(vs[..k], HeadLen(ts, k),
                                    HeadLen(ts, |ts|) + |EncodePrefix(ts, vs, k).value.tail|))
  }

  lemma DynamicStep(ts: seq<AbiType>, vs: seq<AbiValue>, k: nat, parts: Parts, rest: Bytes)
    requires 0 < k <= |ts| == |vs| && EncodePrefix(ts, vs, |ts|) == Ok(parts) && HeadLen(ts, |ts|) == |parts.head|
    requires EncodePrefix(ts, vs, k).Ok? && IsDynamic(ts[k - 1]) && Follows(ts, vs, k - 1, parts, rest)
    requires |EncodePrefix(ts, vs, k - 1).value.head| == HeadLen(ts, k - 1)
    requires EncodePrefix(ts, vs, k).value.head <= parts.head && EncodePrefix(ts, vs, k).value.tail <= parts.tail
    requires var tail := parts.tail[|EncodePrefix(ts, vs, k).value.tail|..] + rest;
             var t, v := ts[k - 1], vs[k - 1];
             EncodeBody(t, v).Ok? ==>
               var body, item := EncodeBody(t, v).value, DecodeBody(t, EncodeBody(t, v).value + tail);
               (item.Ok? <==> FitsBody(t, v, |tail|)) && (item.Ok? ==> item.value == Item(v, |body|))
    ensures Follows(ts, vs, k, parts, rest)
  {
    hide EncodeBody, DecodeBody, EncodeStatic, DecodeStatic, FitsBody, IsDynamic, BigEndian, U32Bytes;
    var before, now := EncodePrefix(ts, vs, k - 1).value, EncodePrefix(ts, vs, k).value;
    DynamicSlices(parts, rest, before, now, EncodeBody(ts[k - 1], vs[k - 1]).value);
    BigEndianOf(|parts.head| + |before.tail|);
    assert vs[..k] == vs[..k - 1] + [vs[k - 1]];
  }

  lemma StaticStep(ts: seq<AbiType>, vs: seq<AbiValue>, k: nat, parts: Parts, rest: Bytes)
    requires 0 < k <= |ts| == |vs| && EncodePrefix(ts, vs, |ts|) == Ok(parts) && HeadLen(ts, |ts|) == |parts.head|
    requires EncodePrefix(ts, vs, k).Ok? && !IsDynamic(ts[k - 1]) && Follows(ts, vs, k - 1, parts, rest)
    requires |EncodePrefix(ts, vs, k - 1).value.head| == HeadLen(ts, k - 1)
    requires EncodePrefix(ts, vs, k).value.head <= parts.head && EncodePrefix(ts, vs, k).value.tail <= parts.tail
    requires var word := EncodeStatic(ts[k - 1], vs[k - 1]);
             word.Ok? ==> |word.value| == HeadSize(ts[k - 1]) &&
                          DecodeStatic(ts[k - 1], word.value) == Ok(Item(vs[k - 1], HeadSize(ts[k - 1])))
    ensures Follows(ts, vs, k, parts, rest)
  {
    hide EncodeBody, EncodeStatic, DecodeStatic, FitsBody, IsDynamic, HeadSize, DecodePrefix;
    var before, now := EncodePrefix(ts, vs, k - 1).value, EncodePrefix(ts, vs, k).value;
    var word, data := EncodeStatic(ts[k - 1], vs[k - 1]).value, parts.head + parts.tail + rest;
    StaticSlices(parts, rest, before, now, word);
    DecodeStaticNext(ts, data, k);
    assert vs[..k] == vs[..k - 1] + [vs[k - 1]];
  }

  lemma DecodeStaticNext(ts: seq<AbiType>, data: Bytes, k: nat)
    requires 0 < k <= |ts| && HeadLen(ts, |ts|) <= |data| && !IsDynamic(ts[k - 1])
    ensures var c := DecodePrefix(ts, data, k - 1);
            && (c.Err? ==> DecodePrefix(ts, data, k).Err?)
            && (c.Ok? ==>
                  var size := HeadSize(ts[k - 1]);
                  c.value.head + size <= |data| &&
                  var item := DecodeStatic(ts[k - 1], data[c.value.head..c.value.head + size]);
                  item.Ok? ==> DecodePrefix(ts, data, k) ==
                               Ok(Cursor(c.value.values + [item.value.value], c.value.head + size, c.value.tail)))
  {
    hide DecodeBody, DecodeStatic, HeadSize, IsDynamic;
    HeadLenMono(ts, k, |ts|);
  }

  /** The decoder's cursor follows the encoder's head and tail, item by item. */
  lemma {:induction false} PrefixRoundTrip(ts: seq<AbiType>, vs: seq<AbiValue>, k: nat, parts: Parts, rest: Bytes)
    requires k <= |ts| == |vs| && EncodePrefix(ts, vs, |ts|) == Ok(parts)
    ensures HeadLen(ts, |ts|) == |parts.head| && EncodePrefix(ts, vs, k).Ok?
    ensures Follows(ts, vs, k, parts, rest)
    decreases MaxHeight(ts), 1, k
  {
    PrefixLen(ts, vs, |ts|);
    PrefixExtends(ts, vs, k, |ts|);
    if k > 0 {
      hide Follows, EncodeBody, DecodeBody, EncodeStatic, DecodeStatic, FitsBody, IsDynamic, HeadSize;
      PrefixRoundTrip(ts, vs, k - 1, parts, rest);
      HeightOfMember(ts, k - 1);
      PrefixLen(ts, vs, k - 1);
      if IsDynamic(ts[k - 1]) {
        BodyRoundTrip(ts[k - 1], vs[k - 1], parts.tail[|EncodePrefix(ts, vs, k).value.tail|..] + rest);
        DynamicStep(ts, vs, k, parts, rest);
      } else {
        StaticRoundTrip(ts[k - 1], vs[k - 1]);
        StaticLen(ts[k - 1], vs[k - 1]);
        StaticStep(ts, vs, k, parts, rest);
      }
    }
  }

  lemma DynamicSlices(parts: Parts, rest: Bytes, before: Parts, now: Parts, body: Bytes)
    requires now.head <= parts.head && now.tail <= parts.tail
    requires |parts.head| + |before.tail| <= U32_MAX
    requires now == Parts(before.head + U32Bytes(|parts.head| + |before.tail|), before.tail + body)
    ensures var data := parts.head + parts.tail + rest;
            && data[|before.head|..|before.head| + 4] == U32Bytes(|parts.head| + |before.tail|)
            && data[|parts.head| + |before.tail|..] == body + (parts.tail[|now.tail|..] + rest)
  {
    var offset := U32Bytes(|parts.head| + |before.tail|);
    hide U32Bytes;
    var n, m := |before.head|, |before.tail|;
    Piece(parts.head, before.head, offset, parts.tail + rest);
    assert parts.head + (parts.tail + rest) == parts.head + parts.tail + rest;
    DropPast(parts.head, parts.tail + rest, m);
    TailPiece(parts.tail, before.tail, body, rest);
  }

  lemma Piece(whole: Bytes, before: Bytes, piece: Bytes, rest: Bytes)
    requires before + piece <= whole
    ensures (whole + rest)[|before|..|before| + |piece|] == piece
  {
    assert (before + piece)[|before|..] == piece;
  }

  lemma DropPast(a: Bytes, b: Bytes, n: nat)
    requires n <= |b|
    ensures (a + b)[|a| + n..] == b[n..]
  {
  }

  lemma TailPiece(whole: Bytes, before: Bytes, piece: Bytes, rest: Bytes)
    requires before + piece <= whole
    ensures (whole + rest)[|before|..] == piece + (whole[|before + piece|..] + rest)
  {
    assert whole == before + piece + whole[|before + piece|..];
  }

  lemma StaticSlices(parts: Parts, rest: Bytes, before: Parts, now: Parts, word: Bytes)
    requires now.head <= parts.head && now.tail <= parts.tail
    requires now == Parts(before.head + word, before.tail)
    ensures (parts.head + parts.tail + rest)[|before.head|..|before.head| + |word|] == word
  {
    assert parts.head == now.head + parts.head[|now.head|..];
  }

  lemma StaticNext(ts: seq<AbiType>, vs: seq<AbiValue>, k: nat, word: Bytes, before: Parts)
    requires 0 < k <= |ts| && k <= |vs| && !IsDynamic(ts[k - 1])
    requires EncodePrefix(ts, vs, k - 1) == Ok(before) && EncodeStatic(ts[k - 1], vs[k - 1]) == Ok(word)
    ensures EncodePrefix(ts, vs, k) == Ok(Parts(before.head + word, before.tail))
  {
    hide EncodeStatic, EncodeBody, IsDynamic;
  }

  lemma DynamicNext(ts: seq<AbiType>, vs: seq<AbiValue>, k: nat, body: Bytes, before: Parts)
    requires 0 < k <= |ts| && k <= |vs| && IsDynamic(ts[k - 1]) && HeadLen(ts, |ts|) + |before.tail| <= U32_MAX
    requires EncodePrefix(ts, vs, k - 1) == Ok(before) && EncodeBody(ts[k - 1], vs[k - 1]) == Ok(body)
    ensures EncodePrefix(ts, vs, k) ==
            Ok(Parts(before.head + U32Bytes(HeadLen(ts, |ts|) + |before.tail|), before.tail + body))
  {
    hide EncodeStatic, EncodeBody, IsDynamic, U32Bytes;
  }

  // ---------------------------------------------------------------- encoding a decoding

  lemma {:induction false} PrefixLocal(ts: seq<AbiType>, vs: seq<AbiValue>, ws: seq<AbiValue>, k: nat)
    requires k <= |ts| && k <= |vs| && k <= |ws| && vs[..k] == ws[..k]
    ensures EncodePrefix(ts, vs, k) == EncodePrefix(ts, ws, k)
    decreases k
  {
    hide EncodeBody, EncodeStatic, IsDynamic;
    if k > 0 {
      assert vs[..k - 1] == vs[..k][..k - 1] && ws[..k - 1] == ws[..k][..k - 1];
      assert vs[k - 1] == vs[..k][k - 1] == ws[..k][k - 1];
      PrefixLocal(ts, vs, ws, k - 1);
    }
  }

  lemma {:induction false} WordBack(t: AbiType, data: Bytes)
    requires t.Uint? || t.Int? || t.Bool? || t.Address?
    requires DecodeStatic(t, data).Ok?
    ensures var item := DecodeStatic(t, data).value;
            item.consumed == 32 <= |data| && EncodeStatic(t, item.value) == Ok(data[..32])
  {
    var w := data[..32];
    if t.Int? {
      assert SignExtend(w, t.bits) == w;
    }
    if t.Bool? {
      assert BoolWord(w[31] == 1) == w;
    }
  }

  lemma WordSize(t: AbiType)
    requires t.Uint? || t.Int? || t.Bool? || t.Address?
    ensures HeadSize(t) == 32
  {
  }

  /** A decoded static item re-encodes to its bytes and takes exactly its declared size. */
  lemma {:induction false} StaticBack(t: AbiType, data: Bytes)
    requires !IsDynamic(t) && DecodeStatic(t, data).Ok?
    ensures var item := DecodeStatic(t, data).value;
            && item.consumed == HeadSize(t) <= |data|
            && EncodeStatic(t, item.value) == Ok(data[..item.consumed])
    decreases Height(t), 0, 0
  {
    match t
    case FixedArray(elem, len) =>
      hide EncodeTuple, DecodeTuple, Repeat, HeadLen, HeadSize, IsDynamic, AllStatic;
      FixedArrayHead(elem, len);
      TupleBack(Repeat(elem, len), data);
    case Tuple(elems) =>
      hide EncodeTuple, DecodeTuple, HeadLen, HeadSize, IsDynamic, AllStatic;
      TupleHead(elems);
      TupleBack(elems, data);
    case _ =>
      hide EncodeStatic, DecodeStatic;
      WordBack(t, data);
      WordSize(t);
  }

  lemma PrefixedBack(data: Bytes)
    requires DecodeBytes(data).Ok?
    ensures var b := DecodeBytes(data).value;
            4 + |b| <= |data| && LengthPrefixed(b) == Ok(data[..4 + |b|])
  {
    BytesOfBigEndian(data[0..4]);
    var b := DecodeBytes(data).value;
    assert data[..4 + |b|] == data[0..4] + data[4..4 + |b|];
  }

  lemma {:induction false} BodyBack(t: AbiType, data: Bytes)
    requires IsDynamic(t) && DecodeBody(t, data).Ok?
    ensures var item := DecodeBody(t, data).value;
            EncodeBody(t, item.value) == Ok(data[..item.consumed])
    decreases Height(t), 0, 0
  {
    hide EncodeTuple, DecodeTuple, Repeat, DecodeBytes, LengthPrefixed, BigEndian, U32Bytes;
    match t
    case Bytestring => PrefixedBack(data);
    case String => PrefixedBack(data);
    case Array(elem) =>
      var count := ReadU32(data, 0).value;
      BytesOfBigEndian(data[0..4]);
      TupleBack(Repeat(elem, count), data[4..]);
      var n := DecodeBody(t, data).value.consumed;
      assert data[..n] == data[0..4] + data[4..][..n - 4];
    case FixedArray(elem, len) => TupleBack(Repeat(elem, len), data);
    case Tuple(elems) => TupleBack(elems, data);
  }

  /** Whatever decodes re-encodes to exactly the bytes it was decoded from. */
  lemma {:induction false} TupleBack(ts: seq<AbiType>, data: Bytes)
    requires DecodeTuple(ts, data).Ok?
    ensures var items := DecodeTuple(ts, data).value;
            && |items.values| == |ts| && EncodeTuple(ts, items.values) == Ok(data[..items.consumed])
            && HeadLen(ts, |ts|) <= items.consumed
            && (AllStatic(ts, |ts|) ==> items.consumed == HeadLen(ts, |ts|))
    decreases MaxHeight(ts), 2, 0
  {
    hide EncodePrefix, DecodePrefix;
    PrefixBack(ts, data, |ts|);
    HeadLenMono(ts, |ts|, |ts|);
    var c := DecodePrefix(ts, data, |ts|).value;
    assert data[..c.tail] == data[..c.head] + data[c.head..c.tail];
  }

  /** The bytes read so far are the head and tail the values read so far encode to. */
  predicate Retraces(ts: seq<AbiType>, data: Bytes, k: nat, c: Cursor)
    requires k <= |ts| && k <= |c.values|
  {
    && c.head <= |data| && HeadLen(ts, |ts|) <= c.tail <= |data|
    && EncodePrefix(ts, c.values, k) == Ok(Parts(data[..c.head], data[HeadLen(ts, |ts|)..c.tail]))
  }

  lemma DynamicBack(ts: seq<AbiType>, data: Bytes, k: nat, c: Cursor, item: Item)
    requires 0 < k <= |ts| && |c.values| == k - 1 && IsDynamic(ts[k - 1]) && Retraces(ts, data, k - 1, c)
    requires c.head + 4 <= |data| && BigEndian(data[c.head..c.head + 4]) == c.tail && c.tail + item.consumed <= |data|
    requires EncodeBody(ts[k - 1], item.value) == Ok(data[c.tail..][..item.consumed])
    ensures Retraces(ts, data, k, Cursor(c.values + [item.value], c.head + 4, c.tail + item.consumed))
  {
    hide EncodePrefix, EncodeBody, IsDynamic, BigEndian, U32Bytes, HeadLen;
    var d, n := Cursor(c.values + [item.value], c.head + 4, c.tail + item.consumed), HeadLen(ts, |ts|);
    PrefixLocal(ts, d.values, c.values, k - 1);
    BytesOfBigEndian(data[c.head..c.head + 4]);
    DynamicNext(ts, d.values, k, data[c.tail..][..item.consumed], Parts(data[..c.head], data[n..c.tail]));
    assert data[..d.head] == data[..c.head] + data[c.head..c.head + 4];
    assert data[n..d.tail] == data[n..c.tail] + data[c.tail..][..item.consumed];
  }

  lemma StaticBackNext(ts: seq<AbiType>, data: Bytes, k: nat, c: Cursor, item: Item)
    requires 0 < k <= |ts| && |c.values| == k - 1 && !IsDynamic(ts[k - 1]) && Retraces(ts, data, k - 1, c)
    requires c.head + item.consumed <= |data|
    requires EncodeStatic(ts[k - 1], item.value) == Ok(data[c.head..c.head + item.consumed])
    ensures Retraces(ts, data, k, Cursor(c.values + [item.value], c.head + item.consumed, c.tail))
  {
    hide EncodePrefix, EncodeStatic, IsDynamic, HeadLen;
    var d := Cursor(c.values + [item.value], c.head + item.consumed, c.tail);
    PrefixLocal(ts, d.values, c.values, k - 1);
    StaticNext(ts, d.values, k, data[c.head..d.head], Parts(data[..c.head], data[HeadLen(ts, |ts|)..c.tail]));
    assert data[..d.head] == data[..c.head] + data[c.head..d.head];
  }

  lemma {:induction false} NothingRead(ts: seq<AbiType>, data: Bytes)
    requires HeadLen(ts, |ts|) <= |data|
    ensures Retraces(ts, data, 0, Cursor([], 0, HeadLen(ts, |ts|)))
  {
    var n := HeadLen(ts, |ts|);
    assert data[..0] == [] && data[n..n] == [];
  }

  lemma {:induction false} PrefixBack(ts: seq<AbiType>, data: Bytes, k: nat)
    requires k <= |ts| && HeadLen(ts, |ts|) <= |data| && DecodePrefix(ts, data, k).Ok?
    ensures Retraces(ts, data, k, DecodePrefix(ts, data, k).value)
    ensures AllStatic(ts, k) ==> DecodePrefix(ts, data, k).value.tail == HeadLen(ts, |ts|)
    decreases MaxHeight(ts), 1, k
  {
    hide EncodeBody, DecodeBody, EncodeStatic, DecodeStatic, IsDynamic, HeadSize, BigEndian, Retraces;
    if k == 0 {
      NothingRead(ts, data);
    } else {
      PrefixBack(ts, data, k - 1);
      HeightOfMember(ts, k - 1);
      HeadLenMono(ts, k, |ts|);
      var t, c := ts[k - 1], DecodePrefix(ts, data, k - 1).value;
      if IsDynamic(t) {
        BodyBack(t, data[c.tail..]);
        DynamicBack(ts, data, k, c, DecodeBody(t, data[c.tail..]).value);
      } else {
        var slice := data[c.head..c.head + HeadSize(t)];
        StaticBack(t, slice);
        assert slice[..|slice|] == slice;
        StaticBackNext(ts, data, k, c, DecodeStatic(t, slice).value);
      }
    }
  }

  // ---------------------------------------------------------------- types whose arrays always fit

  /** No array inside has items of no size. */
  predicate Solid(t: AbiType) {
    match t
    case Array(elem) => HeadSize(elem) > 0 && Solid(elem)
    case FixedArray(elem, _) => Solid(elem)
    case Tuple(elems) => forall i :: 0 <= i < |elems| ==> Solid(elems[i])
    case _ => true
  }

  lemma {:induction false} SolidBody(t: AbiType, v: AbiValue, room: nat)
    requires Solid(t)
    ensures FitsBody(t, v, room)
    decreases Height(t), 0, 0
  {
    match (t, v)
    case (Array(elem), ArrayValue(vs)) =>
      var ts := Repeat(elem, |vs|);
      SolidTuple(ts, vs, room);
      if EncodeTuple(ts, vs).Ok? {
        PrefixLen(ts, vs, |vs|);
        HeadLenOfRepeat(elem, |vs|, |vs|);
        AtLeast(|vs|, HeadSize(elem));
      }
    case (FixedArray(elem, len), FixedArrayValue(vs)) => SolidTuple(Repeat(elem, len), vs, room);
    case (Tuple(elems), TupleValue(vs)) => SolidTuple(elems, vs, room);
    case _ =>
  }

  lemma AtLeast(n: nat, size: nat)
    requires size > 0
    ensures n * size >= n
  {
  }

  lemma {:induction false} SolidTuple(ts: seq<AbiType>, vs: seq<AbiValue>, room: nat)
    requires forall i :: 0 <= i < |ts| ==> Solid(ts[i])
    ensures FitsTuple(ts, vs, room)
    decreases MaxHeight(ts), 2, 0
  {
    if |ts| == |vs| && EncodePrefix(ts, vs, |ts|).Ok? {
      SolidPrefix(ts, vs, |EncodePrefix(ts, vs, |ts|).value.tail| + room, |ts|);
    }
  }

  lemma {:induction false} SolidPrefix(ts: seq<AbiType>, vs: seq<AbiValue>, after: nat, k: nat)
    requires k <= |ts| && k <= |vs| && forall i :: 0 <= i < |ts| ==> Solid(ts[i])
    ensures FitsPrefix(ts, vs, after, k)
    decreases MaxHeight(ts), 1, k
  {
    hide FitsBody;
    if k > 0 {
      SolidPrefix(ts, vs, after, k - 1);
      HeightOfMember(ts, k - 1);
      var parts := EncodePrefix(ts, vs, k);
      if parts.Ok? && |parts.value.tail| <= after {
        SolidBody(ts[k - 1], vs[k - 1], after - |parts.value.tail|);
      }
    }
  }

  // ---------------------------------------------------------------- calldata

  /** Calldata decodes to the arguments it was encoded from, if and only if their arrays fit. */
  lemma {:induction false} DecodeOfEncode(ts: seq<AbiType>, vs: seq<AbiValue>)
    requires EncodeArgs(ts, vs).Ok?
    ensures DecodeArgs(ts, EncodeArgs(ts, vs).value) == Ok(vs) <==> FitsTuple(ts, vs, 0)
    ensures DecodeArgs(ts, EncodeArgs(ts, vs).value).Ok? <==> FitsTuple(ts, vs, 0)
  {
    hide EncodeTuple, DecodeTuple, FitsTuple;
    TupleRoundTrip(ts, vs, []);
    assert EncodeArgs(ts, vs).value + [] == EncodeArgs(ts, vs).value;
  }

  /** In particular for every type whose array items have a size. */
  lemma DecodeOfEncodeSolid(ts: seq<AbiType>, vs: seq<AbiValue>)
    requires EncodeArgs(ts, vs).Ok? && forall i :: 0 <= i < |ts| ==> Solid(ts[i])
    ensures DecodeArgs(ts, EncodeArgs(ts, vs).value) == Ok(vs)
  {
    SolidTuple(ts, vs, 0);
    DecodeOfEncode(ts, vs);
  }

  /** Calldata that decodes re-encodes to exactly the same bytes: only one byte string decodes to
      given arguments. */
  lemma EncodeOfDecode(ts: seq<AbiType>, data: Bytes)
    requires DecodeArgs(ts, data).Ok?
    ensures EncodeArgs(ts, DecodeArgs(ts, data).value) == Ok(data)
  {
    hide EncodeTuple, DecodeTuple;
    TupleBack(ts, data);
    assert data[..|data|] == data;
  }

  /** Any number of empty tuples encodes to nothing. */
  lemma {:induction false} UnitsEncode(vs: seq<AbiValue>, k: nat)
    requires k <= |vs| && forall i :: 0 <= i < |vs| ==> vs[i] == TupleValue([])
    ensures EncodePrefix(Repeat(Tuple([]), |vs|), vs, k) == Ok(Parts([], []))
    decreases k
  {
    if k > 0 {
      hide EncodePrefix, EncodeStatic;
      UnitsEncode(vs, k - 1);
      UnitEncodes();
      StaticNext(Repeat(Tuple([]), |vs|), vs, k, [], Parts([], []));
    }
  }

  lemma UnitEncodes()
    ensures EncodeStatic(Tuple([]), TupleValue([])) == Ok([])
  {
    var ts: seq<AbiType>, vs: seq<AbiValue>, none: Bytes := [], [], [];
    assert EncodePrefix(ts, vs, 0) == Ok(Parts(none, none));
    assert none + none == none;
    assert EncodeTuple(ts, vs) == Ok(none);
  }

  /** An array of empty tuples encodes to its count, and meets the guard up to four. */
  lemma {:induction false} EmptyTuplesBody(vs: seq<AbiValue>)
    requires |vs| <= U32_MAX && forall i :: 0 <= i < |vs| ==> vs[i] == TupleValue([])
    ensures EncodeBody(Array(Tuple([])), ArrayValue(vs)) == Ok(U32Bytes(|vs|))
    ensures FitsBody(Array(Tuple([])), ArrayValue(vs), 0) <==> |vs| <= 4
  {
    hide EncodeBody, EncodeTuple, FitsBody, FitsTuple, U32Bytes, Repeat;
    UnitsTogether(vs);
    ArrayOfNothing(Tuple([]), vs);
  }

  lemma {:induction false} ArrayOfNothing(t: AbiType, vs: seq<AbiValue>)
    requires |vs| <= U32_MAX && EncodeTuple(Repeat(t, |vs|), vs) == Ok([]) && FitsTuple(Repeat(t, |vs|), vs, 0)
    ensures EncodeBody(Array(t), ArrayValue(vs)) == Ok(U32Bytes(|vs|))
    ensures FitsBody(Array(t), ArrayValue(vs), 0) <==> |vs| <= 4
  {
    hide EncodePrefix, EncodeTuple, U32Bytes, FitsPrefix, FitsTuple, Repeat;
    var none: Bytes := [];
    assert U32Bytes(|vs|) + none == U32Bytes(|vs|);
  }

  lemma {:induction false} UnitsTogether(vs: seq<AbiValue>)
    requires forall i :: 0 <= i < |vs| ==> vs[i] == TupleValue([])
    ensures EncodeTuple(Repeat(Tuple([]), |vs|), vs) == Ok([]) && FitsTuple(Repeat(Tuple([]), |vs|), vs, 0)
  {
    hide EncodePrefix, FitsPrefix;
    var ts, none: Bytes := Repeat(Tuple([]), |vs|), [];
    UnitsEncode(vs, |vs|);
    assert none + none == none;
    StaticFits(ts, vs, 0, |vs|);
  }

  /** The guard does reject calldata: one array of empty tuples always encodes, and decodes again exactly
      when it has at most four of them. */
  lemma EmptyTuplesDoNotDecode(vs: seq<AbiValue>)
    requires |vs| <= U32_MAX && forall i :: 0 <= i < |vs| ==> vs[i] == TupleValue([])
    ensures var ts, args := [Array(Tuple([]))], [ArrayValue(vs)];
            && EncodeArgs(ts, args) == Ok(U32Bytes(4) + U32Bytes(|vs|))
            && (DecodeArgs(ts, EncodeArgs(ts, args).value) == Ok(args) <==> |vs| <= 4)
            && (DecodeArgs(ts, EncodeArgs(ts, args).value).Err? <==> |vs| > 4)
  {
    hide EncodeBody, FitsBody, U32Bytes, DecodeArgs;
    var t, v, none: Bytes := Array(Tuple([])), ArrayValue(vs), [];
    var ts, args := [t], [v];
    EmptyTuplesBody(vs);
    assert HeadLen(ts, 1) == 4 by { assert HeadLen(ts, 0) == 0; }
    assert EncodePrefix(ts, args, 0) == Ok(Parts(none, none));
    DynamicNext(ts, args, 1, U32Bytes(|vs|), Parts(none, none));
    assert none + U32Bytes(4) == U32Bytes(4) && none + U32Bytes(|vs|) == U32Bytes(|vs|);
    assert FitsTuple(ts, args, 0) <==> FitsBody(t, v, 0) by { assert FitsPrefix(ts, args, 4, 0); }
    DecodeOfEncode(ts, args);
  }
}
