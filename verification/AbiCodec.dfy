/** The codec's loops, which fill a head and a tail buffer, or move a head and a tail cursor. */
module AbiCodec {
  import opened Types
  import opened Abi

  method HeadLength(ts: seq<AbiType>) returns (n: nat)
    ensures n == HeadLen(ts, |ts|)
  {
    hide HeadSize;
    n := 0;
    for i := 0 to |ts|
      invariant n == HeadLen(ts, i)
    {
      n := n + HeadSize(ts[i]);
    }
  }

  lemma {:induction false} EncodeStops(ts: seq<AbiType>, vs: seq<AbiValue>, j: nat, k: nat)
    requires j <= k <= |ts| && k <= |vs| && EncodePrefix(ts, vs, j).Err?
    ensures EncodePrefix(ts, vs, k) == EncodePrefix(ts, vs, j)
    decreases k
  {
    hide EncodeBody, EncodeStatic, IsDynamic;
    if j < k { EncodeStops(ts, vs, j, k - 1); }
  }

  method Encode(ts: seq<AbiType>, vs: seq<AbiValue>) returns (r: Result<Bytes, AbiError>)
    ensures r == EncodeTuple(ts, vs)
  {
    hide EncodeBody, EncodeStatic, IsDynamic, HeadSize, HeadLen, U32Bytes;
    if |ts| != |vs| { return Err(ArityMismatch); }
    var headLen := HeadLength(ts);
    var head: Bytes, tail: Bytes := [], [];
    for i := 0 to |ts|
      invariant EncodePrefix(ts, vs, i) == Ok(Parts(head, tail))
    {
      if EncodePrefix(ts, vs, i + 1).Err? { EncodeStops(ts, vs, i + 1, |ts|); }
      if IsDynamic(ts[i]) {
        if headLen + |tail| > U32_MAX { return Err(InvalidOffset); }
        var body := EncodeBody(ts[i], vs[i]);
        if body.Err? { return Err(body.error); }
        head := head + U32Bytes(headLen + |tail|);
        tail := tail + body.value;
      } else {
        var word := EncodeStatic(ts[i], vs[i]);
        if word.Err? { return Err(word.error); }
        head := head + word.value;
      }
    }
    return Ok(head + tail);
  }

  lemma {:induction false} DecodeStops(ts: seq<AbiType>, data: Bytes, j: nat, k: nat)
    requires j <= k <= |ts| && HeadLen(ts, |ts|) <= |data| && DecodePrefix(ts, data, j).Err?
    ensures DecodePrefix(ts, data, k) == DecodePrefix(ts, data, j)
    decreases k
  {
    hide DecodeBody, DecodeStatic, IsDynamic, HeadSize;
    if j < k { DecodeStops(ts, data, j, k - 1); }
  }

  method Decode(ts: seq<AbiType>, data: Bytes) returns (r: Result<Items, AbiError>)
    ensures r == DecodeTuple(ts, data)
  {
    hide DecodeBody, DecodeStatic, IsDynamic, HeadSize, BigEndian, ReadU32;
    var headLen := HeadLength(ts);
    if |data| < headLen { return Err(UnexpectedEnd); }
    var values: seq<AbiValue>, headPos: nat, tailPos: nat := [], 0, headLen;
    for i := 0 to |ts|
      invariant DecodePrefix(ts, data, i) == Ok(Cursor(values, headPos, tailPos))
    {
      if DecodePrefix(ts, data, i + 1).Err? { DecodeStops(ts, data, i + 1, |ts|); }
      HeadLenMono(ts, i + 1, |ts|);
      if IsDynamic(ts[i]) {
        var offset := ReadU32(data, headPos);
        if offset.Err? { return Err(offset.error); }
        if offset.value != tailPos { return Err(NonCanonicalOffset); }
        var item := DecodeBody(ts[i], data[tailPos..]);
        if item.Err? { return Err(item.error); }
        headPos, tailPos := headPos + 4, tailPos + item.value.consumed;
        values := values + [item.value.value];
      } else {
        var size := HeadSize(ts[i]);
        var item := DecodeStatic(ts[i], data[headPos..headPos + size]);
        if item.Err? { return Err(item.error); }
        headPos := headPos + size;
        values := values + [item.value.value];
      }
    }
    return Ok(Items(values, tailPos));
  }
}
