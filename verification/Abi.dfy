/** The contract ABI codec: a head/tail layout with 32-byte static words and 4-byte big-endian
    offsets and lengths. */
module Abi {
  import opened Types

  const U32_MAX := 0xFFFF_FFFF

  type Word = w: Bytes | |w| == 32 witness seq(32, _ => 0)

  predicate Continuation(b: Byte) { 0x80 <= b <= 0xBF }

  /** Well-formed UTF-8 (table 3-7 of the Unicode Standard). */
  predicate Utf8(b: Bytes)
    decreases |b|
  {
    || b == []
    || (b[0] < 0x80 && Utf8(b[1..]))
    || (|b| >= 2 && 0xC2 <= b[0] <= 0xDF && Continuation(b[1]) && Utf8(b[2..]))
    || (|b| >= 3 && 0xE0 <= b[0] <= 0xEF && Continuation(b[1]) && Continuation(b[2])
        && (b[0] == 0xE0 ==> b[1] >= 0xA0) && (b[0] == 0xED ==> b[1] <= 0x9F) && Utf8(b[3..]))
    || (|b| >= 4 && 0xF0 <= b[0] <= 0xF4 && Continuation(b[1]) && Continuation(b[2]) && Continuation(b[3])
        && (b[0] == 0xF0 ==> b[1] >= 0x90) && (b[0] == 0xF4 ==> b[1] <= 0x8F) && Utf8(b[4..]))
  }

  type Text = b: Bytes | Utf8(b)

  datatype AbiType =
    | Uint(bits: nat)
    | Int(bits: nat)
    | Bool
    | Address
    | Bytestring
    | String
    | Array(elem: AbiType)
    | FixedArray(elem: AbiType, len: nat)
    | Tuple(elems: seq<AbiType>)

  datatype AbiValue =
    | UintValue(word: Word)
    | IntValue(word: Word)
    | BoolValue(flag: bool)
    | AddressValue(word: Word)
    | BytesValue(bytes: Bytes)
    | StringValue(text: Text)
    | ArrayValue(items: seq<AbiValue>)
    | FixedArrayValue(items: seq<AbiValue>)
    | TupleValue(items: seq<AbiValue>)

  datatype AbiError =
    | ArityMismatch
    | TypeMismatch
    | InvalidBits
    | InvalidValue
    | UnexpectedEnd
    | TrailingData
    | InvalidOffset
    | NonCanonicalOffset
    | InvalidUtf8

  // ---------------------------------------------------------------- types

  ghost function Height(t: AbiType): nat {
    match t
    case Array(elem) => 1 + Height(elem)
    case FixedArray(elem, _) => 1 + Height(elem)
    case Tuple(elems) => 1 + MaxHeight(elems)
    case _ => 0
  }

  ghost function MaxHeight(ts: seq<AbiType>): nat {
    if ts == [] then 0
    else
      var init, last := MaxHeight(ts[..|ts| - 1]), Height(ts[|ts| - 1]);
      if init >= last then init else last
  }

  lemma {:induction false} HeightOfMember(ts: seq<AbiType>, i: nat)
    requires i < |ts|
    ensures Height(ts[i]) <= MaxHeight(ts)
    decreases |ts|
  {
    if i < |ts| - 1 { HeightOfMember(ts[..|ts| - 1], i); }
  }

  function Repeat(t: AbiType, n: nat): (ts: seq<AbiType>)
    ensures |ts| == n && forall i :: 0 <= i < n ==> ts[i] == t
    ensures MaxHeight(ts) <= Height(t)
  {
    if n == 0 then [] else
      assert (Repeat(t, n - 1) + [t])[..n - 1] == Repeat(t, n - 1);
      Repeat(t, n - 1) + [t]
  }

  predicate IsDynamic(t: AbiType) {
    match t
    case Bytestring => true
    case String => true
    case Array(_) => true
    case FixedArray(elem, _) => IsDynamic(elem)
    case Tuple(elems) => exists i :: 0 <= i < |elems| && IsDynamic(elems[i])
    case _ => false
  }

  /** Size of a static type in the head; `None` for a dynamic one. */
  function StaticSize(t: AbiType): Option<nat> {
    match t
    case Uint(_) => Some(32)
    case Int(_) => Some(32)
    case Bool => Some(32)
    case Address => Some(32)
    case FixedArray(elem, len) =>
      (match StaticSize(elem) case None => None case Some(n) => Some(n * len))
    case Tuple(elems) => StaticSizes(elems)
    case _ => None
  }

  function StaticSizes(ts: seq<AbiType>): Option<nat> {
    if ts == [] then Some(0)
    else
      match (StaticSizes(ts[..|ts| - 1]), StaticSize(ts[|ts| - 1]))
      case (Some(m), Some(n)) => Some(m + n)
      case _ => None
  }

  /** A type has a static size exactly when it is not dynamic. */
  lemma {:induction false} SizedIffStatic(t: AbiType)
    ensures StaticSize(t).Some? <==> !IsDynamic(t)
    decreases t, 1
  {
    match t
    case FixedArray(elem, _) => SizedIffStatic(elem);
    case Tuple(elems) => SizedIffAllStatic(elems);
    case _ =>
  }

  lemma {:induction false} SizedIffAllStatic(ts: seq<AbiType>)
    ensures StaticSizes(ts).Some? <==> forall i :: 0 <= i < |ts| ==> !IsDynamic(ts[i])
    decreases ts, 0
  {
    if ts != [] {
      SizedIffAllStatic(ts[..|ts| - 1]);
      SizedIffStatic(ts[|ts| - 1]);
    }
  }

  function HeadSize(t: AbiType): nat {
    if IsDynamic(t) then 4 else match StaticSize(t) case Some(n) => n case None => 0
  }

  function HeadLen(ts: seq<AbiType>, k: nat): nat
    requires k <= |ts|
  {
    if k == 0 then 0 else HeadLen(ts, k - 1) + HeadSize(ts[k - 1])
  }

  // ---------------------------------------------------------------- words

  function U16Bytes(n: nat): (b: Bytes)
    requires n < 0x1_0000
    ensures |b| == 2 && 0x100 * (b[0] as int) + b[1] == n
  {
    [n / 0x100, n % 0x100]
  }

  function U32Bytes(n: nat): (b: Bytes)
    requires n <= U32_MAX
    ensures |b| == 4
  {
    U16Bytes(n / 0x1_0000) + U16Bytes(n % 0x1_0000)
  }

  function BigEndian(b: Bytes): (n: nat)
    requires |b| == 4
    ensures n <= U32_MAX
  {
    var high, low := 0x100 * (b[0] as int) + b[1], 0x100 * (b[2] as int) + b[3];
    0x1_0000 * high + low
  }

  lemma BigEndianOf(n: nat)
    requires n <= U32_MAX
    ensures BigEndian(U32Bytes(n)) == n
  {
    hide U16Bytes;
  }

  lemma BytesOfBigEndian(b: Bytes)
    requires |b| == 4
    ensures U32Bytes(BigEndian(b)) == b
  {
    var high, low := 0x100 * (b[0] as int) + b[1], 0x100 * (b[2] as int) + b[3];
    var n := 0x1_0000 * high + low;
    assert n / 0x1_0000 == high && n % 0x1_0000 == low;
    PairDigits(U16Bytes(high), b[..2]);
    PairDigits(U16Bytes(low), b[2..]);
    assert b == b[..2] + b[2..];
  }

  lemma PairDigits(x: Bytes, y: Bytes)
    requires |x| == |y| == 2 && 0x100 * (x[0] as int) + x[1] == 0x100 * (y[0] as int) + y[1]
    ensures x == y
  {
  }

  function ReadU32(data: Bytes, at: nat): Result<nat, AbiError> {
    if at + 4 <= |data| then Ok(BigEndian(data[at..at + 4])) else Err(UnexpectedEnd)
  }

  function ReadWord(data: Bytes): Result<Word, AbiError> {
    if |data| >= 32 then Ok(data[..32]) else Err(UnexpectedEnd)
  }

  predicate ValidBits(bits: nat) { 8 <= bits <= 256 && bits % 8 == 0 }

  /** High bytes above the declared width are zero. */
  function CheckUint(w: Word, bits: nat): Result<(), AbiError> {
    if !ValidBits(bits) then Err(InvalidBits)
    else if forall i :: 0 <= i < 32 - bits / 8 ==> w[i] == 0 then Ok(())
    else Err(InvalidValue)
  }

  function SignFill(w: Word, bits: nat): Byte
    requires ValidBits(bits)
  {
    if w[32 - bits / 8] >= 0x80 then 0xff else 0
  }

  /** High bytes repeat the sign of the declared width. */
  function CheckInt(w: Word, bits: nat): Result<(), AbiError> {
    if !ValidBits(bits) then Err(InvalidBits)
    else if forall i :: 0 <= i < 32 - bits / 8 ==> w[i] == SignFill(w, bits) then Ok(())
    else Err(InvalidValue)
  }

  function SignExtend(w: Word, bits: nat): Word
    requires ValidBits(bits)
  {
    var high := 32 - bits / 8;
    var fill := SignFill(w, bits);
    var r: Bytes := seq(high, _ => fill) + w[high..];
    r
  }

  function BoolWord(b: bool): Word { seq(31, _ => 0) + [if b then 1 else 0] }

  // ---------------------------------------------------------------- encoding

  datatype Parts = Parts(head: Bytes, tail: Bytes)

  function EncodeStatic(t: AbiType, v: AbiValue): Result<Bytes, AbiError>
    decreases Height(t), 0, 0
  {
    match (t, v)
    case (Uint(bits), UintValue(w)) => var _ :- CheckUint(w, bits); Ok(w)
    case (Int(bits), IntValue(w)) => var _ :- CheckInt(w, bits); Ok(w)
    case (Bool, BoolValue(b)) => Ok(BoolWord(b))
    case (Address, AddressValue(w)) => Ok(w)
    case (FixedArray(elem, len), FixedArrayValue(vs)) =>
      if |vs| != len then Err(InvalidValue) else EncodeTuple(Repeat(elem, len), vs)
    case (Tuple(elems), TupleValue(vs)) => EncodeTuple(elems, vs)
    case _ => Err(TypeMismatch)
  }

  function LengthPrefixed(b: Bytes): Result<Bytes, AbiError> {
    if |b| > U32_MAX then Err(InvalidValue) else Ok(U32Bytes(|b|) + b)
  }

  function EncodeBody(t: AbiType, v: AbiValue): Result<Bytes, AbiError>
    decreases Height(t), 0, 0
  {
    match (t, v)
    case (Bytestring, BytesValue(b)) => LengthPrefixed(b)
    case (String, StringValue(s)) => LengthPrefixed(s)
    case (Array(elem), ArrayValue(vs)) =>
      if |vs| > U32_MAX then Err(InvalidValue)
      else
        var body :- EncodeTuple(Repeat(elem, |vs|), vs);
        Ok(U32Bytes(|vs|) + body)
    case (FixedArray(elem, len), FixedArrayValue(vs)) =>
      if |vs| != len then Err(InvalidValue) else EncodeTuple(Repeat(elem, len), vs)
    case (Tuple(elems), TupleValue(vs)) => EncodeTuple(elems, vs)
    case _ => Err(TypeMismatch)
  }

  /** Head and tail after the first `k` items. */
  function EncodePrefix(ts: seq<AbiType>, vs: seq<AbiValue>, k: nat): Result<Parts, AbiError>
    requires k <= |ts| && k <= |vs|
    decreases MaxHeight(ts), 1, k
  {
    if k == 0 then Ok(Parts([], []))
    else
      var before :- EncodePrefix(ts, vs, k - 1);
      HeightOfMember(ts, k - 1);
      if IsDynamic(ts[k - 1]) then
        var offset := HeadLen(ts, |ts|) + |before.tail|;
        if offset > U32_MAX then Err(InvalidOffset)
        else
          var body :- EncodeBody(ts[k - 1], vs[k - 1]);
          Ok(Parts(before.head + U32Bytes(offset), before.tail + body))
      else
        var word :- EncodeStatic(ts[k - 1], vs[k - 1]);
        Ok(Parts(before.head + word, before.tail))
  }

  function EncodeTuple(ts: seq<AbiType>, vs: seq<AbiValue>): Result<Bytes, AbiError>
    decreases MaxHeight(ts), 2, 0
  {
    if |ts| != |vs| then Err(ArityMismatch)
    else
      var parts :- EncodePrefix(ts, vs, |ts|);
      Ok(parts.head + parts.tail)
  }

  // ---------------------------------------------------------------- decoding

  /** A decoded item and the bytes it took. */
  datatype Item = Item(value: AbiValue, consumed: nat)

  datatype Items = Items(values: seq<AbiValue>, consumed: nat)

  /** The loop state of `decode_tuple`. */
  datatype Cursor = Cursor(values: seq<AbiValue>, head: nat, tail: nat)

  function DecodeStatic(t: AbiType, data: Bytes): Result<Item, AbiError>
    decreases Height(t), 0, 0
  {
    match t
    case Uint(bits) =>
      var w :- ReadWord(data);
      var _ :- CheckUint(w, bits);
      Ok(Item(UintValue(w), 32))
    case Int(bits) =>
      var w :- ReadWord(data);
      var _ :- CheckInt(w, bits);
      Ok(Item(IntValue(SignExtend(w, bits)), 32))
    case Bool =>
      var w :- ReadWord(data);
      if (exists i :: 0 <= i < 31 && w[i] != 0) || w[31] > 1 then Err(InvalidValue)
      else Ok(Item(BoolValue(w[31] == 1), 32))
    case Address =>
      var w :- ReadWord(data);
      Ok(Item(AddressValue(w), 32))
    case FixedArray(elem, len) =>
      var items :- DecodeTuple(Repeat(elem, len), data);
      Ok(Item(FixedArrayValue(items.values), items.consumed))
    case Tuple(elems) =>
      var items :- DecodeTuple(elems, data);
      Ok(Item(TupleValue(items.values), items.consumed))
    case _ => Err(TypeMismatch)
  }

  function DecodeBytes(data: Bytes): Result<Bytes, AbiError> {
    var len :- ReadU32(data, 0);
    if 4 + len > |data| then Err(UnexpectedEnd) else Ok(data[4..4 + len])
  }

  function DecodeBody(t: AbiType, data: Bytes): (r: Result<Item, AbiError>)
    ensures r.Ok? ==> r.value.consumed <= |data|
    decreases Height(t), 0, 0
  {
    match t
    case Bytestring =>
      var b :- DecodeBytes(data);
      Ok(Item(BytesValue(b), 4 + |b|))
    case String =>
      var b :- DecodeBytes(data);
      if Utf8(b) then Ok(Item(StringValue(b), 4 + |b|)) else Err(InvalidUtf8)
    case Array(elem) =>
      var count :- ReadU32(data, 0);
      if count > |data| then Err(UnexpectedEnd)
      else
        var items :- DecodeTuple(Repeat(elem, count), data[4..]);
        Ok(Item(ArrayValue(items.values), 4 + items.consumed))
    case FixedArray(elem, len) =>
      var items :- DecodeTuple(Repeat(elem, len), data);
      Ok(Item(FixedArrayValue(items.values), items.consumed))
    case Tuple(elems) =>
      var items :- DecodeTuple(elems, data);
      Ok(Item(TupleValue(items.values), items.consumed))
    case _ => Err(TypeMismatch)
  }

  /** The cursor after the first `k` items. */
  function DecodePrefix(ts: seq<AbiType>, data: Bytes, k: nat): (r: Result<Cursor, AbiError>)
    requires k <= |ts| && HeadLen(ts, |ts|) <= |data|
    ensures r.Ok? ==> |r.value.values| == k && r.value.head == HeadLen(ts, k)
                      && HeadLen(ts, |ts|) <= r.value.tail <= |data|
    decreases MaxHeight(ts), 1, k
  {
    if k == 0 then Ok(Cursor([], 0, HeadLen(ts, |ts|)))
    else
      var c :- DecodePrefix(ts, data, k - 1);
      var t := ts[k - 1];
      HeightOfMember(ts, k - 1);
      HeadLenMono(ts, k, |ts|);
      if IsDynamic(t) then
        var offset :- ReadU32(data, c.head);
        if offset != c.tail then Err(NonCanonicalOffset)
        else
          var item :- DecodeBody(t, data[c.tail..]);
          Ok(Cursor(c.values + [item.value], c.head + 4, c.tail + item.consumed))
      else
        var item :- DecodeStatic(t, data[c.head..c.head + HeadSize(t)]);
        Ok(Cursor(c.values + [item.value], c.head + HeadSize(t), c.tail))
  }

  lemma {:induction false} HeadLenMono(ts: seq<AbiType>, j: nat, k: nat)
    requires j <= k <= |ts|
    ensures HeadLen(ts, j) <= HeadLen(ts, k)
    decreases k
  {
    if j < k { HeadLenMono(ts, j, k - 1); }
  }

  function DecodeTuple(ts: seq<AbiType>, data: Bytes): (r: Result<Items, AbiError>)
    ensures r.Ok? ==> r.value.consumed <= |data|
    decreases MaxHeight(ts), 2, 0
  {
    if |data| < HeadLen(ts, |ts|) then Err(UnexpectedEnd)
    else
      var c :- DecodePrefix(ts, data, |ts|);
      Ok(Items(c.values, c.tail))
  }

  function EncodeArgs(ts: seq<AbiType>, vs: seq<AbiValue>): Result<Bytes, AbiError> { EncodeTuple(ts, vs) }

  function DecodeArgs(ts: seq<AbiType>, data: Bytes): Result<seq<AbiValue>, AbiError> {
    var items :- DecodeTuple(ts, data);
    if items.consumed != |data| then Err(TrailingData) else Ok(items.values)
  }
}
