/** Text in the ABI is UTF-8: the byte strings accepted are exactly the encodings of sequences of Unicode scalar
    values. */
module AbiText {
  import opened Types
  import opened Abi

  /** A Unicode scalar value: a code point that is not a surrogate. */
  predicate Scalar(x: nat) { x < 0xD800 || 0xE000 <= x <= 0x10FFFF }

  /** The UTF-8 form of a scalar value, by its size. */
  function Encode(x: nat): (b: Bytes)
    requires Scalar(x)
    ensures 1 <= |b| <= 4
  {
    if x < 0x80 then [x]
    else if x < 0x800 then [0xC0 + x / 0x40, 0x80 + x % 0x40]
    else if x < 0x1_0000 then [0xE0 + x / 0x1000, 0x80 + x / 0x40 % 0x40, 0x80 + x % 0x40]
    else [0xF0 + x / 0x4_0000, 0x80 + x / 0x1000 % 0x40, 0x80 + x / 0x40 % 0x40, 0x80 + x % 0x40]
  }

  predicate Scalars(xs: seq<nat>) { forall i :: 0 <= i < |xs| ==> Scalar(xs[i]) }

  function EncodeAll(xs: seq<nat>): Bytes
    requires Scalars(xs)
  {
    if xs == [] then [] else Encode(xs[0]) + EncodeAll(xs[1..])
  }

  /** The scalar value that four sixes of bits spell. */
  function Joined(a: nat, b: nat, c: nat, d: nat): nat { 0x4_0000 * a + 0x1000 * b + 0x40 * c + d }

  lemma By64(q: nat, r: nat)
    requires r < 0x40
    ensures (0x40 * q + r) / 0x40 == q && (0x40 * q + r) % 0x40 == r
  {
  }

  lemma By4096(q: nat, r: nat)
    requires r < 0x1000
    ensures (0x1000 * q + r) / 0x1000 == q
  {
  }

  lemma By262144(q: nat, r: nat)
    requires r < 0x4_0000
    ensures (0x4_0000 * q + r) / 0x4_0000 == q
  {
  }

  lemma JoinedBack(a: nat, b: nat, c: nat, d: nat)
    requires b < 0x40 && c < 0x40 && d < 0x40
    ensures var x := Joined(a, b, c, d);
            x % 0x40 == d && x / 0x40 % 0x40 == c && x / 0x1000 % 0x40 == b && x / 0x4_0000 == a &&
            x / 0x1000 == 0x40 * a + b && x / 0x40 == 0x1000 * a + 0x40 * b + c
  {
    By64(0x1000 * a + 0x40 * b + c, d);
    By64(0x40 * a + b, c);
    By64(a, b);
    By4096(0x40 * a + b, 0x40 * c + d);
    By262144(a, 0x1000 * b + 0x40 * c + d);
  }

  lemma TwoBytes(p: Byte, q: Byte) returns (x: nat)
    requires 0xC2 <= p <= 0xDF && Continuation(q)
    ensures Scalar(x) && Encode(x) == [p, q]
  {
    hide Joined;
    x := Joined(0, 0, p - 0xC0, q - 0x80);
    JoinedBack(0, 0, p - 0xC0, q - 0x80);
    Sizes(0, 0, p - 0xC0, q - 0x80);
  }

  lemma ThreeBytes(p: Byte, q: Byte, r: Byte) returns (x: nat)
    requires 0xE0 <= p <= 0xEF && Continuation(q) && Continuation(r)
    requires (p == 0xE0 ==> q >= 0xA0) && (p == 0xED ==> q <= 0x9F)
    ensures Scalar(x) && Encode(x) == [p, q, r]
  {
    hide Joined;
    x := Joined(0, p - 0xE0, q - 0x80, r - 0x80);
    JoinedBack(0, p - 0xE0, q - 0x80, r - 0x80);
    Sizes(0, p - 0xE0, q - 0x80, r - 0x80);
  }

  lemma FourBytes(p: Byte, q: Byte, r: Byte, t: Byte) returns (x: nat)
    requires 0xF0 <= p <= 0xF4 && Continuation(q) && Continuation(r) && Continuation(t)
    requires (p == 0xF0 ==> q >= 0x90) && (p == 0xF4 ==> q <= 0x8F)
    ensures Scalar(x) && Encode(x) == [p, q, r, t]
  {
    hide Joined;
    x := Joined(p - 0xF0, q - 0x80, r - 0x80, t - 0x80);
    JoinedBack(p - 0xF0, q - 0x80, r - 0x80, t - 0x80);
    Sizes(p - 0xF0, q - 0x80, r - 0x80, t - 0x80);
  }

  /** How large a joined value is. */
  lemma Sizes(a: nat, b: nat, c: nat, d: nat)
    requires b < 0x40 && c < 0x40 && d < 0x40
    ensures Joined(a, b, c, d) == 0x4_0000 * a + 0x1000 * b + 0x40 * c + d
  {
  }

  /** The first character of well-formed text, and what follows it. */
  lemma FirstScalar(b: Bytes) returns (x: nat, n: nat)
    requires b != [] && Utf8(b)
    ensures Scalar(x) && 1 <= n <= |b| && Encode(x) == b[..n] && Utf8(b[n..])
  {
    hide Encode;
    if b[0] < 0x80 {
      x, n := b[0], 1;
      OneByte(b[0]);
      assert b[..1] == [b[0]];
    } else if b[0] <= 0xDF {
      x := TwoBytes(b[0], b[1]);
      n := 2;
      assert b[..2] == [b[0], b[1]];
    } else if b[0] <= 0xEF {
      x := ThreeBytes(b[0], b[1], b[2]);
      n := 3;
      assert b[..3] == [b[0], b[1], b[2]];
    } else {
      x := FourBytes(b[0], b[1], b[2], b[3]);
      n := 4;
      assert b[..4] == [b[0], b[1], b[2], b[3]];
    }
  }

  lemma OneByte(p: Byte)
    requires p < 0x80
    ensures Encode(p) == [p]
  {
  }

  lemma {:induction false} EncodedFirst(x: nat, rest: Bytes)
    requires Scalar(x) && Utf8(rest)
    ensures Utf8(Encode(x) + rest)
  {
    var b := Encode(x) + rest;
    assert b[|Encode(x)|..] == rest;
  }

  lemma {:induction false} EncodedIsText(xs: seq<nat>)
    requires Scalars(xs)
    ensures Utf8(EncodeAll(xs))
  {
    if xs != [] {
      EncodedIsText(xs[1..]);
      EncodedFirst(xs[0], EncodeAll(xs[1..]));
    }
  }

  lemma {:induction false} TextIsEncoded(b: Bytes) returns (xs: seq<nat>)
    requires Utf8(b)
    ensures Scalars(xs) && EncodeAll(xs) == b
    decreases |b|
  {
    if b == [] {
      xs := [];
    } else {
      var x, n := FirstScalar(b);
      var rest := TextIsEncoded(b[n..]);
      xs := [x] + rest;
      assert xs[1..] == rest && b == b[..n] + b[n..];
    }
  }

  /** Bytes are accepted as text exactly when they encode some sequence of scalar values. */
  lemma {:induction false} TextIs(b: Bytes)
    ensures Utf8(b) <==> exists xs :: Scalars(xs) && EncodeAll(xs) == b
  {
    hide Utf8, EncodeAll;
    if Utf8(b) { var xs := TextIsEncoded(b); }
    if xs :| Scalars(xs) && EncodeAll(xs) == b { EncodedIsText(xs); }
  }
}
