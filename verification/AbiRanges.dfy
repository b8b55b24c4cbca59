/** What the integer range checks of the codec mean for the numbers the words spell. */
module AbiRanges {
  import opened Types
  import opened Abi
  import U256Arith

  /** The number big-endian bytes spell. */
  function Number(b: Bytes): nat {
    if b == [] then 0 else 256 * Number(b[..|b| - 1]) + b[|b| - 1]
  }

  function Base(n: nat): (p: nat)
    ensures p > 0
  {
    if n == 0 then 1 else 256 * Base(n - 1)
  }

  /** The number a word spells in two's complement. */
  function Signed(w: Word): int { if w[0] >= 128 then Number(w) - Base(32) else Number(w) }

  lemma {:induction false} NumberBound(b: Bytes)
    ensures Number(b) < Base(|b|)
  {
    if b != [] { NumberBound(b[..|b| - 1]); }
  }

  lemma {:induction false} BaseAdd(m: nat, n: nat)
    ensures Base(m + n) == Base(m) * Base(n)
    decreases n
  {
    if n > 0 {
      BaseAdd(m, n - 1);
      Regroup(256, Base(m), Base(n - 1));
    }
  }

  lemma Regroup(a: nat, b: nat, c: nat)
    ensures a * (b * c) == b * (a * c)
  {
  }

  lemma {:induction false} NumberSplit(a: Bytes, b: Bytes)
    ensures Number(a + b) == Number(a) * Base(|b|) + Number(b)
    decreases |b|
  {
    if b == [] {
      assert a + b == a;
    } else {
      var n := |b| - 1;
      NumberSplit(a, b[..n]);
      assert (a + b)[..|a + b| - 1] == a + b[..n];
      Regroup(256, Number(a), Base(n));
    }
  }

  /** Bytes spell zero exactly when all are zero, and the largest number exactly when all are 255. */
  lemma {:induction false} NumberExtremes(b: Bytes)
    ensures Number(b) == 0 <==> forall i :: 0 <= i < |b| ==> b[i] == 0
    ensures Number(b) == Base(|b|) - 1 <==> forall i :: 0 <= i < |b| ==> b[i] == 255
  {
    if b != [] {
      var n := |b| - 1;
      NumberExtremes(b[..n]);
      NumberBound(b[..n]);
    }
  }

  /** The top bit of the first byte tells whether the number is in the upper half. */
  lemma {:induction false} TopBit(b: Bytes)
    requires b != []
    ensures b[0] >= 128 <==> 2 * Number(b) >= Base(|b|)
  {
    var rest := b[1..];
    assert b == [b[0]] + rest;
    NumberSplit([b[0]], rest);
    assert Number([b[0]]) == b[0] by { assert [b[0]][..0] == []; }
    NumberBound(rest);
    TopDigit(b[0], Base(|rest|), Number(rest));
  }

  lemma TopDigit(d: nat, base: nat, rest: nat)
    requires d < 256 && rest < base
    ensures d >= 128 <==> 2 * (d * base + rest) >= 256 * base
  {
    if d >= 128 { U256Arith.MulMono(128, d, base); } else { U256Arith.MulMono(d + 1, 128, base); }
  }

  /** A word cut above its last `k` bytes. */
  lemma Cut(w: Word, k: nat)
    requires k <= 32
    ensures Number(w) == Number(w[..32 - k]) * Base(k) + Number(w[32 - k..])
    ensures Number(w[..32 - k]) < Base(32 - k) && Number(w[32 - k..]) < Base(k)
    ensures Base(32) == Base(32 - k) * Base(k)
  {
    assert w == w[..32 - k] + w[32 - k..];
    NumberSplit(w[..32 - k], w[32 - k..]);
    NumberBound(w[..32 - k]);
    NumberBound(w[32 - k..]);
    BaseAdd(32 - k, k);
  }

  lemma Digits(high: nat, base: nat, low: nat)
    requires low < base
    ensures high * base + low < base <==> high == 0
  {
    if high > 0 { U256Arith.MulMono(1, high, base); }
  }

  /** The bytes above the last `k` are all zero, or all 255, exactly when they spell so. */
  lemma HighBytes(w: Word, k: nat)
    requires k <= 32
    ensures (forall i :: 0 <= i < 32 - k ==> w[i] == 0) <==> Number(w[..32 - k]) == 0
    ensures (forall i :: 0 <= i < 32 - k ==> w[i] == 255) <==> Number(w[..32 - k]) == Base(32 - k) - 1
  {
    hide Number, Base;
    var high := w[..32 - k];
    NumberExtremes(high);
    assert forall i :: 0 <= i < 32 - k ==> high[i] == w[i];
  }

  lemma {:induction false} UintFits(w: Word, k: nat)
    requires k <= 32
    ensures (forall i :: 0 <= i < 32 - k ==> w[i] == 0) <==> Number(w) < Base(k)
  {
    hide Number, Base;
    HighBytes(w, k);
    Cut(w, k);
    Digits(Number(w[..32 - k]), Base(k), Number(w[32 - k..]));
  }

  /** An unsigned word passes exactly when its width is valid and its number fits the width. */
  lemma {:induction false} UintRange(w: Word, bits: nat)
    ensures CheckUint(w, bits).Ok? <==> ValidBits(bits) && Number(w) < Base(bits / 8)
  {
    hide Number, Base;
    if ValidBits(bits) { UintFits(w, bits / 8); }
  }

  /** In numbers: a value whose low part has the sign bit `upper` lies in the signed range of the low
      part exactly when its high part repeats that bit. */
  lemma SignRepeats(high: nat, top: nat, base: nat, low: nat, upper: bool, negative: bool)
    requires high < top && low < base && (upper <==> 2 * low >= base)
    requires negative <==> 2 * (high * base + low) >= top * base
    ensures var v := if negative then high * base + low - top * base else high * base + low;
            0 - base <= 2 * v < base <==> high == if upper then top - 1 else 0
  {
    var x, t := high * base, top * base;
    if high == 0 {
      U256Arith.MulMono(1, top, base);
      if 1 < top { U256Arith.MulMono(2, top, base); }
    } else if high == top - 1 {
      assert x == t - base;
      U256Arith.MulMono(1, high, base);
    } else {
      U256Arith.MulMono(1, high, base);
      U256Arith.MulMono(high + 2, top, base);
      assert (high + 2) * base == x + 2 * base;
    }
  }

  lemma {:induction false} IntFits(w: Word, k: nat)
    requires 0 < k <= 32
    ensures var fill := if w[32 - k] >= 128 then 255 else 0;
            (forall i :: 0 <= i < 32 - k ==> w[i] == fill) <==> 0 - Base(k) <= 2 * Signed(w) < Base(k)
  {
    hide Number, Base;
    var high, low := w[..32 - k], w[32 - k..];
    HighBytes(w, k);
    Cut(w, k);
    TopBit(low);
    TopBit(w);
    assert low[0] == w[32 - k];
    SignRepeats(Number(high), Base(32 - k), Base(k), Number(low), low[0] >= 128, w[0] >= 128);
  }

  /** A signed word passes exactly when its width is valid and its two's complement value fits it. */
  lemma {:induction false} IntRange(w: Word, bits: nat)
    ensures CheckInt(w, bits).Ok? <==> ValidBits(bits) && 0 - Base(bits / 8) <= 2 * Signed(w) < Base(bits / 8)
  {
    hide Number, Base, Signed;
    if ValidBits(bits) { IntFits(w, bits / 8); }
  }
}
