/** Restoring long division on limbs, and saturating multiplication checked by dividing back. */
module U256Division {
  import opened Types
  import opened U256Arith

  function Two(n: nat): (r: nat)
    ensures r > 0
  {
    if n == 0 then 1 else 2 * Two(n - 1)
  }

  lemma {:induction false} TwoAdd(m: nat, n: nat)
    ensures Two(m + n) == Two(m) * Two(n)
  {
    if n > 0 {
      assert Two(n) == 2 * Two(n - 1) && Two(m + n) == 2 * Two(m + (n - 1));
      hide Two;
      TwoAdd(m, n - 1);
      Doubled(Two(m), Two(n - 1));
    }
  }

  lemma Doubled(x: nat, y: nat)
    ensures 2 * (x * y) == x * (2 * y)
  {
  }

  lemma TwoWord()
    ensures Two(64) == BASE
  {
    assert Two(2) == 4 && Two(4) == 4 * Two(2) && Two(6) == 4 * Two(4) && Two(8) == 4 * Two(6);
    hide Two;
    TwoAdd(8, 8);
    TwoAdd(16, 16);
    TwoAdd(32, 32);
  }

  lemma {:induction false} PowIsTwo(w: nat)
    ensures Pow(w) == Two(64 * w)
  {
    if w > 0 {
      PowIsTwo(w - 1);
      TwoWord();
      TwoAdd(64, 64 * (w - 1));
    }
  }

  lemma TwoNext(n: nat)
    ensures Two(n + 1) == 2 * Two(n)
  {
  }

  // ---------------------------------------------------------------- division facts

  lemma MulCancel(x: int, y: int, d: nat)
    requires x * d < y * d
    ensures x < y
  {
  }

  lemma DivUnique(x: nat, d: nat, q: nat, r: nat)
    requires x == q * d + r && r < d
    ensures x / d == q && x % d == r
  {
    var q', r' := x / d, x % d;
    assert q' * d + r' == x;
    Distribute(d, q, 1);
    Distribute(d, q', 1);
    MulCancel(q', q + 1, d);
    MulCancel(q, q' + 1, d);
  }

  lemma Regroup(z: nat, q: nat, t: nat, p: nat, pq: nat)
    requires pq == p * q
    ensures (z * q + t) * p == z * pq + t * p
  {
    Distribute(p, z * q, t);
    assert (z * q) * p == z * (p * q);
  }

  lemma DivDiv(x: nat, p: nat, q: nat, pq: nat)
    requires p > 0 && q > 0 && pq == p * q
    ensures (x / p) / q == x / pq
  {
    var y, r := DivMod(x, p);
    var z, t := DivMod(y, q);
    TwoSteps(x, p, q, pq, y, r, z, t);
  }

  lemma DivMod(x: nat, d: nat) returns (q: nat, r: nat)
    requires d > 0
    ensures q == x / d && r < d && x == q * d + r
  {
    q, r := x / d, x % d;
  }

  lemma TwoSteps(x: nat, p: nat, q: nat, pq: nat, y: nat, r: nat, z: nat, t: nat)
    requires x == y * p + r && y == z * q + t && r < p && t < q && pq == p * q
    ensures x / pq == z
  {
    Regroup(z, q, t, p, pq);
    SmallRest(t, r, p, q, pq);
    DivUnique(x, pq, z, t * p + r);
  }

  lemma SmallRest(t: nat, r: nat, p: nat, q: nat, pq: nat)
    requires t < q && r < p && pq == p * q
    ensures t * p + r < pq
  {
    MulMono(t + 1, q, p);
    Distribute(p, t, 1);
  }

  lemma DropLow(low: nat, p: nat, m: nat)
    requires low < p
    ensures (low + p * m) / p == m
  {
    DivUnique(low + p * m, p, m, low);
  }

  /** Whole multiples of an even number of `p`s do not touch the bit at `p`. */
  lemma HighBitsEven(x: nat, p: nat, e: nat, h: nat)
    requires p > 0
    ensures ((x + (p * (2 * e)) * h) / p) % 2 == (x / p) % 2
  {
    var q, r := x / p, x % p;
    assert x == q * p + r;
    assert (p * (2 * e)) * h == (2 * (e * h)) * p;
    assert (q + 2 * (e * h)) * p == q * p + (2 * (e * h)) * p;
    DivUnique(x + (p * (2 * e)) * h, p, q + 2 * (e * h), r);
    assert (q + 2 * (e * h)) % 2 == q % 2;
  }

  /** Bit `64 * i + k` of the number is bit `k` of limb `i`. */
  lemma BitOfLimb(w: seq<U64>, i: nat, k: nat)
    requires i < |w| && k < 64
    ensures (Val(w) / Two(64 * i + k)) % 2 == (w[i] / Two(k)) % 2
  {
    ValSplit(w, i);
    ValBound(w[..i]);
    ValCons(w[i], w[i + 1..]);
    assert w[i..] == [w[i]] + w[i + 1..];
    PowIsTwo(i);
    TwoAdd(64 * i, k);
    TwoWord();
    TwoAdd(k, 64 - k);
    TwoNext(63 - k);
    hide Val, Pow, Two;
    var p, high := Pow(i), Val(w[i + 1..]);
    DropLow(Val(w[..i]), p, w[i] + BASE * high);
    DivDiv(Val(w), p, Two(k), Two(64 * i + k));
    HighBitsEven(w[i], Two(k), Two(63 - k), high);
  }

  // ---------------------------------------------------------------- single bits of a limb

  /** `x | (1 << k)`. */
  function OrBit(x: U64, k: nat): (r: U64)
    requires k < 64
  {
    if (x / Two(k)) % 2 == 1 then x else
      OrBitFits(x, k);
      x + Two(k)
  }

  lemma {:induction false} OrBitFits(x: U64, k: nat)
    requires k < 64 && (x / Two(k)) % 2 == 0
    ensures x + Two(k) < BASE
  {
    TwoWord();
    TwoAdd(k, 64 - k);
    TwoNext(63 - k);
    hide Two;
    RoomForBit(x, Two(k), Two(63 - k));
  }

  lemma RoomForBit(x: nat, p: nat, e: nat)
    requires p > 0 && x < p * (2 * e) && (x / p) % 2 == 0
    ensures x + p < p * (2 * e)
  {
    var q, r := x / p, x % p;
    assert x == q * p + r;
    MulCancel(q, 2 * e, p);
    MulMono(q + 2, 2 * e, p);
    Distribute(p, q, 2);
  }

  /** Setting a clear bit of a limb adds that power of two to the number. */
  lemma {:induction false} SetClearBit(w: seq<U64>, i: nat, k: nat)
    requires i < |w| && k < 64 && (Val(w) / Two(64 * i + k)) % 2 == 0
    ensures Val(w[i := OrBit(w[i], k)]) == Val(w) + Two(64 * i + k)
  {
    hide Val, Pow, Two;
    BitOfLimb(w, i, k);
    var x := w[i] + Two(k);
    assert OrBit(w[i], k) == x;
    hide OrBit;
    ValUpdate(w, i, x);
    PowIsTwo(i);
    TwoAdd(64 * i, k);
    assert (x - w[i]) * Pow(i) == Two(k) * Pow(i);
  }

  // ---------------------------------------------------------------- long division

  /** One more bit of the dividend. */
  lemma NextBit(a: nat, n: nat)
    ensures a / Two(n) == 2 * (a / Two(n + 1)) + (a / Two(n)) % 2
  {
    TwoNext(n);
    hide Two;
    DivDiv(a, Two(n), 2, Two(n + 1));
  }

  lemma DivideStep(d: nat, q: nat, r: nat, c: nat, bit: nat)
    requires q * d + r == c
    ensures (2 * q) * d + (2 * r + bit) == 2 * c + bit
    ensures (2 * q + 1) * d + (2 * r + bit - d) == 2 * c + bit
  {
    assert (2 * q) * d == 2 * (q * d);
    assert (2 * q + 1) * d == (2 * q) * d + d;
  }

  lemma NoBitYet(v: nat, q: nat, n: nat)
    requires v == q * Two(n + 1)
    ensures (v / Two(n)) % 2 == 0 && v == (2 * q) * Two(n) && v + Two(n) == (2 * q + 1) * Two(n)
  {
    TwoNext(n);
    hide Two;
    assert q * (2 * Two(n)) == (2 * q) * Two(n);
    assert (2 * q + 1) * Two(n) == (2 * q) * Two(n) + Two(n);
    DivUnique(v, Two(n), 2 * q, 0);
  }

  /** What one round of the division does to the numbers: the remainder doubles and takes the
      next bit, and the divisor is then subtracted once or not at all. */
  lemma BitStep(a: Words, d: nat, n: nat, q: nat, rem: nat, quotient: nat, bit: bool)
    requires n < 256 && bit == ((a[n / 64] / Two(n % 64)) % 2 == 1)
    requires q * d + rem == Val(a) / Two(n + 1) && quotient == q * Two(n + 1)
    ensures var next := 2 * rem + (if bit then 1 else 0);
            && (2 * q) * d + next == Val(a) / Two(n)
            && (2 * q + 1) * d + (next - d) == Val(a) / Two(n)
    ensures (quotient / Two(n)) % 2 == 0 && quotient == (2 * q) * Two(n)
    ensures quotient + Two(n) == (2 * q + 1) * Two(n)
  {
    hide Val, Two;
    assert n == 64 * (n / 64) + n % 64;
    BitOfLimb(a, n / 64, n % 64);
    NextBit(Val(a), n);
    DivideStep(d, q, rem, Val(a) / Two(n + 1), if bit then 1 else 0);
    NoBitYet(quotient, q, n);
  }

  lemma EvenLimb(w: seq<U64>)
    requires 0 < |w| && Val(w) % 2 == 0
    ensures Val(w[0 := OrBit(w[0], 0)]) == Val(w) + 1
  {
    assert Two(0) == 1 && Val(w) / 1 == Val(w);
    SetClearBit(w, 0, 0);
  }

  /** Brings the next bit of the dividend into the remainder; true when the value left 256 bits. */
  method ShiftIn(remainder: array<U64>, bit: bool) returns (overflowed: bool)
    requires remainder.Length == 4
    modifies remainder
    ensures Val(remainder[..]) + (if overflowed then MODULUS else 0)
            == 2 * old(Val(remainder[..])) + (if bit then 1 else 0)
  {
    hide Val;
    var carry := ShiftLeft1(remainder);
    overflowed := carry == 1;
    if bit {
      EvenLimb(remainder[..]);
      ghost var r0 := remainder[..];
      remainder[0] := OrBit(remainder[0], 0);
      assert remainder[..] == r0[0 := OrBit(r0[0], 0)];
    }
  }

  lemma TwoWords()
    ensures Two(256) == MODULUS
  {
    PowFour();
    PowIsTwo(4);
  }

  /** `u256_div`: exact floor division, zero for a zero divisor. */
  method Div(a: Words, b: Words) returns (r: Words)
    ensures Val(b) == 0 ==> Val(r) == 0
    ensures Val(b) > 0 ==> Val(r) == Val(a) / Val(b)
  {
    hide Val, Two, Pow;
    ZeroWords();
    if b == [0, 0, 0, 0] {
      return [0, 0, 0, 0];
    }
    if Val(b) == 0 { ValInjective(b, [0, 0, 0, 0]); }
    var below := Gt(b, a);
    if below {
      DivUnique(Val(a), Val(b), 0, Val(a));
      return [0, 0, 0, 0];
    }
    var quotient := new U64[4](_ => 0);
    var remainder := new U64[4](_ => 0);
    assert quotient[..] == [0, 0, 0, 0] && remainder[..] == [0, 0, 0, 0];
    ghost var q := 0;
    TwoWords();
    WordsBound(a);
    DivUnique(Val(a), MODULUS, 0, Val(a));
    for n := 256 downto 0
      invariant Val(remainder[..]) < Val(b)
      invariant q * Val(b) + Val(remainder[..]) == Val(a) / Two(n)
      invariant Val(quotient[..]) == q * Two(n)
    {
      assert n == 64 * (n / 64) + n % 64;
      var bit := (a[n / 64] / Two(n % 64)) % 2 == 1;
      BitStep(a, Val(b), n, q, Val(remainder[..]), Val(quotient[..]), bit);
      WordsBound(b);
      var overflowed := ShiftIn(remainder, bit);
      var less := Gt(b, remainder[..]);
      if overflowed || !less {
        SubAssign(remainder, b);
        ghost var before := quotient[..];
        SetClearBit(before, n / 64, n % 64);
        quotient[n / 64] := OrBit(quotient[n / 64], n % 64);
        assert quotient[..] == before[n / 64 := OrBit(before[n / 64], n % 64)];
        q := 2 * q + 1;
      } else {
        q := 2 * q;
      }
    }
    TwoZero();
    DivUnique(Val(a), Val(b), q, Val(remainder[..]));
    return quotient[..];
  }

  lemma ZeroWords()
    ensures Val([0, 0, 0, 0]) == 0
  {
    ValZero([0, 0, 0, 0]);
  }

  lemma TwoZero()
    ensures Two(0) == 1 && forall x: nat :: x / Two(0) == x && x * Two(0) == x
  {
  }

  // ---------------------------------------------------------------- saturating product

  const MAX_WORDS: Words := [U64_MAX, U64_MAX, U64_MAX, U64_MAX]

  lemma MaxWords()
    ensures Val(MAX_WORDS) == U256_MAX
  {
    ValCons(U64_MAX, []);
    ValCons(U64_MAX, [U64_MAX]);
    ValCons(U64_MAX, [U64_MAX, U64_MAX]);
    ValCons(U64_MAX, [U64_MAX, U64_MAX, U64_MAX]);
    assert [U64_MAX] + [] == [U64_MAX];
    assert [U64_MAX] + [U64_MAX] == [U64_MAX, U64_MAX];
    assert [U64_MAX] + [U64_MAX, U64_MAX] == [U64_MAX, U64_MAX, U64_MAX];
    assert [U64_MAX] + [U64_MAX, U64_MAX, U64_MAX] == MAX_WORDS;
  }

  /** Dividing the wrapped product back recovers the factor exactly when nothing wrapped. */
  lemma DivideBack(a: nat, b: nat)
    requires 0 < b
    ensures ((a * b) % MODULUS) / b == a <==> a * b < MODULUS
  {
    var ab := a * b;
    if ab < MODULUS {
      DivUnique(ab, b, a, 0);
    } else {
      var wrapped := ab % MODULUS;
      assert (wrapped / b) * b <= wrapped < ab;
      MulCancel(wrapped / b, a, b);
    }
  }

  /** `u256_mul_sat`: the product, or the largest value when the product does not fit. */
  method MulSat(a: Words, b: Words) returns (r: Words)
    ensures Val(r) == if Val(a) * Val(b) <= U256_MAX then Val(a) * Val(b) else U256_MAX
  {
    hide Val;
    ZeroWords();
    if a == [0, 0, 0, 0] || b == [0, 0, 0, 0] {
      return [0, 0, 0, 0];
    }
    if Val(b) == 0 { ValInjective(b, [0, 0, 0, 0]); }
    var product := Mul(a, b);
    var back := Div(product, b);
    DivideBack(Val(a), Val(b));
    if Val(back) == Val(a) { ValInjective(back, a); }
    MaxWords();
    if back == a {
      return product;
    } else {
      return MAX_WORDS;
    }
  }
}
