/** 256-bit consensus arithmetic on four 64-bit limbs, least significant first. Shifts and masks of
    machine words are written as division and remainder by powers of two. */
module U256Arith {
  import opened Types

  const BASE := 0x1_0000_0000_0000_0000
  const MODULUS := U256_MAX + 1

  type Words = w: seq<U64> | |w| == 4 witness [0, 0, 0, 0]

  function Pow(n: nat): (r: nat)
    ensures r > 0
  {
    if n == 0 then 1 else BASE * Pow(n - 1)
  }

  /** The number the limbs spell. */
  function Val(w: seq<U64>): nat {
    if w == [] then 0 else Val(w[..|w| - 1]) + w[|w| - 1] * Pow(|w| - 1)
  }

  lemma PowAdd(m: nat, n: nat)
    ensures Pow(m + n) == Pow(m) * Pow(n)
  {
    if n > 0 {
      PowAdd(m, n - 1);
      assert Pow(m + n) == BASE * (Pow(m) * Pow(n - 1)) == Pow(m) * (BASE * Pow(n - 1));
    }
  }

  lemma PowFour()
    ensures Pow(4) == MODULUS
  {
    assert Pow(1) == BASE * Pow(0);
    assert Pow(2) == BASE * Pow(1);
    assert Pow(3) == BASE * Pow(2);
    assert Pow(4) == BASE * Pow(3);
  }

  lemma {:induction false} ValBound(w: seq<U64>)
    ensures Val(w) < Pow(|w|)
  {
    if w != [] {
      var n := |w| - 1;
      ValBound(w[..n]);
      MulMono(w[n], BASE - 1, Pow(n));
      assert (BASE - 1) * Pow(n) + Pow(n) == BASE * Pow(n);
    }
  }

  lemma MulMono(x: nat, y: nat, z: nat)
    requires x <= y
    ensures x * z <= y * z
  {
  }

  /** The low `i` limbs and the rest. */
  lemma {:induction false} ValSplit(w: seq<U64>, i: nat)
    requires i <= |w|
    ensures Val(w) == Val(w[..i]) + Pow(i) * Val(w[i..])
    decreases |w|
  {
    if i == |w| {
      assert w[..i] == w && w[i..] == [];
    } else {
      var n := |w| - 1;
      ValSplit(w[..n], i);
      assert w[..n][..i] == w[..i] && w[..n][i..] == w[i..][..n - i] && w[i..][n - i] == w[n];
      PowAdd(i, n - i);
      SplitStep(Pow(i), Val(w[i..][..n - i]), w[n], Pow(n - i), Pow(n));
    }
  }

  lemma SplitStep(p: nat, mid: nat, x: nat, q: nat, pq: nat)
    requires pq == p * q
    ensures p * mid + x * pq == p * (mid + x * q)
  {
    assert x * pq == p * (x * q);
  }

  lemma Distribute(x: int, y: int, z: int)
    ensures x * y + x * z == x * (y + z)
  {
  }

  /** Changing limb `i` changes the number by the difference at that place. */
  lemma {:induction false} ValUpdate(w: seq<U64>, i: nat, x: U64)
    requires i < |w|
    ensures Val(w[i := x]) == Val(w) + (x - w[i]) * Pow(i)
    decreases |w|
  {
    var n := |w| - 1;
    if i == n {
      assert w[i := x][..n] == w[..n];
      assert x * Pow(n) == w[n] * Pow(n) + (x - w[n]) * Pow(n) by { Distribute(Pow(n), w[n], x - w[n]); }
    } else {
      assert w[i := x][..n] == w[..n][i := x];
      ValUpdate(w[..n], i, x);
    }
  }

  lemma {:induction false} ValInjective(v: seq<U64>, w: seq<U64>)
    requires |v| == |w| && Val(v) == Val(w)
    ensures v == w
  {
    if v != [] {
      var n := |v| - 1;
      ValBound(v[..n]);
      ValBound(w[..n]);
      TopDecides(v[n], w[n], Val(v[..n]), Val(w[..n]), Pow(n));
      TopDecides(w[n], v[n], Val(w[..n]), Val(v[..n]), Pow(n));
      ValInjective(v[..n], w[..n]);
      assert v == v[..n] + [v[n]] && w == w[..n] + [w[n]];
    }
  }

  /** A larger leading limb makes a larger number, whatever follows. */
  lemma TopDecides(x: nat, y: nat, lowX: nat, lowY: nat, p: nat)
    requires lowX < p && lowY < p
    ensures x < y ==> lowX + x * p < lowY + y * p
  {
    if x < y {
      MulMono(x + 1, y, p);
      assert (x + 1) * p == x * p + p;
    }
  }

  /** Limbs of a number. */
  function Limbs(n: nat, k: nat): (w: seq<U64>)
    requires n < Pow(k)
    ensures |w| == k && Val(w) == n
  {
    if k == 0 then []
    else
      var low, high := n % BASE, Limbs(n / BASE, k - 1);
      ValCons(low, high);
      [low] + high
  }

  lemma {:induction false} ValCons(x: U64, w: seq<U64>)
    ensures Val([x] + w) == x + BASE * Val(w)
  {
    ValSplit([x] + w, 1);
    assert ([x] + w)[..1] == [x] && ([x] + w)[1..] == w && [x][..0] == [];
    assert Pow(1) == BASE * Pow(0);
  }

  function FromNat(n: U256): (w: Words)
    ensures Val(w) == n
  {
    PowFour();
    Limbs(n, 4)
  }

  lemma {:induction false} WordsBound(w: Words)
    ensures Val(w) <= U256_MAX
  {
    ValBound(w);
    PowFour();
  }

  // ---------------------------------------------------------------- comparison

  lemma {:induction false} TopWordsDecide(a: Words, b: Words, i: nat)
    requires i < 4 && a[i + 1..] == b[i + 1..] && a[i] < b[i]
    ensures Val(a) < Val(b)
  {
    ValSplit(a, i + 1);
    ValSplit(b, i + 1);
    ValBound(a[..i]);
    ValBound(b[..i]);
    assert a[..i + 1][..i] == a[..i] && b[..i + 1][..i] == b[..i];
    TopDecides(a[i], b[i], Val(a[..i]), Val(b[..i]), Pow(i));
  }

  method Gt(a: Words, b: Words) returns (r: bool)
    ensures r <==> Val(a) > Val(b)
  {
    for i := 4 downto 0
      invariant a[i..] == b[i..]
    {
      if a[i] > b[i] {
        TopWordsDecide(b, a, i);
        return true;
      } else if a[i] < b[i] {
        TopWordsDecide(a, b, i);
        return false;
      }
    }
    assert a == a[0..] && b == b[0..];
    return false;
  }

  method Min(a: Words, b: Words) returns (r: Words)
    ensures Val(r) == if Val(a) <= Val(b) then Val(a) else Val(b)
  {
    for i := 4 downto 0
      invariant a[i..] == b[i..]
    {
      if a[i] < b[i] {
        TopWordsDecide(a, b, i);
        return a;
      } else if a[i] > b[i] {
        TopWordsDecide(b, a, i);
        return b;
      }
    }
    assert a == a[0..] && b == b[0..];
    return a;
  }

  method Max(a: Words, b: Words) returns (r: Words)
    ensures Val(r) == if Val(a) >= Val(b) then Val(a) else Val(b)
  {
    for i := 4 downto 0
      invariant a[i..] == b[i..]
    {
      if a[i] > b[i] {
        TopWordsDecide(b, a, i);
        return a;
      } else if a[i] < b[i] {
        TopWordsDecide(a, b, i);
        return b;
      }
    }
    assert a == a[0..] && b == b[0..];
    return a;
  }

  // ---------------------------------------------------------------- addition, subtraction, shift

  /** One more limb of a running prefix. */
  lemma ValSnoc(w: seq<U64>, i: nat)
    requires i < |w|
    ensures Val(w[..i + 1]) == Val(w[..i]) + w[i] * Pow(i)
  {
    assert w[..i + 1][..i] == w[..i];
  }

  lemma ScaleStep(x: int, y: int, z: int, p: nat, q: nat)
    requires q == BASE * p && x == y + BASE * z
    ensures x * p == y * p + z * q
  {
    assert x * p == y * p + (BASE * z) * p;
    assert (BASE * z) * p == z * (BASE * p);
  }

  /** `u256_shl1`: doubles in place and returns the bit shifted out. */
  method ShiftLeft1(v: array<U64>) returns (carry: U64)
    requires v.Length == 4
    modifies v
    ensures carry <= 1 && Val(v[..]) + carry * MODULUS == 2 * old(Val(v[..]))
  {
    ghost var v0 := v[..];
    carry := 0;
    for i := 0 to 4
      invariant carry <= 1 && v[i..] == v0[i..]
      invariant Val(v[..i]) + carry * Pow(i) == 2 * Val(v0[..i])
    {
      hide Val, Pow;
      ghost var low, c := v[..i], carry;
      assert v[i] == v0[i];
      var next := v[i] / 0x8000_0000_0000_0000;
      v[i] := v[i] * 2 % BASE + carry;
      carry := next;
      assert v[..i + 1][..i] == low && v[..][..i + 1] == v[..i + 1];
      ValSnoc(v0, i);
      ValSnoc(v[..i + 1], i);
      PowNext(i);
      ShiftStep(v0[i], c, v[i], carry, Pow(i), Pow(i + 1));
    }
    PowFour();
    assert v[..4] == v[..] && v0[..4] == v0;
  }

  lemma PowNext(i: nat)
    ensures Pow(i + 1) == BASE * Pow(i)
  {
  }

  lemma ShiftStep(x: int, c: int, y: int, z: int, p: nat, q: nat)
    requires q == BASE * p && 2 * x + c == y + BASE * z
    ensures 2 * (x * p) + c * p == y * p + z * q
  {
    ScaleStep(2 * x + c, y, z, p, q);
    Distribute(p, 2 * x, c);
  }

  /** `u256_sub_assign`: subtracts in place, wrapping below zero. */
  method SubAssign(a: array<U64>, b: Words)
    requires a.Length == 4
    modifies a
    ensures Val(a[..]) == old(Val(a[..])) - Val(b) + (if old(Val(a[..])) < Val(b) then MODULUS else 0)
  {
    ghost var a0 := a[..];
    var borrow: U64 := 0;
    for i := 0 to 4
      invariant borrow <= 1 && a[i..] == a0[i..]
      invariant Val(a[..i]) == Val(a0[..i]) - Val(b[..i]) + borrow * Pow(i)
    {
      hide Val, Pow;
      ghost var low, high, c := a[..i], a[i..], borrow;
      assert a[i] == high[0] == a0[i];
      var d1 := if a[i] < b[i] then a[i] + BASE - b[i] else a[i] - b[i];
      var b1 := if a[i] < b[i] then 1 else 0;
      var d2 := if d1 < borrow then d1 + BASE - borrow else d1 - borrow;
      var b2 := if d1 < borrow then 1 else 0;
      a[i] := d2;
      borrow := b1 + b2;
      assert a[..i + 1][..i] == low && a[i + 1..] == high[1..] == a0[i + 1..];
      ValSnoc(a0, i);
      ValSnoc(b, i);
      ValSnoc(a[..i + 1], i);
      PowNext(i);
      BorrowStep(a0[i], b[i], c, a[i], borrow, Pow(i), Pow(i + 1));
    }
    PowFour();
    assert a[..4] == a[..] && a0[..4] == a0 && b[..4] == b;
    ValBound(a[..]);
    WordsBound(b);
  }

  lemma BorrowStep(x: int, y: int, c: int, d: int, borrow: int, p: nat, q: nat)
    requires q == BASE * p && x - y - c == d - BASE * borrow
    ensures x * p - y * p - c * p == d * p - borrow * q
  {
    ScaleStep(x - y - c, d, -borrow, p, q);
    Distribute(p, x - y, -c);
    Distribute(p, x, -y);
    assert (-borrow) * q == -(borrow * q);
  }

  lemma CarryStep(x: int, y: int, c: int, d: int, carry: int, p: nat, q: nat)
    requires q == BASE * p && x + y + c == d + BASE * carry
    ensures x * p + y * p + c * p == d * p + carry * q
  {
    ScaleStep(x + y + c, d, carry, p, q);
    Distribute(p, x + y, c);
    Distribute(p, x, y);
  }

  /** `u256_add`: wraps at 2^256. */
  method Add(a: Words, b: Words) returns (r: Words)
    ensures Val(r) == (Val(a) + Val(b)) % MODULUS
  {
    var sums: seq<U64> := [];
    var carry: U64 := 0;
    for i := 0 to 4
      invariant carry <= 1 && |sums| == i
      invariant Val(sums) + carry * Pow(i) == Val(a[..i]) + Val(b[..i])
    {
      hide Val, Pow;
      ghost var low, c := sums, carry;
      var sum := a[i] + b[i] + carry;
      sums := sums + [sum % BASE];
      carry := sum / BASE;
      assert sums[..i] == low;
      ValSnoc(a, i);
      ValSnoc(b, i);
      assert sums[..i + 1] == sums;
      ValSnoc(sums, i);
      PowNext(i);
      CarryStep(a[i], b[i], c, sums[i], carry, Pow(i), Pow(i + 1));
    }
    r := sums;
    PowFour();
    assert a[..4] == a && b[..4] == b;
    WordsBound(r);
    LowPart(Val(r), carry);
  }

  // ---------------------------------------------------------------- multiplication

  /** Replacing limb `k` by the low half of `cur` and carrying the high half adds exactly what
      `cur` exceeds the old limb by. */
  lemma ProductStep(r: seq<U64>, k: nat, cur: nat)
    requires k < |r|
    ensures Val(r[k := cur % BASE]) + (cur / BASE) * Pow(k + 1) == Val(r) + (cur - r[k]) * Pow(k)
  {
    ValUpdate(r, k, cur % BASE);
    PowNext(k);
    hide Val, Pow;
    ScaleStep(cur - r[k], cur % BASE - r[k], cur / BASE, Pow(k), Pow(k + 1));
  }

  lemma RowStep(x: nat, lo: nat, y: nat, pi: nat, pj: nat, carry: nat, p: nat)
    requires p == pi * pj
    ensures (x * y + carry) * p + x * lo * pi == carry * p + x * (lo + y * pj) * pi
  {
    assert (x * y + carry) * p == (x * y) * p + carry * p;
    assert (x * y) * (pi * pj) == x * (y * pj) * pi;
    assert x * (lo + y * pj) * pi == (x * lo + x * (y * pj)) * pi;
  }

  lemma RowTurn(v: nat, r: seq<U64>, i: nat, j: nat, x: U64, b: Words, carry: nat, cur: nat)
    requires i + j < |r| && j < 4 && cur == x * b[j] + r[i + j] + carry
    requires Val(r) + carry * Pow(i + j) == v + x * Val(b[..j]) * Pow(i)
    ensures Val(r[i + j := cur % BASE]) + (cur / BASE) * Pow(i + j + 1) == v + x * Val(b[..j + 1]) * Pow(i)
  {
    hide Val, Pow;
    ProductStep(r, i + j, cur);
    ValSnoc(b, j);
    PowAdd(i, j);
    RowStep(x, Val(b[..j]), b[j], Pow(i), Pow(j), carry, Pow(i + j));
  }

  /** One row of the schoolbook product, added into `w` at limb `i`. The comment's promise that
      every intermediate fits 128 bits is the assertion on `cur`. */
  method AddRow(w: seq<U64>, i: nat, x: U64, b: Words) returns (r: seq<U64>)
    requires |w| == 8 && i < 4 && Val(w) + x * Val(b) * Pow(i) < Pow(8)
    ensures |r| == 8 && Val(r) == Val(w) + x * Val(b) * Pow(i)
  {
    hide Val, Pow;
    r := w;
    var carry: U64 := 0;
    RowStart(i, x);
    for j := 0 to 4
      invariant |r| == 8 && Val(r) + carry * Pow(i + j) == Val(w) + x * Val(b[..j]) * Pow(i)
    {
      var cur := x * b[j] + r[i + j] + carry;
      assert cur < BASE * BASE by { MulMono(x, BASE - 1, b[j]); }
      RowTurn(Val(w), r, i, j, x, b, carry, cur);
      r := r[i + j := cur % BASE];
      carry := cur / BASE;
    }
    assert b[..4] == b;
    var k := i + 4;
    while carry != 0 && k < 8
      invariant i + 4 <= k <= 8 && |r| == 8
      invariant Val(r) + carry * Pow(k) == Val(w) + x * Val(b) * Pow(i)
    {
      var cur := r[k] + carry;
      ProductStep(r, k, cur);
      r := r[k := cur % BASE];
      carry := cur / BASE;
      k := k + 1;
    }
    if carry != 0 {
      MulMono(1, carry, Pow(8));
    }
  }

  lemma {:induction false} RowStart(i: nat, x: nat)
    ensures x * Val([]) * Pow(i) == 0
  {
  }

  /** `u256_mul`: the product, low 256 bits kept. */
  method Mul(a: Words, b: Words) returns (r: Words)
    ensures Val(r) == (Val(a) * Val(b)) % MODULUS
  {
    var w: seq<U64> := [0, 0, 0, 0, 0, 0, 0, 0];
    ValZero(w);
    assert Val(a[..0]) == 0;
    for i := 0 to 4
      invariant |w| == 8 && Val(w) == Val(a[..i]) * Val(b)
    {
      hide Val, Pow;
      ValSnoc(a, i);
      RowSum(Val(a[..i]), a[i], Pow(i), Val(b));
      if a[i] != 0 {
        ProductFits(a, b, i);
        w := AddRow(w, i, a[i], b);
      }
    }
    assert a[..4] == a;
    r := w[..4];
    LowWords(w);
  }

  lemma {:induction false} LowWords(w: seq<U64>)
    requires |w| >= 4
    ensures Val(w[..4]) == Val(w) % MODULUS
  {
    PowFour();
    ValSplit(w, 4);
    WordsBound(w[..4]);
    hide Val, Pow;
    LowPart(Val(w[..4]), Val(w[4..]));
  }

  lemma LowPart(low: nat, high: nat)
    requires low < MODULUS
    ensures (low + MODULUS * high) % MODULUS == low
  {
  }

  lemma {:induction false} ValZero(w: seq<U64>)
    requires forall i :: 0 <= i < |w| ==> w[i] == 0
    ensures Val(w) == 0
  {
    if w != [] { ValZero(w[..|w| - 1]); }
  }

  lemma RowSum(lo: nat, x: nat, p: nat, v: nat)
    ensures (lo + x * p) * v == lo * v + x * v * p
  {
    assert (lo + x * p) * v == lo * v + (x * p) * v;
    assert (x * p) * v == x * v * p;
  }

  /** The full product has room in eight limbs. */
  lemma {:induction false} ProductFits(a: Words, b: Words, i: nat)
    requires i < 4
    ensures Val(a[..i + 1]) * Val(b) < Pow(8)
  {
    ValBound(a[..i + 1]);
    ValBound(b);
    PowAdd(4, 4);
    PowMono(i + 1, 4);
    hide Val, Pow;
    MulMono(Val(a[..i + 1]), Pow(4), Val(b));
    MulStrict(Pow(4), Val(b), Pow(4));
  }

  lemma MulStrict(x: nat, y: nat, z: nat)
    requires x > 0 && y < z
    ensures x * y < x * z
  {
  }

  lemma {:induction false} PowMono(m: nat, n: nat)
    requires m <= n
    ensures Pow(m) <= Pow(n)
  {
    if m < n { PowMono(m, n - 1); }
  }
}
