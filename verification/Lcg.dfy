/**
 * The random number generator of the lottery scheduler (kernel/proc.c): the
 * linear congruential generator x -> 1664525 * x + 1013904223 on 32-bit
 * unsigned integers.  The main result is that it has full period: from every
 * state, 2^32 consecutive draws visit every 32-bit value exactly once.
 *
 * The proof follows 2^k steps at a time.  The 2^k-th iterate is an affine map
 * whose slope is 1 modulo 2^(k+2) and whose offset is an odd multiple of 2^k,
 * so it moves every state by 2^k modulo 2^(k+1).
 */
module Lcg {

  function Pow2(k: nat): (r: nat)
    ensures r >= 1
  {
    if k == 0 then 1 else 2 * Pow2(k - 1)
  }

  const SLOPE: nat := 1664525
  const OFFSET: nat := 1013904223
  const M: nat := 0x1_0000_0000

  /** `rand_next`: the next state, which is also the value returned. */
  function Next(x: nat): (r: nat)
    ensures r < M
  {
    (x * SLOPE + OFFSET) % M
  }

  function Iter(x: nat, n: nat): nat
    decreases n
  {
    if n == 0 then x else Iter(Next(x), n - 1)
  }

  lemma {:induction false} IterBound(x: nat, n: nat)
    requires x < M
    ensures Iter(x, n) < M
    decreases n
  {
    if n > 0 { IterBound(Next(x), n - 1); }
  }

  lemma {:induction false} IterAdd(x: nat, m: nat, n: nat)
    ensures Iter(x, m + n) == Iter(Iter(x, m), n)
    decreases m
  {
    if m > 0 { IterAdd(Next(x), m - 1, n); }
  }

  // ---- Arithmetic ----

  lemma ModuloShift(x: int, q: int)
    ensures (x + M * q) % M == x % M
  {
  }

  lemma ModuloAffine(p: nat, y: nat, q: nat)
    ensures (p * (y % M) + q) % M == (p * y + q) % M
  {
    var k, r := y / M, y % M;
    assert y == M * k + r;
    assert p * (M * k + r) == p * (M * k) + p * r;
    assert p * (M * k) == M * (p * k);
    ModuloShift(p * r + q, p * k);
  }

  lemma Distribute(a: int, b: int, c: int)
    ensures a * (b + c) == a * b + a * c
    ensures a * (b - c) == a * b - a * c
  {
  }

  lemma Associate(a: int, b: int, c: int)
    ensures a * (b * c) == (a * b) * c
  {
  }

  lemma ProductSign(a: int, b: int)
    requires a > 0
    ensures b > 0 ==> a * b > 0
    ensures b < 0 ==> a * b < 0
  {
  }

  lemma {:induction false} Pow2Add(j: nat, k: nat)
    ensures Pow2(j + k) == Pow2(j) * Pow2(k)
    decreases j
  {
    if j > 0 { Pow2Add(j - 1, k); }
  }

  lemma Pow2Of32()
    ensures Pow2(32) == M
  {
    assert Pow2(8) == 256;
    Pow2Add(8, 8);
    Pow2Add(16, 16);
  }

  // ---- The 2^k-th iterate ----

  /** Slope and offset of the 2^k-th iterate, as unreduced integers. */
  function SlopeAt(k: nat): nat {
    if k == 0 then SLOPE else SlopeAt(k - 1) * SlopeAt(k - 1)
  }

  function OffsetAt(k: nat): nat {
    if k == 0 then OFFSET else SlopeAt(k - 1) * OffsetAt(k - 1) + OffsetAt(k - 1)
  }

  lemma SquareOfOneMore(p: nat, u: nat)
    ensures (1 + 4 * p * u) * (1 + 4 * p * u) == 1 + 8 * p * (u + 2 * (p * u * u))
  {
    var w := p * u;
    assert 4 * p * u == 4 * w;
    assert (1 + 4 * w) * (1 + 4 * w) == 1 + 8 * w + 16 * (w * w);
    assert w * w == p * (p * u * u);
    assert 8 * p * (u + 2 * (p * u * u)) == 8 * w + 16 * (p * (p * u * u));
  }

  lemma OddTimesTwice(p: nat, u: nat, v: nat)
    ensures (1 + 4 * p * u) * (p * (2 * v + 1)) + p * (2 * v + 1)
            == 2 * p * (2 * (v + 2 * p * u * v + p * u) + 1)
  {
    var c := p * (2 * v + 1);
    var w := p * u;
    assert (1 + 4 * w) * c + c == 2 * c + 4 * w * c;
    assert w * c == p * (w * (2 * v + 1));
    assert w * (2 * v + 1) == 2 * (w * v) + w;
    assert 2 * p * (2 * (v + 2 * (w * v) + w) + 1) == 2 * p * (2 * v + 1) + 4 * p * (2 * (w * v) + w);
    assert 2 * p * u * v == 2 * (w * v);
  }

  /** The slope is 1 modulo 2^(k+2) and the offset is an odd multiple of 2^k. */
  lemma {:induction false} IterateShape(k: nat) returns (u: nat, v: nat)
    ensures SlopeAt(k) == 1 + 4 * Pow2(k) * u
    ensures OffsetAt(k) == Pow2(k) * (2 * v + 1)
  {
    if k == 0 {
      u, v := 416131, 506952111;
    } else {
      var p := Pow2(k - 1);
      var u', v' := IterateShape(k - 1);
      SquareOfOneMore(p, u');
      OddTimesTwice(p, u', v');
      u := u' + 2 * (p * u' * u');
      v := v' + 2 * p * u' * v' + p * u';
    }
  }

  lemma ComposeAffine(a: nat, c: nat, x: nat)
    ensures a * (a * x + c) + c == (a * a) * x + (a * c + c)
  {
    assert a * (a * x + c) == a * (a * x) + a * c;
    assert a * (a * x) == (a * a) * x;
  }

  lemma {:induction false} IterateIsAffine(x: nat, k: nat)
    ensures Iter(x, Pow2(k)) == (SlopeAt(k) * x + OffsetAt(k)) % M
    decreases k
  {
    if k == 0 {
      assert Iter(x, 1) == Iter(Next(x), 0);
    } else {
      var a, c := SlopeAt(k - 1), OffsetAt(k - 1);
      IterAdd(x, Pow2(k - 1), Pow2(k - 1));
      IterateIsAffine(x, k - 1);
      IterateIsAffine((a * x + c) % M, k - 1);
      ModuloAffine(a, a * x + c, c);
      ComposeAffine(a, c, x);
    }
  }

  lemma Rearrange(x: nat, p: nat, u: nat, v: nat)
    ensures (1 + 4 * p * u) * x + p * (2 * v + 1) == x + p + 2 * p * (2 * (u * x) + v)
  {
    var w := u * x;
    assert (1 + 4 * p * u) * x == x + 4 * p * u * x;
    assert 4 * p * u * x == 4 * (p * w) by { assert p * u * x == p * w; }
    assert p * (2 * v + 1) == 2 * (p * v) + p;
    assert 2 * p * (2 * w + v) == 4 * (p * w) + 2 * (p * v);
  }

  lemma MIsMultiple(k: nat)
    requires k < 32
    ensures M == 2 * Pow2(k) * Pow2(31 - k)
  {
    Pow2Add(k + 1, 31 - k);
    Pow2Of32();
  }

  /** 2^k steps move every state by 2^k modulo 2^(k+1). */
  lemma Stride(x: nat, k: nat) returns (q: int)
    requires k < 32
    ensures Iter(x, Pow2(k)) == x + Pow2(k) + 2 * Pow2(k) * q
  {
    var d, r := 2 * Pow2(k), Pow2(31 - k);
    var u, v := IterateShape(k);
    IterateIsAffine(x, k);
    Rearrange(x, Pow2(k), u, v);
    MIsMultiple(k);
    var y := SlopeAt(k) * x + OffsetAt(k);
    var t := 2 * (u * x) + v;
    q := t - r * (y / M);
    Wrapped(x + Pow2(k), d, r, t, y);
  }

  lemma Wrapped(z: nat, d: nat, r: nat, t: int, y: nat)
    requires M == d * r && y == z + d * t
    ensures y % M == z + d * (t - r * (y / M))
  {
    Distribute(d, t, r * (y / M));
    Associate(d, r, y / M);
  }

  lemma {:induction false} Strides(x: nat, k: nat, n: nat) returns (q: int)
    requires k < 32
    ensures Iter(x, n * Pow2(k)) == x + n * Pow2(k) + 2 * Pow2(k) * q
    decreases n
  {
    var p := Pow2(k);
    if n == 0 {
      q := 0;
    } else {
      var s := (n - 1) * p;
      var q1 := Stride(x, k);
      var q2 := Strides(Iter(x, p), k, n - 1);
      q := q1 + q2;
      OneMoreStride(x, p, s, q1, q2);
      assert n * p == p + s by { Distribute(p, n - 1, 1); }
    }
  }

  lemma OneMoreStride(x: nat, p: nat, s: nat, q1: int, q2: int)
    requires Iter(x, p) == x + p + 2 * p * q1
    requires Iter(Iter(x, p), s) == Iter(x, p) + s + 2 * p * q2
    ensures Iter(x, p + s) == x + (p + s) + 2 * p * (q1 + q2)
  {
    IterAdd(x, p, s);
    Distribute(2 * p, q1, q2);
  }

  lemma {:induction false} OddTimesPower(n: nat) returns (k: nat, m: nat)
    requires n > 0
    ensures n == (2 * m + 1) * Pow2(k)
    decreases n
  {
    if n % 2 == 1 {
      k, m := 0, n / 2;
    } else {
      k, m := OddTimesPower(n / 2);
      k := k + 1;
      assert n == 2 * ((2 * m + 1) * Pow2(k - 1)) == (2 * m + 1) * (2 * Pow2(k - 1));
    }
  }

  lemma {:induction false} Pow2Monotone(j: nat, k: nat)
    requires j <= k
    ensures Pow2(j) <= Pow2(k)
    decreases k
  {
    if j < k { Pow2Monotone(j, k - 1); }
  }

  /** No state returns to itself in fewer than 2^32 steps. */
  lemma NoShortCycle(x: nat, n: nat)
    requires 0 < n < M
    ensures Iter(x, n) != x
  {
    var k, m := OddTimesPower(n);
    ExponentBound(n, k, m);
    var q := Strides(x, k, 2 * m + 1);
    NetMove(Pow2(k), m, q);
  }

  lemma ExponentBound(n: nat, k: nat, m: nat)
    requires n == (2 * m + 1) * Pow2(k) && n < M
    ensures k < 32
  {
    Distribute(Pow2(k), 2 * m, 1);
    assert n >= Pow2(k);
    if k >= 32 {
      Pow2Of32();
      Pow2Monotone(32, k);
    }
  }

  lemma NetMove(p: nat, m: nat, q: int)
    requires p > 0
    ensures (2 * m + 1) * p + 2 * p * q != 0
  {
    OddMultipleIsNotZero(p, m + q);
    Distribute(p, 2 * m + 1, 2 * q);
    Associate(p, 2, q);
  }

  lemma OddMultipleIsNotZero(p: nat, t: int)
    requires p > 0
    ensures p * (2 * t + 1) != 0
  {
    ProductSign(p, 2 * t + 1);
  }

  lemma WholeMoves(x: nat, t: nat)
    requires x < M
    ensures (x + M + 2 * M * t) % M == x
  {
    ModuloShift(x, 2 * t + 1);
  }

  lemma PeriodAt(x: nat, k: nat)
    requires x < M && Pow2(k) == M
    ensures Iter(x, Pow2(k)) == x
  {
    var p := Pow2(k);
    var u, v := IterateShape(k);
    IterateIsAffine(x, k);
    Rearrange(x, p, u, v);
    var t := 2 * (u * x) + v;
    assert Iter(x, p) == (x + p + 2 * p * t) % M;
    WholeMoves(x, t);
  }

  /** Every state returns to itself after 2^32 steps. */
  lemma Period(x: nat)
    requires x < M
    ensures Iter(x, M) == x
  {
    Pow2Of32();
    PeriodAt(x, 32);
  }

  lemma DrawsDiffer(x: nat, i: nat, j: nat)
    requires i < j < i + M
    ensures Iter(x, i) != Iter(x, j)
  {
    IterAdd(x, i, j - i);
    NoShortCycle(Iter(x, i), j - i);
  }

  // ---- A period visits every value ----

  ghost function Below(n: nat): (s: set<nat>)
    ensures forall i: nat :: i in s <==> i < n
    ensures |s| == n
  {
    if n == 0 then {} else Below(n - 1) + {n - 1}
  }

  ghost function Visited(x: nat, n: nat): set<nat> { set i: nat | i < n :: Iter(x, i) }

  lemma {:induction false} VisitedSize(x: nat, n: nat)
    requires n <= M
    ensures |Visited(x, n)| == n
    decreases n
  {
    if n > 0 {
      VisitedSize(x, n - 1);
      forall i: nat | i < n - 1 ensures Iter(x, i) != Iter(x, n - 1) {
        DrawsDiffer(x, i, n - 1);
      }
      assert Visited(x, n) == Visited(x, n - 1) + {Iter(x, n - 1)};
    }
  }

  lemma SubsetOfSameSize<T>(a: set<T>, b: set<T>)
    requires a <= b && |a| == |b|
    ensures a == b
  {
    assert b == a + (b - a);
    assert |b| == |a| + |b - a|;
  }

  /** The value `v` is drawn at one of the first 2^32 steps from `x`. */
  ghost predicate Reaches(x: nat, v: nat) {
    exists i: nat :: i < M && Iter(x, i) == v
  }

  lemma EveryValueReached(x: nat, v: nat)
    requires x < M && v < M
    ensures Reaches(x, v)
  {
    forall i: nat | i < M ensures Iter(x, i) < M {
      IterBound(x, i);
    }
    VisitedSize(x, M);
    SubsetOfSameSize(Visited(x, M), Below(M));
    assert v in Visited(x, M);
  }

  /**
   * Full period: from any state, the states at steps 0 .. 2^32-1 are pairwise
   * distinct and are all the 32-bit values, and step 2^32 is the start again.
   */
  lemma FullPeriod(x: nat)
    requires x < M
    ensures forall i: nat, j: nat :: i < j < M ==> Iter(x, i) != Iter(x, j)
    ensures forall v: nat :: v < M ==> Reaches(x, v)
    ensures Iter(x, M) == x
  {
    forall i: nat, j: nat | i < j < M ensures Iter(x, i) != Iter(x, j) {
      DrawsDiffer(x, i, j);
    }
    forall v: nat | v < M ensures Reaches(x, v) {
      EveryValueReached(x, v);
    }
    Period(x);
  }
}
