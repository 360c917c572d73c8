/**
  The random numbers of the Tetris application (Piece.c): a linear congruential
  generator on 32-bit words, reduced modulo 2^31.  It runs through all 2^31
  values before it repeats.
*/
module TetrisRandom {

  const A: nat := 69069
  const C: nat := 1
  const WORD: nat := 0x1_0000_0000
  const M: nat := 0x8000_0000

  type Word = x: nat | x < WORD

  class Generator {
    var previousValue: Word
    var initialized: bool

    constructor ()
      ensures previousValue == 0 && !initialized
    {
      previousValue := 0;
      initialized := false;
    }

    ghost predicate Ready()
      reads this
    {
      initialized && previousValue < M
    }

    /** `second` is the clock reading that seeds the first call. */
    method Rand(second: Word) returns (r: nat)
      modifies this
      ensures initialized && r == previousValue < M
      ensures r == Next(if old(initialized) then old(previousValue) else second)
      ensures r == (69069 * (if old(initialized) then old(previousValue) else second) + 1) % 0x8000_0000
    {
      if !initialized {
        previousValue := second;
        initialized := true;
      }
      WrappingStep(previousValue);
      previousValue := ((A * previousValue) % WORD + C) % WORD % M;
      r := previousValue;
    }
  }

  function Next(x: nat): (r: nat)
    ensures r < M
  {
    (A * x + C) % M
  }

  /** Wrapping at 32 bits first does not change the value modulo 2^31. */
  lemma WrappingStep(x: nat)
    ensures ((A * x) % WORD + C) % WORD % M == Next(x)
  {
    var p := A * x;
    var q := p / WORD;
    assert p == q * WORD + p % WORD;
    var s := p % WORD + C;
    assert s == (s / WORD) * WORD + s % WORD;
    assert p + C == (2 * q + 2 * (s / WORD)) * M + s % WORD;
    SameRemainder(p + C, s % WORD, 2 * q + 2 * (s / WORD));
  }

  lemma SameRemainder(a: nat, b: nat, k: int)
    requires a == k * M + b
    ensures a % M == b % M
  {
  }

  /** The value n calls after x. */
  function Iterate(n: nat, x: nat): nat {
    if n == 0 then x else Next(Iterate(n - 1, x))
  }

  // ----- the same iteration on unbounded integers

  function Raw(n: nat, x: int): int {
    if n == 0 then x else A * Raw(n - 1, x) + C
  }

  lemma {:induction false} IterateIsRaw(n: nat, x: nat)
    requires x < M
    ensures Raw(n, x) >= 0 && Iterate(n, x) == Raw(n, x) % M
  {
    if n > 0 {
      IterateIsRaw(n - 1, x);
      var y := Raw(n - 1, x);
      assert y == (y / M) * M + y % M;
      assert A * y + C == (A * (y / M)) * M + (A * (y % M) + C);
      SameRemainder(A * y + C, A * (y % M) + C, A * (y / M));
    }
  }

  lemma {:induction false} RawCompose(m: nat, n: nat, x: int)
    ensures Raw(m + n, x) == Raw(m, Raw(n, x))
  {
    if m > 0 {
      RawCompose(m - 1, n, x);
    }
  }

  lemma {:induction false} IterateCompose(m: nat, n: nat, x: nat)
    ensures Iterate(m + n, x) == Iterate(m, Iterate(n, x))
  {
    if m > 0 {
      IterateCompose(m - 1, n, x);
    }
  }

  function Pow2(k: nat): (p: nat)
    ensures p >= 1
  {
    if k == 0 then 1 else 2 * Pow2(k - 1)
  }

  /** 2^k calls are one affine map p*x + s. */
  ghost predicate Affine(k: nat, p: int, s: int) {
    forall x :: Raw(Pow2(k), x) == p * x + s
  }

  lemma AffineDouble(k: nat, p: int, s: int)
    requires Affine(k, p, s)
    ensures Affine(k + 1, p * p, s * (p + 1))
  {
    var n := Pow2(k);
    forall x
      ensures Raw(Pow2(k + 1), x) == (p * p) * x + s * (p + 1)
    {
      RawCompose(n, n, x);
      assert Raw(n + n, x) == p * (p * x + s) + s;
      assert p * (p * x + s) == (p * p) * x + p * s;
    }
  }

  lemma DoubleFactors(e: int, t: int, u: int)
    ensures (1 + 4 * e * t) * (1 + 4 * e * t) == 1 + 8 * e * (t + 2 * e * t * t)
    ensures (e * (2 * u + 1)) * (1 + 4 * e * t + 1) == 2 * e * (2 * (u + e * t * (2 * u + 1)) + 1)
  {
  }

  /** After 2^k calls: p is 1 modulo 2^(k+2), and s is 2^k times an odd number. */
  lemma {:induction false} PowerForm(k: nat) returns (p: int, s: int, t: int, u: int)
    ensures Affine(k, p, s)
    ensures p == 1 + 4 * Pow2(k) * t && s == Pow2(k) * (2 * u + 1)
  {
    if k == 0 {
      p, s, t, u := A, C, 17267, 0;
      assert forall x :: Raw(1, x) == A * Raw(0, x) + C;
    } else {
      p, s, t, u := PowerForm(k - 1);
      AffineDouble(k - 1, p, s);
      DoubleFactors(Pow2(k - 1), t, u);
      var e := Pow2(k - 1);
      assert 4 * Pow2(k) == 8 * e;
      p, s, t, u := p * p, s * (p + 1), t + 2 * e * t * t, u + e * t * (2 * u + 1);
      assert 4 * Pow2(k) * t == 8 * e * t;
    }
  }

  /** 2^k calls add 2^k times an odd number. */
  lemma Jump(k: nat, x: int) returns (q: int)
    ensures Raw(Pow2(k), x) == x + Pow2(k) * (2 * q + 1)
  {
    var p, s, t, u := PowerForm(k);
    var e := Pow2(k);
    q := 2 * (t * x) + u;
    assert Raw(e, x) == (1 + 4 * e * t) * x + e * (2 * u + 1);
    assert (1 + 4 * e * t) * x == x + e * (4 * (t * x)) by {
      assert (4 * e * t) * x == e * (4 * (t * x));
    }
    assert e * (4 * (t * x)) + e * (2 * u + 1) == e * (2 * q + 1);
  }

  /** m * 2^k calls add 2^k times a number of the same parity as m. */
  lemma {:induction false} Jumps(k: nat, m: nat, x: int) returns (q: int)
    ensures Raw(m * Pow2(k), x) == x + Pow2(k) * (m + 2 * q)
  {
    var e := Pow2(k);
    if m == 0 {
      q := 0;
      assert 0 * e == 0;
    } else {
      var q0 := Jumps(k, m - 1, x);
      var y := Raw((m - 1) * e, x);
      var q1 := Jump(k, y);
      assert m * e == e + (m - 1) * e;
      RawCompose(e, (m - 1) * e, x);
      q := q0 + q1;
      assert e * (m - 1 + 2 * q0) + e * (2 * q1 + 1) == e * (m + 2 * q);
    }
  }

  /** Every positive number is an odd multiple of a power of two. */
  lemma {:induction false} OddPart(n: nat) returns (k: nat, h: nat)
    requires n > 0
    ensures n == (2 * h + 1) * Pow2(k)
  {
    if n % 2 == 1 {
      k, h := 0, n / 2;
    } else {
      k, h := OddPart(n / 2);
      assert n == 2 * ((2 * h + 1) * Pow2(k));
      k := k + 1;
      assert (2 * h + 1) * Pow2(k) == 2 * ((2 * h + 1) * Pow2(k - 1));
    }
  }

  lemma {:induction false} Pow2Monotone(j: nat, k: nat)
    requires j <= k
    ensures Pow2(j) <= Pow2(k)
  {
    if j < k {
      Pow2Monotone(j, k - 1);
    }
  }

  lemma {:induction false} Pow2Split(j: nat, k: nat)
    requires j < k
    ensures Pow2(k) == Pow2(j) * (2 * Pow2(k - j - 1))
  {
    if j < k - 1 {
      Pow2Split(j, k - 1);
      assert Pow2(j) * (2 * (2 * Pow2(k - j - 2))) == 2 * (Pow2(j) * (2 * Pow2(k - j - 2)));
    } else {
      assert Pow2(0) == 1;
    }
  }

  lemma ModulusIsPow2()
    ensures Pow2(31) == M
  {
    assert Pow2(8) == 0x100;
    assert Pow2(16) == 0x1_0000 by { assert Pow2(12) == 0x1000; }
    assert Pow2(24) == 0x100_0000 by { assert Pow2(20) == 0x10_0000; }
    assert Pow2(28) == 0x1000_0000;
  }

  lemma Cancel(e: nat, a: int, b: int)
    requires e >= 1 && e * a == e * b
    ensures a == b
  {
  }

  /** An odd multiple of a smaller power of two is not a multiple of the modulus. */
  lemma NotMultiple(k: nat, odd: int, z: int)
    requires k < 31 && odd % 2 == 1
    ensures Pow2(k) * odd != z * M
  {
    ModulusIsPow2();
    Pow2Split(k, 31);
    var e, f, product := Pow2(k), Pow2(30 - k), z * M;
    if e * odd == product {
      Regroup(z, e, f);
      assert product == e * (2 * (z * f));
      Cancel(e, odd, 2 * (z * f));
    }
  }

  lemma Regroup(z: int, e: int, f: int)
    ensures z * (e * (2 * f)) == e * (2 * (z * f))
  {
  }

  lemma SmallExponent(k: nat, h: nat)
    requires (2 * h + 1) * Pow2(k) < M
    ensures k < 31
  {
    if k >= 31 {
      ModulusIsPow2();
      Pow2Monotone(31, k);
      AtLeastItself(h, Pow2(k));
    }
  }

  lemma AtLeastItself(h: nat, p: nat)
    ensures (2 * h + 1) * p >= p
  {
  }

  /** Fewer than 2^31 calls never return to the value they started from. */
  lemma NoEarlyReturn(n: nat, x: nat)
    requires 0 < n < M && x < M
    ensures Iterate(n, x) != x
  {
    var k, h := OddPart(n);
    SmallExponent(k, h);
    var q := Jumps(k, 2 * h + 1, x);
    IterateIsRaw(n, x);
    NotBack(x, Raw(n, x), k, h, q);
  }

  lemma NotBack(x: nat, y: nat, k: nat, h: nat, q: int)
    requires k < 31 && x < M && y == x + Pow2(k) * (2 * h + 1 + 2 * q)
    ensures y % M != x
  {
    var odd := 2 * (h + q) + 1;
    NotMultiple(k, odd, y / M);
  }

  /** 2^31 calls do. */
  lemma FullReturn(x: nat)
    requires x < M
    ensures Iterate(M, x) == x
  {
    ModulusIsPow2();
    var q := Jump(31, x);
    IterateIsRaw(M, x);
    SameRemainderInt(Raw(M, x), x, 2 * q + 1);
  }

  lemma SameRemainderInt(a: int, b: nat, k: int)
    requires a == b + M * k && a >= 0 && b < M
    ensures a % M == b
  {
  }

  // ----- hence every value is visited

  function Visited(n: nat, x: nat): set<nat> {
    if n == 0 then {} else Visited(n - 1, x) + {Iterate(n - 1, x)}
  }

  lemma {:induction false} VisitedMember(n: nat, x: nat, y: nat)
    requires y in Visited(n, x)
    ensures exists i :: 0 <= i < n && Iterate(i, x) == y
  {
    if y in Visited(n - 1, x) {
      VisitedMember(n - 1, x, y);
    }
  }

  lemma {:induction false} VisitedCount(n: nat, x: nat)
    requires n <= M && x < M
    ensures |Visited(n, x)| == n && forall y :: y in Visited(n, x) ==> y < M
  {
    if n > 0 {
      VisitedCount(n - 1, x);
      var last := Iterate(n - 1, x);
      if last in Visited(n - 1, x) {
        VisitedMember(n - 1, x, last);
        var i :| 0 <= i < n - 1 && Iterate(i, x) == last;
        NoRepeat(i, n - 1, x);
      }
    }
  }

  lemma IterateBelow(n: nat, x: nat)
    requires x < M
    ensures Iterate(n, x) < M
  {
  }

  lemma NoRepeat(i: nat, j: nat, x: nat)
    requires i < j < M && x < M
    ensures Iterate(i, x) != Iterate(j, x)
  {
    IterateBelow(i, x);
    IterateCompose(j - i, i, x);
    NoEarlyReturn(j - i, Iterate(i, x));
  }

  function Below(n: nat): set<nat> { if n == 0 then {} else Below(n - 1) + {n - 1} }

  lemma {:induction false} BelowFacts(n: nat)
    ensures |Below(n)| == n && forall y: nat :: y in Below(n) <==> y < n
  {
    if n > 0 {
      BelowFacts(n - 1);
    }
  }

  lemma SameSizeSubset<T>(a: set<T>, b: set<T>)
    requires a <= b && |a| == |b|
    ensures a == b
  {
    if x :| x in b && x !in a {
      assert a <= b - {x};
      SubsetSize(a, b - {x});
    }
  }

  lemma {:induction false} SubsetSize<T>(a: set<T>, b: set<T>)
    requires a <= b
    ensures |a| <= |b|
  {
    assert b == a + (b - a);
  }

  /**
    Full period: from any value the generator visits every value below 2^31
    exactly once in 2^31 calls and is then back where it started.
  */
  lemma FullPeriod(x: nat, y: nat) returns (i: nat)
    requires x < M && y < M
    ensures i < M && Iterate(i, x) == y
    ensures forall j: nat :: j < M && j != i ==> Iterate(j, x) != y
    ensures Iterate(M, x) == x
  {
    FullReturn(x);
    VisitedCount(M, x);
    BelowFacts(M);
    SameSizeSubset(Visited(M, x), Below(M));
    assert y in Below(M);
    VisitedMember(M, x, y);
    i :| 0 <= i < M && Iterate(i, x) == y;
    forall j: nat | j < M && j != i
      ensures Iterate(j, x) != y
    {
      if i < j {
        NoRepeat(i, j, x);
      } else {
        NoRepeat(j, i, x);
      }
    }
  }
}
