/**
 * The arithmetic helper macros of include/focs.h: MIN, MAX, the floored
 * modulo `mod` (built from C's truncating `%`) and the block-alignment test
 * `aligned`.
 *
 * Integers are unbounded here: the fixed-width overflow of `(a % n) + n`
 * inside `mod` is not modelled (see README, "Left out").
 */
module Focs {

  function Abs(x: int): nat {
    if x < 0 then -x else x
  }

  /** `leq` compares every pair of values in at least one direction. */
  ghost predicate Total<T(!new)>(leq: (T, T) -> bool) {
    forall a, b :: leq(a, b) || leq(b, a)
  }

  /**
   * MIN(m, n): compares `m <= n` once and picks the lesser value; when the
   * two compare equal, the FIRST argument is returned.
   */
  function Min<T(!new)>(m: T, n: T, leq: (T, T) -> bool): (r: T)
    requires Total(leq)
    ensures r == m || r == n
    ensures leq(r, m) && leq(r, n)
    ensures leq(m, n) && leq(n, m) ==> r == m
  {
    if leq(m, n) then m else n
  }

  /**
   * MAX(m, n): compares `m >= n` once and picks the greater value; when the
   * two compare equal, the FIRST argument is returned.
   */
  function Max<T(!new)>(m: T, n: T, leq: (T, T) -> bool): (r: T)
    requires Total(leq)
    ensures r == m || r == n
    ensures leq(m, r) && leq(n, r)
    ensures leq(m, n) && leq(n, m) ==> r == m
  {
    if leq(n, m) then m else n
  }

  // ---------------------------------------------------------------------
  // Divisibility helpers (Dafny's own `%` is Euclidean: never negative).
  // ---------------------------------------------------------------------

  lemma MultipleMod(x: int, k: int, n: int)
    requires n != 0 && x == k * n
    ensures x % n == 0
  {
    var q, r := x / n, x % n;
    assert x == q * n + r;
    assert r == (k - q) * n;
    SmallMultipleIsZero(r, k - q, n);
  }

  /** A non-zero multiple of `n` is at least as large as `n` in magnitude. */
  lemma {:induction false} MultipleAbs(k: int, n: int)
    ensures k != 0 ==> Abs(k * n) >= Abs(n)
    ensures k > 0 ==> (n >= 0 ==> k * n >= 0) && (n < 0 ==> k * n < 0)
    ensures k < 0 ==> (n >= 0 ==> k * n <= 0) && (n < 0 ==> k * n > 0)
    decreases Abs(k)
  {
    if k > 1 {
      MultipleAbs(k - 1, n);
      assert k * n == (k - 1) * n + n;
    } else if k < -1 {
      MultipleAbs(k + 1, n);
      assert k * n == (k + 1) * n - n;
    }
  }

  /** A multiple of `n` smaller in magnitude than `n` is zero. */
  lemma SmallMultipleIsZero(d: int, k: int, n: int)
    requires n != 0 && d == k * n && Abs(d) < Abs(n)
    ensures d == 0 && k == 0
  {
    MultipleAbs(k, n);
  }

  lemma NegMod(x: int, n: int)
    requires n != 0 && x % n == 0
    ensures (-x) % n == 0
  {
    assert x == (x / n) * n;
    MultipleMod(-x, -(x / n), n);
  }

  lemma SumMod(x: int, y: int, n: int)
    requires n != 0 && x % n == 0 && y % n == 0
    ensures (x + y) % n == 0 && (x - y) % n == 0
  {
    assert x == (x / n) * n;
    assert y == (y / n) * n;
    MultipleMod(x + y, x / n + y / n, n);
    MultipleMod(x - y, x / n - y / n, n);
  }

  /**
   * C's remainder operator `a % n` (ISO C99, section 6.5.5 of the C
   * standard): division truncates toward zero, so the remainder takes the
   * sign of the dividend `a` and is smaller in magnitude than `n`.
   */
  function Rem(a: int, n: int): (r: int)
    requires n != 0
    ensures Abs(r) < Abs(n)
    ensures a >= 0 ==> r >= 0
    ensures a < 0 ==> r <= 0
    ensures (a - r) % n == 0
  {
    var r := if a >= 0 then a % Abs(n) else -((-a) % Abs(n));
    assert (a - r) % n == 0 by {
      if a >= 0 {
        assert a - r == (a / Abs(n)) * Abs(n);
        MultipleMod(a - r, (a / Abs(n)) * (if n < 0 then -1 else 1), n);
      } else {
        assert a - r == -(((-a) / Abs(n)) * Abs(n));
        MultipleMod(a - r, -((-a) / Abs(n)) * (if n < 0 then -1 else 1), n);
      }
    }
    r
  }

  /**
   * Two values in the range that `mod` promises for `n` (`[0, n)` when n is
   * positive, `(n, 0]` when it is negative) that differ by a multiple of `n`
   * are equal.
   */
  predicate InModRange(r: int, n: int) {
    if n > 0 then 0 <= r < n else n < r <= 0
  }

  lemma ModRangeUnique(r1: int, r2: int, n: int)
    requires n != 0 && InModRange(r1, n) && InModRange(r2, n)
    requires (r1 - r2) % n == 0
    ensures r1 == r2
  {
    var d := r1 - r2;
    assert d == (d / n) * n;
    SmallMultipleIsZero(d, d / n, n);
  }

  /**
   * mod(a, n) = ((a % n) + n) % n over C's `%`: the floored modulo, whose
   * result lies in [0, n) for a positive `n` (whatever the sign of `a`) and
   * in (n, 0] for a negative `n`, and which differs from `a` by a multiple
   * of `n`.
   */
  function Mod(a: int, n: int): (r: int)
    requires n != 0
    ensures InModRange(r, n)
    ensures (a - r) % n == 0
  {
    var t := Rem(a, n);
    var r := Rem(t + n, n);
    assert (a - r) % n == 0 by {
      SumMod(a - t, t + n - r, n);
      assert (a - t + (t + n - r)) % n == 0;
      assert n % n == 0 by { MultipleMod(n, 1, n); }
      SumMod(a - t + (t + n - r), n, n);
      assert (a - t + (t + n - r)) - n == a - r;
    }
    r
  }

  /** For a positive modulus, `mod` agrees with Dafny's Euclidean `%`. */
  lemma ModIsEuclidean(a: int, n: int)
    requires n > 0
    ensures Mod(a, n) == a % n
  {
    assert a == (a / n) * n + a % n;
    MultipleMod(a - a % n, a / n, n);
    var m := Mod(a, n);
    SumMod(a - a % n, a - m, n);
    assert (a - a % n) - (a - m) == m - a % n;
    ModRangeUnique(m, a % n, n);
  }

  /** For a non-negative `a` and positive `n`, `mod` is C's plain `a % n`. */
  lemma ModMatchesRem(a: int, n: int)
    requires a >= 0 && n > 0
    ensures Mod(a, n) == Rem(a, n)
  {
    var r, m := Rem(a, n), Mod(a, n);
    SumMod(a - r, a - m, n);
    assert (a - r) - (a - m) == m - r;
    ModRangeUnique(m, r, n);
  }

  /** Applying `mod` to its own result changes nothing. */
  lemma ModIdempotent(a: int, n: int)
    requires n != 0
    ensures Mod(Mod(a, n), n) == Mod(a, n)
  {
    var r := Mod(a, n);
    NegMod(r - Mod(r, n), n);
    ModRangeUnique(Mod(r, n), r, n);
  }

  /**
   * With a negative modulus the result is never positive, and negative
   * unless `n` divides `a`: mod(1, -3) is -2. The result takes the sign of
   * the divisor, as a floored modulo does.
   */
  lemma ModNegativeModulus(a: int, n: int)
    requires n < 0
    ensures Mod(a, n) <= 0
    ensures a % n != 0 ==> Mod(a, n) < 0
    ensures Mod(1, -3) == -2
  {
    if Mod(a, n) == 0 {
      assert a - Mod(a, n) == a;
    }
  }

  /**
   * aligned(addr, size, offset): `(addr - offset) % size == 0` over C's
   * `%`, which holds exactly when `size` divides `addr - offset`.
   */
  function Aligned(addr: int, size: int, offset: int): (b: bool)
    requires size != 0
    ensures b <==> (addr - offset) % size == 0
  {
    var x := addr - offset;
    var r := Rem(x, size);
    assert r == 0 <==> x % size == 0 by {
      if x % size == 0 {
        SumMod(x, x - r, size);
        assert x - (x - r) == r;
        assert r == (r / size) * size;
        SmallMultipleIsZero(r, r / size, size);
      }
    }
    r == 0
  }

  /** An address is aligned exactly when it falls in the same residue class as the offset. */
  lemma {:induction false} AlignedIffSameMod(addr: int, size: int, offset: int)
    requires size != 0
    ensures Aligned(addr, size, offset) <==> Mod(addr, size) == Mod(offset, size)
  {
    var ma, mo := Mod(addr, size), Mod(offset, size);
    if Aligned(addr, size, offset) {
      SumMod(addr - ma, addr - offset, size);
      assert (addr - ma) - (addr - offset) == offset - ma;
      SumMod(offset - ma, offset - mo, size);
      assert (offset - ma) - (offset - mo) == mo - ma;
      ModRangeUnique(mo, ma, size);
    }
    if ma == mo {
      SumMod(addr - ma, offset - mo, size);
      assert (addr - ma) - (offset - mo) == addr - offset;
    }
  }
}
