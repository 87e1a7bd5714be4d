/** Overflow checks on signed 64-bit integers, as done where no compiler builtin is available. */
module CheckedInt {
  import opened Words

  const MIN64: int := -0x8000_0000_0000_0000
  const MAX64: int := 0x7FFF_FFFF_FFFF_FFFF
  const MAXU64: int := 0xFFFF_FFFF_FFFF_FFFF

  newtype int64 = x: int | MIN64 <= x <= MAX64
  newtype uint64 = x: int | 0 <= x <= MAXU64

  predicate Fits(x: int) {
    MIN64 <= x <= MAX64
  }

  /** C's conversion of a signed to an unsigned 64-bit value. */
  function Unsigned(v: int64): uint64 {
    if v < 0 then (v as int + MAXU64 + 1) as uint64 else v as uint64
  }

  /** C's conversion back: values from 2^63 on become negative. */
  function Signed(v: uint64): int64 {
    if v as int > MAX64 then (v as int - MAXU64 - 1) as int64 else v as int64
  }

  /** C's ~v + 1, which wraps to 0 for 0. */
  function Negated(v: uint64): uint64 {
    var flipped := MAXU64 as uint64 - v;
    if flipped == MAXU64 as uint64 then 0 else flipped + 1
  }

  /** The absolute value, exact also for the smallest integer. */
  function AbsU64(v: int64): (r: uint64)
    ensures r as int == if v < 0 then -(v as int) else v as int
  {
    if v < 0 then Negated(Unsigned(v)) else v as uint64
  }

  /** Add, or report an overflow and leave the result as it was. Every step stays within 64 bits. */
  method AddOverflow(a: int64, b: int64, before: int64) returns (overflow: bool, out: int64)
    ensures overflow <==> !Fits(a as int + b as int)
    ensures overflow ==> out == before
    ensures !overflow ==> out as int == a as int + b as int
  {
    out := before;
    if b > 0 {
      if a > MAX64 as int64 - b {
        return true, out;
      }
    } else if a < MIN64 as int64 - b {
      return true, out;
    }
    out := a + b;
    return false, out;
  }

  method SubOverflow(a: int64, b: int64, before: int64) returns (overflow: bool, out: int64)
    ensures overflow <==> !Fits(a as int - b as int)
    ensures overflow ==> out == before
    ensures !overflow ==> out as int == a as int - b as int
  {
    out := before;
    if b > 0 {
      if a < MIN64 as int64 + b {
        return true, out;
      }
    } else if a > MAX64 as int64 + b {
      return true, out;
    }
    out := a - b;
    return false, out;
  }

  /** Comparing with a quotient decides whether a product exceeds a bound. */
  lemma ProductBound(a: int, b: int, bound: int)
    requires a > 0 && b >= 0 && bound >= 0
    ensures b > bound / a <==> a * b > bound
  {
    DivMod(bound, a);
    QuotientBound(a, b, bound, bound / a, bound % a);
  }

  lemma QuotientBound(a: int, b: int, bound: int, q: int, r: int)
    requires bound == q * a + r && 0 <= r < a
    ensures b > q <==> a * b > bound
  {
    if b > q {
      Difference(b - 1, q, a);
      Difference(b, 1, a);
    } else {
      Difference(q, b, a);
    }
  }

  lemma Difference(x: int, y: int, z: int)
    requires z > 0
    ensures (x - y) * z == x * z - y * z && x * z == z * x && (x >= y ==> x * z >= y * z)
  {
    if x >= y { assert (x - y) * z >= 0; }
  }

  lemma SignOfProduct(a: int, b: int)
    ensures a * b == if (a < 0) != (b < 0) then -(Abs(a) * Abs(b)) else Abs(a) * Abs(b)
  {
  }

  function Abs(a: int): nat {
    if a < 0 then -a else a
  }

  method MulOverflow(a: int64, b: int64, before: int64) returns (overflow: bool, out: int64)
    ensures overflow <==> !Fits(a as int * b as int)
    ensures overflow ==> out == before
    ensures !overflow ==> out as int == a as int * b as int
  {
    out := before;
    var ua, ub := AbsU64(a), AbsU64(b);
    SignOfProduct(a as int, b as int);
    if ua != 0 {
      ProductBound(ua as int, ub as int, MAXU64);
      if ub > MAXU64 as uint64 / ua {
        return true, out;
      }
    }
    var p := ua * ub;
    var neg := (a < 0) != (b < 0);
    var limit := if neg then MAX64 as uint64 + 1 else MAX64 as uint64;
    if p > limit {
      return true, out;
    }
    out := if neg then Signed(Negated(p)) else Signed(p);
    return false, out;
  }

  /** C's division, which truncates towards zero. */
  function TruncDiv(a: int, b: int): int
    requires b != 0
  {
    if (a < 0) == (b < 0) then Abs(a) / Abs(b) else -(Abs(a) / Abs(b))
  }

  /** What that division leaves. */
  function TruncRem(a: int, b: int): int
    requires b != 0
  {
    a - TruncDiv(a, b) * b
  }

  /** The remainder is smaller than the divisor and has the dividend's sign. */
  lemma TruncDivTruncates(a: int, b: int)
    requires b != 0
    ensures var r := TruncRem(a, b);
      Abs(r) < Abs(b) && (r == 0 || ((r < 0) <==> (a < 0)))
  {
    hide Abs;
    var n: int, m: int := Abs(a), Abs(b);
    assert m > 0 && (b < 0 ==> m == -b) && (b > 0 ==> m == b) && (a < 0 ==> n == -a) && (a >= 0 ==> n == a) by { AbsIs(a); AbsIs(b); }
    DivMod(n, m);
    WithSign(a, b, n, m, n / m, n % m);
    AbsIs(n % m);
    AbsIs(-(n % m));
  }

  lemma AbsIs(a: int)
    ensures Abs(a) >= 0 && (a < 0 ==> Abs(a) == -a) && (a >= 0 ==> Abs(a) == a)
  {
  }

  lemma WithSign(a: int, b: int, n: int, m: int, q: int, r: int)
    requires m > 0 && n == q * m + r && (b < 0 ==> m == -b) && (b >= 0 ==> m == b)
    requires (a < 0 ==> n == -a) && (a >= 0 ==> n == a)
    ensures var t := if (a < 0) == (b < 0) then q else -q;
      a - t * b == if a < 0 then -r else r
  {
    if b < 0 {
      assert q * b == -(q * m) && -q * b == q * m;
    } else {
      assert q * b == q * m && -q * b == -(q * m);
    }
  }

  /** A quotient leaves the 64-bit range only for the smallest integer divided by -1. */
  lemma QuotientFits(x: int, y: int)
    requires Fits(x) && Fits(y) && y != 0
    ensures Fits(TruncDiv(x, y)) <==> !(x == MIN64 && y == -1)
  {
    AbsIs(x);
    AbsIs(y);
    DivMod(Abs(x), Abs(y));
    QuotientNat(Abs(x), Abs(y));
    QuotientSmall(Abs(x), Abs(y), Abs(x) / Abs(y), Abs(x) % Abs(y));
    SignedFits(x, y, Abs(x), Abs(y), Abs(x) / Abs(y), Abs(x) % Abs(y));
  }

  lemma SignedFits(x: int, y: int, n: int, m: int, q: int, r: int)
    requires Fits(x) && Fits(y) && y != 0 && 0 <= r < m
    requires (x < 0 ==> n == -x) && (x >= 0 ==> n == x) && (y < 0 ==> m == -y) && (y > 0 ==> m == y)
    requires 0 <= q <= n && (m >= 2 ==> q + q <= n) && (m == 1 && r == 0 ==> q == n)
    ensures Fits(if (x < 0) == (y < 0) then q else -q) <==> !(x == MIN64 && y == -1)
  {
  }

  lemma QuotientSmall(n: int, m: int, q: int, r: int)
    requires m >= 1 && q >= 0 && r >= 0 && n == q * m + r
    ensures q <= n && (m >= 2 ==> q + q <= n) && (m == 1 && r == 0 ==> q == n)
  {
    assert m >= 1 ==> q * m >= q;
    if m >= 2 { assert q * m >= q * 2; }
  }
}
