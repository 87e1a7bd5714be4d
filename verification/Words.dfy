/** Powers of two and the bit operations of machine words, on natural numbers. */
module Words {

  function Power2(n: nat): (p: nat)
    ensures p > 0
  {
    if n == 0 then 1 else 2 * Power2(n - 1)
  }

  lemma {:induction false} PowerSum(m: nat, n: nat)
    ensures Power2(m + n) == Power2(m) * Power2(n)
  {
    if m > 0 {
      PowerSum(m - 1, n);
      Doubled(Power2(m - 1), Power2(n));
    }
  }

  lemma Doubled(p: int, q: int)
    ensures 2 * p * q == 2 * (p * q)
  {
  }

  /** Quotient and remainder are unique. */
  lemma DivisionUnique(m: int, q: int, r: int, q1: int, r1: int)
    requires 0 <= r < m && 0 <= r1 < m && q * m + r == q1 * m + r1
    ensures q == q1 && r == r1
  {
    if q > q1 {
      Grows(m, q, q1);
    } else if q < q1 {
      Grows(m, q1, q);
    }
  }

  lemma Grows(m: int, q: int, q1: int)
    requires m > 0 && q > q1
    ensures q * m >= q1 * m + m
  {
    var d := q - q1 - 1;
    assert d * m >= 0;
    Spread(q1, d, m);
  }

  lemma Spread(q: int, d: int, m: int)
    ensures (q + 1 + d) * m == q * m + m + d * m
  {
  }

  lemma DivMod(v: int, m: int)
    requires m > 0
    ensures v == v / m * m + v % m && 0 <= v % m < m
  {
  }

  lemma RemainderIs(v: int, m: int, q: int, r: int)
    requires m > 0 && v == q * m + r && 0 <= r < m
    ensures v % m == r && v / m == q
  {
    DivMod(v, m);
    DivisionUnique(m, q, r, v / m, v % m);
  }

  /** The value masked to its lowest n bits. */
  function LowBits(v: nat, n: nat): (r: nat)
    ensures r < Power2(n)
  {
    if n == 0 then 0 else v % 2 + 2 * LowBits(v / 2, n - 1)
  }

  /** Masking to n bits is the remainder by 2 to the n. */
  lemma {:induction false} LowBitsIsRemainder(v: nat, n: nat)
    ensures LowBits(v, n) == v % Power2(n)
  {
    if n > 0 {
      LowBitsIsRemainder(v / 2, n - 1);
      HalvedRemainder(v, Power2(n - 1));
    }
  }

  lemma HalvedRemainder(v: nat, m: nat)
    requires m > 0
    ensures v % (2 * m) == v % 2 + 2 * (v / 2 % m)
  {
    var q := v / 2 / m;
    assert v / 2 == q * m + v / 2 % m;
    assert v == q * (2 * m) + (v % 2 + 2 * (v / 2 % m));
    RemainderIs(v, 2 * m, q, v % 2 + 2 * (v / 2 % m));
  }

  /** Bit by bit or. */
  function Or(x: nat, y: nat): nat {
    if x == 0 && y == 0 then 0
    else (if x % 2 == 1 || y % 2 == 1 then 1 else 0) + 2 * Or(x / 2, y / 2)
  }

  /** Values without common bits are added by or. */
  lemma {:induction false} OrDisjoint(x: nat, y: nat, n: nat)
    requires y < Power2(n)
    ensures Or(x * Power2(n), y) == x * Power2(n) + y
  {
    if n == 0 {
      OrZero(x);
    } else {
      var p := Power2(n - 1);
      assert x * (2 * p) == 2 * (x * p);
      OrDisjoint(x, y / 2, n - 1);
    }
  }

  lemma {:induction false} OrZero(x: nat)
    ensures Or(x, 0) == x
  {
    if x > 0 {
      OrZero(x / 2);
    }
  }

  /** Bit n of a value. */
  function Bit(v: nat, n: nat): bool {
    v / Power2(n) % 2 == 1
  }

  lemma {:induction false} OrCommutes(x: nat, y: nat)
    ensures Or(x, y) == Or(y, x)
  {
    if x != 0 || y != 0 {
      OrCommutes(x / 2, y / 2);
    }
  }

  /** In an n-bit value the top bit tells the upper half. */
  lemma TopBit(v: nat, n: nat)
    requires n > 0 && v < Power2(n)
    ensures Bit(v, n - 1) <==> v >= Power2(n - 1)
  {
    var p := Power2(n - 1);
    if v >= p {
      RemainderIs(v, p, 1, v - p);
    } else {
      RemainderIs(v, p, 0, v);
    }
  }

  /** A remainder by p*q of a multiple of q. */
  lemma RemainderScales(x: nat, p: nat, q: nat)
    requires p > 0 && q > 0
    ensures p * q > 0 && x * q % (p * q) == x % p * q
  {
    DivMod(x, p);
    var d, r := x / p, x % p;
    Regroup(d, r, p, q);
    assert r * q < p * q;
    assert p * q > 0;
    RemainderIs(x * q, p * q, d, r * q);
  }

  lemma Regroup(d: nat, r: nat, p: nat, q: nat)
    ensures (d * p + r) * q == d * (p * q) + r * q
    ensures r < p && q > 0 ==> r * q < p * q && p * q > 0
  {
    assert (d * p + r) * q == (d * p) * q + r * q;
    assert (d * p) * q == d * (p * q);
    if r < p && q > 0 {
      assert (p - r) * q > 0;
      assert (p - r) * q == p * q - r * q;
    }
  }

  /** Adding a multiple does not change the remainder. */
  lemma RemainderShifts(x: int, k: int, p: int)
    requires p > 0
    ensures (x + k * p) % p == x % p
  {
    DivMod(x, p);
    assert x + k * p == (x / p + k) * p + x % p;
    RemainderIs(x + k * p, p, x / p + k, x % p);
  }

  lemma QuotientNat(v: int, p: int)
    requires v >= 0 && p > 0
    ensures v / p >= 0
  {
    DivMod(v, p);
    var t := v / p;
    assert t < 0 ==> (-1 - t) * p >= 0;
    assert (-1 - t) * p == -p - t * p;
  }

  lemma PowerStep(n: nat)
    ensures Power2(n + 1) == 2 * Power2(n)
  {
  }
}
