/** The multiplier, divider, adder and subtractor components, as the emitted C computes them on 64-bit words. */
module Arithmetic {
  import opened Words
  import C = CheckedInt

  const W32: int := 0x1_0000_0000
  const W64: int := 0x1_0000_0000_0000_0000
  const H64: int := 0x8000_0000_0000_0000

  /** Arithmetic on unsigned 64-bit words wraps. */
  function Wrap(x: int): nat {
    x % W64
  }

  function ShiftLeft(x: nat, k: nat): nat {
    Wrap(x * Power2(k))
  }

  function ShiftRight(x: nat, k: nat): nat {
    QuotientNat(x, Power2(k));
    x / Power2(k)
  }

  function Complement(x: nat): nat
    requires x < W64
  {
    W64 - 1 - x
  }

  /** A word read as a signed 64-bit value. */
  function Signed64(x: nat): int
    requires x < W64
  {
    if x >= H64 then x - W64 else x
  }

  /** A w-bit value read as two's complement. */
  function SignedValue(x: nat, w: nat): int
    requires w > 0 && x < Power2(w)
  {
    if x >= Power2(w - 1) then x - Power2(w) else x
  }

  /** The smallest two's complement value. */
  function Lowest(w: nat): int
    requires w > 0
  {
    -(Power2(w - 1) as int)
  }

  /** The unsigned or the two's complement value of an input. */
  function ValueOf(x: nat, w: nat, signed: bool): int
    requires w > 0 && x < Power2(w)
  {
    if signed then SignedValue(x, w) else x
  }

  // ---- The 64 by 64 bit product ----

  /** The four partial products, at their places. */
  lemma PartialProducts(ah: nat, al: nat, bh: nat, bl: nat)
    ensures (ah * W32 + al) * (bh * W32 + bl) == ah * bh * W64 + (ah * bl + al * bh) * W32 + al * bl
  {
    calc {
      (ah * W32 + al) * (bh * W32 + bl);
      (ah * W32) * (bh * W32 + bl) + al * (bh * W32 + bl);
      (ah * W32) * (bh * W32) + (ah * W32) * bl + al * (bh * W32) + al * bl;
      { assert (ah * W32) * (bh * W32) == ah * bh * W64; }
      ah * bh * W64 + (ah * W32) * bl + al * (bh * W32) + al * bl;
      { assert (ah * W32) * bl == ah * bl * W32 && al * (bh * W32) == al * bh * W32; }
      ah * bh * W64 + ah * bl * W32 + al * bh * W32 + al * bl;
    }
  }

  lemma ProductMonotone(x: nat, y: nat, a: nat, b: nat)
    requires x <= a && y <= b
    ensures x * y <= a * b
  {
    assert (a - x) * y >= 0;
    assert a * (b - y) >= 0;
    assert (a - x) * y == a * y - x * y;
    assert a * (b - y) == a * b - a * y;
  }

  const MAX_HALVES: int := (W32 - 1) * (W32 - 1)

  lemma HalfProduct(x: nat, y: nat)
    requires x < W32 && y < W32
    ensures x * y <= MAX_HALVES
  {
    ProductMonotone(x, y, W32 - 1, W32 - 1);
  }

  /** A word is smaller than what was added to it exactly when the sum wrapped. */
  lemma CarryIsExact(l: nat, x: nat)
    requires l < W64 && x < W64
    ensures Wrap(l + x) + (if Wrap(l + x) < l then W64 else 0) == l + x
  {
  }

  lemma MiddleProduct(p: nat)
    requires p <= MAX_HALVES
    ensures p == p / W32 * W32 + p % W32 && p / W32 <= W32 - 2 && Wrap(p % W32 * W32) == p % W32 * W32 < W64
  {
  }

  /** Adding the middle products word by word, with their carries. */
  lemma Carries(p0: nat, p1: nat, p2: nat, p3: nat)
    requires p0 <= MAX_HALVES && p1 <= MAX_HALVES && p2 <= MAX_HALVES && p3 <= MAX_HALVES
    ensures var l1 := Wrap(p0 + Wrap(p1 % W32 * W32));
      var c1 := if l1 < p0 then 1 else 0;
      var l2 := Wrap(l1 + Wrap(p2 % W32 * W32));
      var c2 := if l2 < l1 then 1 else 0;
      var hi := Wrap(p3 + p1 / W32 + p2 / W32 + c1 + c2);
      hi * W64 + l2 == p3 * W64 + (p1 + p2) * W32 + p0
  {
    MiddleProduct(p1);
    MiddleProduct(p2);
    CarryIsExact(p0, p1 % W32 * W32);
    WrapBelow(p0 + p1 % W32 * W32);
    hide Wrap;
    var l1 := Wrap(p0 + Wrap(p1 % W32 * W32));
    var c1 := if l1 < p0 then 1 else 0;
    CarryIsExact(l1, p2 % W32 * W32);
    var l2 := Wrap(l1 + Wrap(p2 % W32 * W32));
    var c2 := if l2 < l1 then 1 else 0;
    Total(p0, p1, p2, p3, p1 / W32, p1 % W32, p2 / W32, p2 % W32, l1, c1, l2, c2);
  }

  lemma WrapBelow(x: nat)
    ensures Wrap(x) < W64
  {
  }

  lemma Total(p0: nat, p1: nat, p2: nat, p3: nat, q1: nat, r1: nat, q2: nat, r2: nat, l1: nat, c1: nat, l2: nat, c2: nat)
    requires p1 == q1 * W32 + r1 && p2 == q2 * W32 + r2 && p3 <= MAX_HALVES && q1 <= W32 - 2 && q2 <= W32 - 2
    requires c1 <= 1 && c2 <= 1 && l1 + c1 * W64 == p0 + r1 * W32 && l2 + c2 * W64 == l1 + r2 * W32
    ensures Wrap(p3 + q1 + q2 + c1 + c2) * W64 + l2 == p3 * W64 + (p1 + p2) * W32 + p0
  {
  }

  method AddPartials(p0: nat, p1: nat, p2: nat, p3: nat) returns (lo: nat, hi: nat)
    requires p0 <= MAX_HALVES && p1 <= MAX_HALVES && p2 <= MAX_HALVES && p3 <= MAX_HALVES
    ensures lo < W64 && hi < W64 && hi * W64 + lo == p3 * W64 + (p1 + p2) * W32 + p0
  {
    Carries(p0, p1, p2, p3);
    lo := p0;
    lo := Wrap(lo + Wrap(p1 % W32 * W32));
    var cy := if lo < p0 then 1 else 0;
    var pv := lo;
    lo := Wrap(lo + Wrap(p2 % W32 * W32));
    cy := cy + if lo < pv then 1 else 0;
    hi := Wrap(p3 + p1 / W32 + p2 / W32 + cy);
  }

  lemma WrapSmall(x: nat)
    requires x <= MAX_HALVES
    ensures Wrap(x) == x
  {
  }

  /** The full product of two words from four partial products of their halves. */
  method Multiply(ua: nat, ub: nat) returns (lo: nat, hi: nat)
    requires ua < W64 && ub < W64
    ensures lo < W64 && hi < W64 && hi * W64 + lo == ua * ub
  {
    var ah, al := ua / W32, ua % W32;
    var bh, bl := ub / W32, ub % W32;
    HalfProduct(al, bl);
    HalfProduct(ah, bl);
    HalfProduct(al, bh);
    HalfProduct(ah, bh);
    PartialProducts(ah, al, bh, bl);
    assert ua == ah * W32 + al && ub == bh * W32 + bl;
    hide Wrap;
    WrapSmall(al * bl);
    WrapSmall(ah * bl);
    WrapSmall(al * bh);
    WrapSmall(ah * bh);
    lo, hi := AddPartials(Wrap(al * bl), Wrap(ah * bl), Wrap(al * bh), Wrap(ah * bh));
  }

  // ---- The two halves of a product of any width ----

  lemma Width64(w: nat)
    requires 1 <= w <= 64
    ensures Power2(w) * Power2(64 - w) == W64 && Power2(w) <= W64 && Power2(64) == W64
  {
    PowerSum(w, 64 - w);
    var p, q := Power2(w), Power2(64 - w);
    assert Power2(64) == W64 by { Power64(); }
    assert p * q >= p by { ProductMonotone(p, 1, p, q); }
  }

  lemma Power64()
    ensures Power2(64) == W64
  {
    assert Power2(4) == 16;
    hide Power2;
    PowerSum(4, 4);
    PowerSum(8, 8);
    assert Power2(16) == 0x1_0000;
    PowerSum(16, 16);
    assert Power2(32) == 0x1_0000_0000;
    PowerSum(32, 32);
  }

  lemma Regroup1(d: int, r: int, p: int, q: int, t: int)
    ensures (d * p + r) * q + t == (r * q + t) + (d * q) * p
  {
    assert (d * p + r) * q == (d * p) * q + r * q;
    assert (d * p) * q == (d * q) * p;
  }

  lemma Regroup2(h: int, p: int, q: int, t: int, l: int)
    ensures h * (p * q) + (t * p + l) == (h * q + t) * p + l
  {
    assert h * (p * q) == (h * q) * p;
    assert (h * q + t) * p == (h * q) * p + t * p;
  }

  lemma Regroup3(m: int, z: int, p: int, l: int)
    ensures (m * p + z) * p + l == m * (p * p) + (z * p + l)
  {
    assert (m * p + z) * p == (m * p) * p + z * p;
    assert (m * p) * p == m * (p * p);
  }

  lemma TwoDigits(z: int, l: int, p: int)
    requires 0 <= z < p && 0 <= l < p
    ensures 0 <= z * p + l < p * p
  {
    assert 0 <= z * p;
    assert (p - 1 - z) * p >= 0;
    assert (p - 1 - z) * p == p * p - p - z * p;
  }

  lemma DroppedHigh(hi: nat, t: nat, p: nat, q: nat)
    requires p > 0
    ensures (hi % p * q + t) % p == (hi * q + t) % p
  {
    var d, r := hi / p, hi % p;
    DivMod(hi, p);
    Regroup1(d, r, p, q, t);
    RemainderShifts(r * q + t, d * q, p);
  }

  lemma AppendedLow(y: nat, l: nat, p: nat)
    requires p > 0 && l < p
    ensures p * p > 0
    ensures y % p * p + l == (y * p + l) % (p * p)
  {
    var m, z := y / p, y % p;
    DivMod(y, p);
    Regroup3(m, z, p, l);
    TwoDigits(z, l, p);
    RemainderIs(y * p + l, p * p, m, z * p + l);
  }

  /** Cutting a double word at bit w, in terms of the power of two p and what is left of a word. */
  lemma CutAt(hi: nat, lo: nat, p: nat, q: nat)
    requires p > 0 && q > 0 && p * q == W64 && lo < W64
    ensures p * p > 0
    ensures (hi % p * q + lo / p) % p * p + lo % p == (hi * W64 + lo) % (p * p)
  {
    var t, l := lo / p, lo % p;
    DivMod(lo, p);
    DroppedHigh(hi, t, p, q);
    Regroup2(hi, p, q, t, l);
    AppendedLow(hi * q + t, l, p);
  }

  lemma QuotientBelow(lo: nat, p: nat, q: nat)
    requires p > 0 && lo < p * q
    ensures lo / p < q
  {
    DivMod(lo, p);
    var t := lo / p;
    assert (t - q) * p == t * p - p * q;
  }

  /** The shifts, the or and the mask that give the upper half. */
  function CutHigh(hi: nat, lo: nat, w: nat): (r: nat)
    requires w <= 64
    ensures r < Power2(w)
  {
    LowBits(Or(ShiftLeft(hi, 64 - w), ShiftRight(lo, w)), w)
  }

  lemma CutHighIs(w: nat, lo: nat, hi: nat, p: nat, q: nat)
    requires 1 <= w < 64 && lo < W64 && p == Power2(w) && q == Power2(64 - w)
    ensures CutHigh(hi, lo, w) == (hi % p * q + lo / p) % p
  {
    Width64(w);
    LowBitsIsRemainder(Or(ShiftLeft(hi, 64 - w), ShiftRight(lo, w)), w);
    RemainderScales(hi, p, q);
    QuotientBelow(lo, p, q);
    OrDisjoint(hi % p, lo / p, 64 - w);
  }

  lemma CutIs(w: nat, lo: nat, hi: nat, p: nat)
    requires 1 <= w < 64 && lo < W64 && hi < W64 && p == Power2(w)
    ensures CutHigh(hi, lo, w) * p + LowBits(lo, w) == (hi * W64 + lo) % Power2(2 * w)
  {
    var q := Power2(64 - w);
    Width64(w);
    PowerSum(w, w);
    hide CutHigh, LowBits, Power2;
    LowBitsIsRemainder(lo, w);
    CutHighIs(w, lo, hi, p, q);
    CutAt(hi, lo, p, q);
  }

  lemma WholeDouble(lo: nat, hi: nat)
    requires lo < W64 && hi < W64
    ensures Power2(128) == W64 * W64 && (hi * W64 + lo) % Power2(128) == hi * W64 + lo
  {
    Power64();
    PowerSum(64, 64);
    RemainderIs(hi * W64 + lo, W64 * W64, 0, hi * W64 + lo);
  }

  /** prod_lo and prod_hi are the lowest 2w bits of a double word. */
  method ExtractHalves(w: nat, lo: nat, hi: nat) returns (prodLo: nat, prodHi: nat)
    requires 1 <= w <= 64 && lo < W64 && hi < W64
    ensures prodLo < Power2(w) && prodHi < Power2(w)
    ensures prodHi * Power2(w) + prodLo == (hi * W64 + lo) % Power2(2 * w)
  {
    if w == 64 {
      Power64();
      WholeDouble(lo, hi);
      prodLo, prodHi := lo, hi;
    } else {
      CutIs(w, lo, hi, Power2(w));
      prodLo := LowBits(lo, w);
      prodHi := LowBits(Or(ShiftLeft(hi, 64 - w), ShiftRight(lo, w)), w);
    }
  }

  // ---- Signed products ----

  /** Set all bits above w when bit w-1 is set. */
  function SignExtend(x: nat, w: nat): nat
    requires 1 <= w <= 64 && Power2(w) <= W64
  {
    if w < 64 && Bit(x, w - 1) then Or(x, Complement(Power2(w) - 1)) else x
  }

  /** The extended word, read as a signed 64-bit value, is the two's complement value. */
  lemma SignExtendIs(x: nat, w: nat)
    requires 1 <= w <= 64 && x < Power2(w)
    ensures Power2(w) <= W64 && SignExtend(x, w) < W64 && Signed64(SignExtend(x, w)) == SignedValue(x, w)
  {
    hide Power2, Or, Bit, Complement;
    if w == 64 {
      Power64();
      PowerStep(63);
    } else {
      Width64(w);
      PowerStep(w - 1);
      TopBit(x, w);
      NarrowWidth(w);
      if Bit(x, w - 1) {
        HighBits(x, w);
      }
    }
  }

  lemma NarrowWidth(w: nat)
    requires 1 <= w < 64
    ensures Power2(w) <= H64
  {
    Width64(w + 1);
    PowerStep(w);
  }

  /** Or with the complement of the mask adds everything above the mask. */
  lemma HighBits(x: nat, w: nat)
    requires 1 <= w <= 64 && x < Power2(w) && Power2(w) <= W64
    ensures Or(x, Complement(Power2(w) - 1)) == W64 - Power2(w) + x
  {
    var p, q := Power2(w), Power2(64 - w);
    Width64(w);
    LessOne(p, q);
    OrCommutes(x, (q - 1) * p);
    OrDisjoint(q - 1, x, w);
  }

  lemma LessOne(p: int, q: int)
    ensures (q - 1) * p == p * q - p && (p - 1) * (p - 1) == p * p - p - p + 1
  {
  }

  /** The absolute value, without leaving 64 bits at the smallest value. */
  function Magnitude(x: int): (r: nat)
    requires -H64 <= x < H64
    ensures r == C.Abs(x)
  {
    if x < 0 then -(x + 1) + 1 else x
  }

  method Negate128(lo: nat, hi: nat) returns (nlo: nat, nhi: nat)
    requires lo < W64 && hi < W64
    ensures nlo < W64 && nhi < W64
    ensures nhi * W64 + nlo == if lo == 0 && hi == 0 then 0 else W64 * W64 - (hi * W64 + lo)
  {
    nlo := Wrap(Complement(lo) + 1);
    nhi := Wrap(Complement(hi) + if nlo == 0 then 1 else 0);
  }

  /** Both halves of the product, for every width, unsigned or signed. */
  method Product(w: nat, signed: bool, a: nat, b: nat) returns (prodLo: nat, prodHi: nat)
    requires 1 <= w <= 64 && a < Power2(w) && b < Power2(w)
    ensures prodLo < Power2(w) && prodHi < Power2(w) && prodHi * Power2(w) + prodLo < Power2(2 * w)
    ensures ValueOf(prodHi * Power2(w) + prodLo, 2 * w, signed) == ValueOf(a, w, signed) * ValueOf(b, w, signed)
  {
    hide Power2, LowBits, Or, Bit;
    Width64(w);
    var lo, hi;
    if !signed {
      lo, hi := Multiply(a, b);
      UnsignedFits(w, a, b, hi * W64 + lo);
    } else {
      SignExtendIs(a, w);
      SignExtendIs(b, w);
      var sa, sb := Signed64(SignExtend(a, w)), Signed64(SignExtend(b, w));
      var sign := (sa < 0) != (sb < 0);
      SignedMagnitude(a, w);
      SignedMagnitude(b, w);
      lo, hi := Multiply(Magnitude(sa), Magnitude(sb));
      ghost var m := hi * W64 + lo;
      if sign {
        lo, hi := Negate128(lo, hi);
      }
      SignedFits(w, sa, sb, m, hi * W64 + lo);
    }
    prodLo, prodHi := ExtractHalves(w, lo, hi);
  }

  lemma ProductBelow(a: int, b: int, p: int)
    requires 0 <= a < p && 0 <= b < p
    ensures 0 <= a * b < p * p
  {
    ProductMonotone(a, b, p - 1, p - 1);
    LessOne(p, p);
  }

  lemma SmallRemainder(v: int, m: int)
    requires 0 <= v < m
    ensures v % m == v
  {
    RemainderIs(v, m, 0, v);
  }

  lemma UnsignedFits(w: nat, a: nat, b: nat, v: int)
    requires 1 <= w <= 64 && a < Power2(w) && b < Power2(w) && v == a * b
    ensures 0 <= v < Power2(2 * w) && v % Power2(2 * w) == v
  {
    PowerSum(w, w);
    hide Power2;
    ProductBelow(a, b, Power2(w));
    SmallRemainder(v, Power2(2 * w));
  }

  lemma SignedMagnitude(x: nat, w: nat)
    requires w > 0 && x < Power2(w)
    ensures C.Abs(SignedValue(x, w)) <= Power2(w - 1)
  {
    PowerStep(w - 1);
  }

  /** The 128-bit two's complement of the product of the magnitudes, cut to 2w bits, is the signed product. */
  lemma SignedFits(w: nat, sa: int, sb: int, m: int, x: int)
    requires 1 <= w <= 64 && C.Abs(sa) <= Power2(w - 1) && C.Abs(sb) <= Power2(w - 1)
    requires m == C.Abs(sa) * C.Abs(sb) && x == if (sa < 0) != (sb < 0) && m != 0 then W64 * W64 - m else m
    ensures x % Power2(2 * w) >= 0 && SignedValue(x % Power2(2 * w), 2 * w) == sa * sb
  {
    MagnitudeFits(w, C.Abs(sa), C.Abs(sb));
    C.SignOfProduct(sa, sb);
    MagnitudeNat(C.Abs(sa), C.Abs(sb));
    CutSigned(w, (sa < 0) != (sb < 0) && m != 0, m, x);
  }

  lemma MagnitudeNat(x: nat, y: nat)
    ensures x * y >= 0
  {
  }

  lemma MagnitudeFits(w: nat, x: nat, y: nat)
    requires w > 0 && x <= Power2(w - 1) && y <= Power2(w - 1)
    ensures x * y < Power2(2 * w - 1) && Power2(2 * w) == 2 * Power2(2 * w - 1)
  {
    ProductMonotone(x, y, Power2(w - 1), Power2(w - 1));
    PowerSum(w - 1, w - 1);
    assert 2 * w - 2 == (w - 1) + (w - 1);
    PowerStep(2 * w - 2);
    PowerStep(2 * w - 1);
  }

  lemma CutSigned(w: nat, neg: bool, m: int, x: int)
    requires 1 <= w <= 64 && 0 <= m < Power2(2 * w - 1) && Power2(2 * w) == 2 * Power2(2 * w - 1)
    requires x == (if neg then W64 * W64 - m else m) && (neg ==> m != 0)
    ensures x % Power2(2 * w) >= 0
    ensures SignedValue(x % Power2(2 * w), 2 * w) == if neg then -m else m
  {
    var p := Power2(2 * w);
    if !neg {
      RemainderIs(x, p, 0, m);
    } else {
      PowerSum(2 * w, 128 - 2 * w);
      WholeDouble(0, 0);
      var q := Power2(128 - 2 * w);
      LessOne(p, q);
      RemainderIs(x, p, q - 1, p - m);
    }
  }

  // ---- Division ----

  /** A signed result stored in w bits. */
  function Stored(x: int, w: nat): (r: nat)
    ensures r < Power2(w)
  {
    DivMod(x, Power2(w));
    x % Power2(w)
  }

  /** Quotient and remainder, from the magnitudes, with the signs put back; both are 0 for a zero divisor. */
  method Divide(w: nat, signed: bool, a: nat, b: nat) returns (quot: nat, rem: nat)
    requires 1 <= w <= 64 && a < Power2(w) && b < Power2(w)
    ensures b == 0 ==> quot == 0 && rem == 0
    ensures b != 0 ==>
      var x, y := ValueOf(a, w, signed), ValueOf(b, w, signed);
      y != 0 && quot == Stored(C.TruncDiv(x, y), w) && rem == Stored(C.TruncRem(x, y), w)
  {
    hide Power2, C.TruncDiv, C.TruncRem, SignExtend, LowBits, Wrap, Stored;
    Width64(w);
    if b == 0 {
      return 0, 0;
    }
    SignExtendIs(a, w);
    SignExtendIs(b, w);
    var ua, ub := if signed then SignExtend(a, w) else a, if signed then SignExtend(b, w) else b;
    var sa, sb := if signed then Signed64(ua) else ua, if signed then Signed64(ub) else ub;
    var neg, neb := sa < 0, sb < 0;
    var qa := if neg then Magnitude(sa) else ua;
    var qb := if neb then Magnitude(sb) else ub;
    MagnitudesDivide(sa, sb, qa, qb);
    var q: int, r: int := qa / qb, qa % qb;
    WrapNone(q);
    WrapNone(r);
    var q64 := if neg != neb then Wrap(-q) else q;
    var r64 := if neg then Wrap(-r) else r;
    LowOfWrapped(C.TruncDiv(sa, sb), q64, w);
    LowOfWrapped(C.TruncRem(sa, sb), r64, w);
    quot, rem := LowBits(q64, w), LowBits(r64, w);
  }

  lemma WrapNone(x: int)
    requires 0 <= x < W64
    ensures Wrap(x) == x
  {
  }

  /** Dividing the magnitudes and putting the signs back is truncating division with its remainder. */
  lemma MagnitudesDivide(x: int, y: int, m: int, n: int)
    requires y != 0 && m == C.Abs(x) && n == C.Abs(y)
    ensures n > 0 && 0 <= m / n <= m && 0 <= m % n <= m
    ensures C.TruncDiv(x, y) == if (x < 0) != (y < 0) then -(m / n) else m / n
    ensures C.TruncRem(x, y) == if x < 0 then -(m % n) else m % n
  {
    DivMod(m, n);
    QuotientNat(m, n);
    C.WithSign(x, y, m, n, m / n, m % n);
    ProductMonotone(m / n, 1, m / n, n);
  }

  /** The lowest bits of a wrapped word are those of the integer. */
  lemma LowOfWrapped(x: int, u: nat, w: nat)
    requires 1 <= w <= 64 && u == Wrap(x)
    ensures LowBits(u, w) == Stored(x, w)
  {
    Width64(w);
    LowBitsIsRemainder(u, w);
    var p, q := Power2(w), Power2(64 - w);
    DivMod(x, W64);
    hide Power2, LowBits;
    Reassociate(x / W64, p, q);
    RemainderShifts(u, x / W64 * q, p);
  }

  lemma Reassociate(k: int, p: int, q: int)
    ensures k * (p * q) == (k * q) * p
  {
    assert (k * q) * p == k * (q * p);
  }

  /** Storing keeps a value that fits, and any value modulo 2 to the w. */
  lemma StoredKeeps(x: int, w: nat, signed: bool) returns (k: int)
    requires w > 0
    ensures ValueOf(Stored(x, w), w, signed) == x + k * Power2(w)
    ensures signed && Lowest(w) <= x < Power2(w - 1) ==> k == 0
    ensures !signed && 0 <= x < Power2(w) ==> k == 0
  {
    var p := Power2(w);
    PowerStep(w - 1);
    DivMod(x, p);
    var s := x % p;
    if 0 <= x < p {
      RemainderIs(x, p, 0, x);
    } else if -p <= x < 0 {
      RemainderIs(x, p, -1, x + p);
    }
    k := if signed && s >= Power2(w - 1) then -(x / p) - 1 else -(x / p);
    NegatedMultiple(x / p, p);
  }

  lemma NegatedMultiple(q: int, p: int)
    ensures -q * p == -(q * p) && (-q - 1) * p == -(q * p) - p
  {
  }

  /** A quotient is as large as its dividend only for a divisor of 1 or -1. */
  lemma QuotientRange(x: int, y: int, h: int)
    requires y != 0 && h > 0 && -h <= x < h
    ensures -h <= C.TruncDiv(x, y) <= h
    ensures C.TruncDiv(x, y) == h <==> x == -h && y == -1
    ensures x >= 0 && y > 0 ==> 0 <= C.TruncDiv(x, y) <= x
  {
    var m, n := C.Abs(x), C.Abs(y);
    MagnitudesDivide(x, y, m, n);
    C.QuotientSmall(m, n, m / n, m % n);
  }

  /** What the divider stores: a is quot*b + rem modulo 2 to the w; rem is smaller than b and has the sign of a; and
      the stored quotient is the exact one unless the smallest value is divided by -1. */
  lemma DivisionHolds(w: nat, signed: bool, x: int, y: int, quot: int, rem: int)
    requires w > 0 && y != 0
    requires if signed then Lowest(w) <= x < Power2(w - 1) && Lowest(w) <= y < Power2(w - 1)
             else 0 <= x < Power2(w) && 0 <= y < Power2(w)
    requires quot == ValueOf(Stored(C.TruncDiv(x, y), w), w, signed)
    requires rem == ValueOf(Stored(C.TruncRem(x, y), w), w, signed)
    ensures C.Abs(rem) < C.Abs(y) && (rem == 0 || ((rem < 0) <==> (x < 0)))
    ensures (x - (quot * y + rem)) % Power2(w) == 0
    ensures quot == C.TruncDiv(x, y) <==> !(signed && x == Lowest(w) && y == -1)
  {
    var p, h := Power2(w), if signed then Power2(w - 1) else Power2(w);
    PowerStep(w - 1);
    var t, r := C.TruncDiv(x, y), C.TruncRem(x, y);
    C.TruncDivTruncates(x, y);
    QuotientRange(x, y, h);
    var k := StoredKeeps(t, w, signed);
    var k1 := StoredKeeps(r, w, signed);
    hide Power2, Stored, ValueOf, C.TruncDiv;
    assert C.TruncRem(x, y) == x - t * y;
    hide C.TruncRem;
    assert k1 == 0;
    assert rem == r;
    Leftover(x, y, t, k, p);
  }

  lemma Leftover(x: int, y: int, t: int, k: int, p: int)
    requires p > 0
    ensures (x - ((t + k * p) * y + (x - t * y))) % p == 0
    ensures k * p == 0 <==> k == 0
  {
    assert (t + k * p) * y == t * y + (k * p) * y;
    assert (k * p) * y == (k * y) * p;
    var d := -(k * y);
    assert x - ((t + k * p) * y + (x - t * y)) == d * p + 0;
    RemainderIs(d * p, p, d, 0);
    if k > 0 { assert k * p >= p by { ProductMonotone(1, p, k, p); } }
    if k < 0 { assert -k * p >= p by { ProductMonotone(1, p, -k, p); } }
  }

  // ---- Addition and subtraction ----

  function Carry(c: bool): nat {
    if c then 1 else 0
  }

  /** The lowest bits and what is above them, of a sum of two w-bit values and a carry. */
  lemma SumSplits(v: int, w: nat)
    requires 1 <= w < 64 && 0 <= v < 2 * Power2(w)
    ensures LowBits(v, w) == (if v >= Power2(w) then v - Power2(w) else v)
    ensures ShiftRight(v, w) != 0 <==> v >= Power2(w)
  {
    LowBitsIsRemainder(v, w);
    if v >= Power2(w) {
      RemainderIs(v, Power2(w), 1, v - Power2(w));
    } else {
      RemainderIs(v, Power2(w), 0, v);
    }
  }

  /** The sum with its carry out; in signed mode the carry out is the overflow. */
  method Add(w: nat, signed: bool, a: nat, b: nat, cin: bool) returns (sum: nat, cout: bool)
    requires 1 <= w <= 64 && a < Power2(w) && b < Power2(w)
    ensures sum < Power2(w)
    ensures !signed ==> sum + (if cout then Power2(w) else 0) == a + b + (if cin then 1 else 0)
    ensures signed ==>
      var v := SignedValue(a, w) + SignedValue(b, w) + (if cin then 1 else 0);
      (cout <==> !(Lowest(w) <= v < Power2(w - 1))) && (!cout ==> SignedValue(sum, w) == v)
  {
    var full := Wrap(Wrap(a + b) + Carry(cin));
    sum := if w < 64 then LowBits(full, w) else full;
    AddedWords(w, a, b, cin, full, sum);
    hide Power2, Bit, LowBits, ShiftRight, Wrap;
    if signed {
      OverflowOf(w, a, b, cin, sum);
      cout := Bit(a, w - 1) == Bit(b, w - 1) && Bit(sum, w - 1) != Bit(a, w - 1);
    } else if w < 64 {
      cout := ShiftRight(full, w) != 0;
    } else {
      cout := full < a || (cin && full == a);
    }
  }

  lemma OverflowOf(w: nat, a: nat, b: nat, cin: bool, sum: nat)
    requires 1 <= w <= 64 && a < Power2(w) && b < Power2(w) && sum < Power2(w)
    requires var v := a + b + Carry(cin); sum == if v >= Power2(w) then v - Power2(w) else v
    ensures var v := SignedValue(a, w) + SignedValue(b, w) + Carry(cin);
      var overflow := Bit(a, w - 1) == Bit(b, w - 1) && Bit(sum, w - 1) != Bit(a, w - 1);
      (overflow <==> !(Lowest(w) <= v < Power2(w - 1))) && (!overflow ==> SignedValue(sum, w) == v)
  {
    TopBit(a, w);
    TopBit(b, w);
    TopBit(sum, w);
    PowerStep(w - 1);
    SignedOverflow(a, b, Carry(cin), sum, Power2(w - 1), Power2(w));
    hide Power2, Bit;
  }

  lemma AddedWords(w: nat, a: nat, b: nat, cin: bool, full: int, sum: int)
    requires 1 <= w <= 64 && a < Power2(w) && b < Power2(w)
    requires full == Wrap(Wrap(a + b) + Carry(cin)) && sum == if w < 64 then LowBits(full, w) else full
    ensures var v := a + b + Carry(cin); var wide := v >= Power2(w);
      && 0 <= sum < Power2(w) && sum == (if wide then v - Power2(w) else v)
      && (w < 64 ==> (ShiftRight(full, w) != 0 <==> wide))
      && (w == 64 ==> (full < a || (cin && full == a) <==> wide))
  {
    WrapTwice(a + b, Carry(cin));
    Power64();
    hide Power2, LowBits, ShiftRight, Wrap;
    if w < 64 {
      NarrowWidth(w);
      SumSplits(a + b + Carry(cin), w);
      WrapNone(a + b + Carry(cin));
    } else {
      Sum64(a, b, cin);
    }
  }

  lemma WrapTwice(x: int, y: int)
    ensures Wrap(Wrap(x) + y) == Wrap(x + y)
  {
  }

  /** The carry out of 64 bits shows in a comparison. */
  lemma Sum64(a: int, b: int, cin: bool)
    requires 0 <= a < W64 && 0 <= b < W64
    ensures var full := Wrap(a + b + Carry(cin)); var cout := full < a || (cin && full == a);
      full < W64 && full + (if cout then W64 else 0) == a + b + Carry(cin)
  {
  }

  /** A signed sum overflows exactly when operands of one sign give a result of the other. */
  lemma SignedOverflow(a: int, b: int, c: int, sum: int, h: int, p: int)
    requires p == 2 * h && 0 <= a < p && 0 <= b < p && 0 <= c <= 1 && 0 <= sum < p
    requires sum == a + b + c || sum == a + b + c - p
    ensures var v := (if a >= h then a - p else a) + (if b >= h then b - p else b) + c;
      && (((a >= h) == (b >= h) && (sum >= h) != (a >= h)) <==> !(-h <= v < h))
      && (-h <= v < h ==> (if sum >= h then sum - p else sum) == v)
  {
  }

  lemma WrapNegative(v: int)
    requires -W64 <= v < 0
    ensures Wrap(v) == v + W64
  {
  }

  /** What is above the lowest bits when a difference has wrapped. */
  lemma DifferenceSplits(v: int, w: nat)
    requires 1 <= w < 64 && -(Power2(w) as int) <= v < Power2(w)
    ensures LowBits(Wrap(v), w) == (if v < 0 then v + Power2(w) else v)
    ensures ShiftRight(Wrap(v), w) != 0 <==> v < 0
  {
    var p, q := Power2(w), Power2(64 - w);
    Width64(w);
    NarrowWidth(w);
    LowBitsIsRemainder(Wrap(v), w);
    PowerStep(63 - w);
    hide Power2, LowBits, Wrap;
    if v < 0 {
      WrapNegative(v);
      LessOne(p, q);
      RemainderIs(v + W64, p, q - 1, v + p);
    } else {
      WrapNone(v);
      RemainderIs(v, p, 0, v);
    }
  }

  method Subtract(w: nat, a: nat, b: nat, bin: bool) returns (diff: nat, bout: bool)
    requires 1 <= w <= 64 && a < Power2(w) && b < Power2(w)
    ensures diff < Power2(w) && diff - (if bout then Power2(w) else 0) == a - b - (if bin then 1 else 0)
  {
    var full := Wrap(Wrap(a - b) - Carry(bin));
    diff := if w < 64 then LowBits(full, w) else full;
    SubtractedWords(w, a, b, bin, full, diff);
    if w < 64 {
      bout := ShiftRight(full, w) != 0;
    } else {
      bout := a < b || (bin && a == b);
    }
  }

  lemma SubtractedWords(w: nat, a: nat, b: nat, bin: bool, full: int, diff: int)
    requires 1 <= w <= 64 && a < Power2(w) && b < Power2(w)
    requires full == Wrap(Wrap(a - b) - Carry(bin)) && diff == if w < 64 then LowBits(full, w) else full
    ensures var v := a - b - Carry(bin);
      && 0 <= diff < Power2(w) && diff == (if v < 0 then v + Power2(w) else v)
      && (w < 64 ==> (ShiftRight(full, w) != 0 <==> v < 0))
  {
    WrapTwice(a - b, -(Carry(bin) as int));
    Power64();
    hide Power2, LowBits, ShiftRight;
    if w < 64 {
      DifferenceSplits(a - b - Carry(bin), w);
    }
  }
}
