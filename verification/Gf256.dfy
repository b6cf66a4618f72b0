/** The field GF(256) in which the Reed-Solomon code lives: bytes are polynomials over GF(2) of
    degree below 8, multiplied modulo x^8 + x^4 + x^3 + x^2 + 1 (0x11D). */
module Gf256 {

  /** An `unsigned char`. The bits are wrapped so that algebraic proofs, which hide the operations
      below, see an abstract field and no bit-vectors. */
  datatype Byte = Byte(bits: bv8)

  const ZERO := Byte(0)
  const ONE := Byte(1)

  function Add(a: Byte, b: Byte): Byte {
    Byte(a.bits ^ b.bits)
  }

  /** Multiplication by x, the field element 2. */
  function Xtime(z: Byte): Byte {
    Byte((z.bits << 1) ^ ((z.bits >> 7) * 0x1D))
  }

  /** The byte whose lowest bit is bit i of y, counted from the lowest. */
  function Bit(y: bv8, i: nat): bv8
    requires i < 8
  {
    if i == 0 then y else if i == 1 then y >> 1 else if i == 2 then y >> 2 else if i == 3 then y >> 3
    else if i == 4 then y >> 4 else if i == 5 then y >> 5 else if i == 6 then y >> 6 else y >> 7
  }

  /** x if the lowest bit of b is set, otherwise 0. */
  function Scale(b: bv8, x: Byte): Byte {
    Byte((0 - (b & 1)) & x.bits)
  }

  function Round(z: Byte, b: bv8, x: Byte): Byte {
    Add(Xtime(z), Scale(b, x))
  }

  /** x times the number written by the k highest bits of y. */
  function MulBits(x: Byte, y: Byte, k: nat): Byte
    requires k <= 8
  {
    if k == 0 then ZERO else Round(MulBits(x, y, k - 1), Bit(y.bits, 8 - k), x)
  }

  /** The product in the field. */
  function Mul(x: Byte, y: Byte): Byte {
    MulBits(x, y, 8)
  }

  // ---------- The loop of `multiply` ----------

  lemma ShiftIsBit(y: bv8, i: nat)
    requires i < 8
    ensures y >> i == Bit(y, i)
  {
    if i == 0 {} else if i == 1 {} else if i == 2 {} else if i == 3 {}
    else if i == 4 {} else if i == 5 {} else if i == 6 {} else {}
  }

  /** One round of the loop, on int-sized intermediates truncated to a byte. */
  function RoundBits(z: bv8, b: bv8, x: bv8): bv8 {
    ((((z as bv16) << 1) ^ (((z as bv16) >> 7) * 0x11D)) & 0xFF) as bv8 ^ ((b & 0x1) * x)
  }

  lemma RoundBitsIsRound(z: bv8, b: bv8, x: bv8)
    ensures Byte(RoundBits(z, b, x)) == Round(Byte(z), b, Byte(x))
  {
  }

  method Multiply(x: Byte, y: Byte) returns (product: Byte)
    ensures product == Mul(x, y)
  {
    hide Bit, Round;
    var z: bv8 := 0;
    var i := 7;
    while i >= 0
      invariant -1 <= i <= 7
      invariant Byte(z) == MulBits(x, y, 7 - i)
    {
      RoundBitsIsRound(z, y.bits >> i, x.bits);
      ShiftIsBit(y.bits, i);
      z := RoundBits(z, y.bits >> i, x.bits);
      i := i - 1;
    }
    product := Byte(z);
  }

  // ---------- The additive group ----------

  lemma AddAssociative(a: Byte, b: Byte, c: Byte)
    ensures Add(Add(a, b), c) == Add(a, Add(b, c))
  {
  }

  lemma AddLaws(a: Byte, b: Byte)
    ensures Add(a, b) == Add(b, a)
    ensures Add(a, ZERO) == a && Add(ZERO, a) == a
    ensures Add(a, a) == ZERO
    ensures Add(a, b) == ZERO ==> a == b
  {
  }

  lemma AddRegroup(a: Byte, b: Byte, c: Byte, d: Byte)
    ensures Add(Add(a, b), Add(c, d)) == Add(Add(a, c), Add(b, d))
  {
  }

  lemma XtimeLinear(a: Byte, b: Byte)
    ensures Xtime(Add(a, b)) == Add(Xtime(a), Xtime(b))
    ensures Xtime(ZERO) == ZERO
  {
  }

  lemma ScaleCases(s: bv8, a: Byte)
    ensures Scale(s, a) == if s & 1 == 1 then a else ZERO
  {
    assert s & 1 == 0 || s & 1 == 1;
  }

  lemma ScaleLinear(s: bv8, a: Byte, b: Byte)
    ensures Scale(s, Add(a, b)) == Add(Scale(s, a), Scale(s, b))
    ensures Scale(s, ZERO) == ZERO
    ensures Xtime(Scale(s, a)) == Scale(s, Xtime(a))
  {
    hide Scale, Add, Xtime;
    ScaleCases(s, Add(a, b));
    ScaleCases(s, a);
    ScaleCases(s, b);
    ScaleCases(s, Xtime(a));
    ScaleCases(s, ZERO);
    AddLaws(ZERO, ZERO);
    XtimeLinear(ZERO, ZERO);
  }

  // ---------- Multiplication: linear, compatible with Xtime, commutative, associative ----------

  lemma {:induction false} MulBitsLinear(a: Byte, b: Byte, y: Byte, k: nat)
    requires k <= 8
    ensures MulBits(Add(a, b), y, k) == Add(MulBits(a, y, k), MulBits(b, y, k))
  {
    hide Add, Xtime, Bit, Scale;
    AddLaws(ZERO, ZERO);
    if k == 0 {
    } else {
      MulBitsLinear(a, b, y, k - 1);
      var p, q := MulBits(a, y, k - 1), MulBits(b, y, k - 1);
      XtimeLinear(p, q);
      var s := Bit(y.bits, 8 - k);
      ScaleLinear(s, a, b);
      AddRegroup(Xtime(p), Xtime(q), Scale(s, a), Scale(s, b));
    }
  }

  lemma {:induction false} MulBitsXtime(x: Byte, y: Byte, k: nat)
    requires k <= 8
    ensures MulBits(Xtime(x), y, k) == Xtime(MulBits(x, y, k))
  {
    hide Add, Xtime, Bit, Scale;
    XtimeLinear(ZERO, ZERO);
    if k == 0 {
    } else {
      MulBitsXtime(x, y, k - 1);
      var s := Bit(y.bits, 8 - k);
      ScaleLinear(s, x, x);
      XtimeLinear(Xtime(MulBits(x, y, k - 1)), Scale(s, x));
    }
  }

  /** The eight rounds of the multiplication, spelled out. */
  function Unrolled(x: Byte, y: bv8): Byte {
    Round(Round(Round(Round(Round(Round(Round(Round(
      ZERO, y >> 7, x), y >> 6, x), y >> 5, x), y >> 4, x), y >> 3, x), y >> 2, x), y >> 1, x), y, x)
  }

  lemma MulBitsRound(x: Byte, y: Byte, k: nat)
    requires 0 < k <= 8
    ensures MulBits(x, y, k) == Round(MulBits(x, y, k - 1), Bit(y.bits, 8 - k), x)
  {
  }

  lemma MulIsUnrolled(x: Byte, y: Byte)
    ensures Mul(x, y) == Unrolled(x, y.bits)
  {
    hide Round, MulBits;
    MulBitsStart(x, y);
    MulBitsRound(x, y, 1);
    MulBitsRound(x, y, 2);
    MulBitsRound(x, y, 3);
    MulBitsRound(x, y, 4);
    MulBitsRound(x, y, 5);
    MulBitsRound(x, y, 6);
    MulBitsRound(x, y, 7);
    MulBitsRound(x, y, 8);
  }

  lemma MulBitsStart(x: Byte, y: Byte)
    ensures MulBits(x, y, 0) == ZERO
  {
  }

  lemma MulOneLeft(x: Byte)
    ensures Mul(ONE, x) == x
  {
    MulIsUnrolled(ONE, x);
    hide Mul;
  }

  lemma {:induction false} MulByPrefix(x: Byte, y: Byte, k: nat)
    requires k <= 8
    ensures Mul(MulBits(ONE, x, k), y) == MulBits(y, x, k)
  {
    hide Add, Xtime, Bit, Scale;
    if k == 0 {
      MulZeroLeft(y);
    } else {
      MulByPrefix(x, y, k - 1);
      var m := MulBits(ONE, x, k - 1);
      var s := Bit(x.bits, 8 - k);
      MulBitsLinear(Xtime(m), Scale(s, ONE), y, 8);
      MulBitsXtime(m, y, 8);
      ScaleLinear(s, ONE, y);
      MulOneLeft(y);
      MulZeroLeft(y);
      ScaleCases(s, ONE);
      ScaleCases(s, y);
    }
  }

  lemma MulZeroLeft(y: Byte)
    ensures Mul(ZERO, y) == ZERO
  {
    hide Add, MulBits;
    MulBitsLinear(ZERO, ZERO, y, 8);
    AddLaws(ZERO, ZERO);
    AddLaws(Mul(ZERO, y), Mul(ZERO, y));
  }

  lemma MulCommutes(x: Byte, y: Byte)
    ensures Mul(x, y) == Mul(y, x)
  {
    MulByPrefix(x, y, 8);
    MulOneLeft(x);
    hide MulBits;
  }

  lemma MulDistributes(a: Byte, b: Byte, y: Byte)
    ensures Mul(Add(a, b), y) == Add(Mul(a, y), Mul(b, y))
    ensures Mul(y, Add(a, b)) == Add(Mul(y, a), Mul(y, b))
  {
    MulBitsLinear(a, b, y, 8);
    hide MulBits, Add;
    MulCommutes(Add(a, b), y);
    MulCommutes(a, y);
    MulCommutes(b, y);
  }

  lemma MulIdentities(x: Byte)
    ensures Mul(x, ONE) == x && Mul(ONE, x) == x
    ensures Mul(x, ZERO) == ZERO && Mul(ZERO, x) == ZERO
  {
    hide MulBits;
    MulOneLeft(x);
    MulZeroLeft(x);
    MulCommutes(x, ONE);
    MulCommutes(x, ZERO);
  }

  lemma MulXtime(x: Byte, y: Byte)
    ensures Mul(Xtime(x), y) == Xtime(Mul(x, y))
    ensures Mul(x, Xtime(y)) == Xtime(Mul(x, y))
  {
    hide Xtime;
    MulBitsXtime(x, y, 8);
    MulBitsXtime(y, x, 8);
    hide MulBits;
    MulCommutes(x, Xtime(y));
    MulCommutes(x, y);
  }

  lemma {:induction false} MulPrefixAssociates(w: Byte, x: Byte, y: Byte, k: nat)
    requires k <= 8
    ensures MulBits(Mul(w, x), y, k) == Mul(w, MulBits(x, y, k))
  {
    hide Mul, Add, Xtime, Bit, Scale;
    if k == 0 {
      MulIdentities(w);
    } else {
      MulPrefixAssociates(w, x, y, k - 1);
      var m := MulBits(x, y, k - 1);
      var s := Bit(y.bits, 8 - k);
      MulXtime(w, m);
      MulDistributes(Xtime(m), Scale(s, x), w);
      ScaleCases(s, x);
      ScaleCases(s, Mul(w, x));
      MulIdentities(w);
    }
  }

  lemma MulAssociates(x: Byte, y: Byte, z: Byte)
    ensures Mul(Mul(x, y), z) == Mul(x, Mul(y, z))
  {
    MulPrefixAssociates(x, y, z, 8);
    hide MulBits;
  }

  // ---------- No zero divisors, by way of the subfield with 16 elements ----------

  /** The square of x: squaring is linear, so it spreads the bits of x. */
  function Squared(x: bv8): bv8 {
    (((x & 0x01) * 0x01) ^ (((x >> 1) & 0x01) * 0x04) ^ (((x >> 2) & 0x01) * 0x10) ^ (((x >> 3) & 0x01) * 0x40))
    ^ ((((x >> 4) & 0x01) * 0x1D) ^ (((x >> 5) & 0x01) * 0x74)
       ^ (((x >> 6) & 0x01) * 0xCD) ^ (((x >> 7) & 0x01) * 0x13))
  }

  lemma SquareIsProduct(x: bv8)
    ensures Mul(Byte(x), Byte(x)) == Byte(Squared(x))
  {
    MulIsUnrolled(Byte(x), Byte(x));
    hide Mul;
  }

  function Power16(x: bv8): bv8 {
    Squared(Squared(Squared(Squared(x))))
  }

  /** The elements with z^16 = z form the subfield with 16 elements. */
  predicate InSubfield(z: bv8) {
    Power16(z) == z
  }

  lemma SquareMultiplies(x: bv8, y: bv8, z: bv8)
    requires Byte(z) == Mul(Byte(x), Byte(y))
    ensures Byte(Squared(z)) == Mul(Byte(Squared(x)), Byte(Squared(y)))
  {
    hide Mul, Squared;
    SquareIsProduct(x);
    SquareIsProduct(y);
    SquareIsProduct(z);
    var a, b := Byte(x), Byte(y);
    MulAssociates(a, b, Byte(z));
    MulAssociates(b, a, b);
    MulAssociates(b, b, a);
    MulAssociates(a, a, Mul(b, b));
    MulAssociates(a, b, Mul(a, b));
    MulCommutes(a, b);
    MulCommutes(a, Mul(b, b));
  }

  lemma Power16Twice(x: bv8)
    ensures Power16(Power16(x)) == x
  {
  }

  lemma NormNonzero(x: bv8)
    requires x != 0
    ensures Mul(Byte(Power16(x)), Byte(x)) != ZERO
  {
    MulIsUnrolled(Byte(Power16(x)), Byte(x));
    hide Mul;
  }

  /** x^17 lies in the subfield. */
  lemma NormInSubfield(x: bv8, z: bv8)
    requires Byte(z) == Mul(Byte(Power16(x)), Byte(x))
    ensures InSubfield(z)
  {
    hide Mul, Squared;
    var y := Power16(x);
    SquareMultiplies(y, x, z);
    SquareMultiplies(Squared(y), Squared(x), Squared(z));
    SquareMultiplies(Squared(Squared(y)), Squared(Squared(x)), Squared(Squared(z)));
    SquareMultiplies(Squared(Squared(Squared(y))), Squared(Squared(Squared(x))), Squared(Squared(Squared(z))));
    Power16Twice(x);
    MulCommutes(Byte(y), Byte(x));
  }

  /** In the subfield, z^14 is the inverse of z. */
  lemma SubfieldInverse(z: bv8, z6: bv8, z14: bv8)
    requires z != 0 && InSubfield(z)
    requires Byte(z6) == Mul(Byte(Squared(z)), Byte(Squared(Squared(z))))
    requires Byte(z14) == Mul(Byte(z6), Byte(Squared(Squared(Squared(z)))))
    ensures Mul(Byte(z14), Byte(z)) == ONE
  {
    MulIsUnrolled(Byte(Squared(z)), Byte(Squared(Squared(z))));
    MulIsUnrolled(Byte(z6), Byte(Squared(Squared(Squared(z)))));
    MulIsUnrolled(Byte(z14), Byte(z));
    hide Mul;
  }

  /** Every nonzero byte x has an inverse, namely (x^17)^14 * x^16. */
  lemma MulInverse(x: Byte) returns (w: Byte)
    requires x != ZERO
    ensures Mul(w, x) == ONE
  {
    hide Mul, Power16, Squared;
    var x16 := Byte(Power16(x.bits));
    var z := Mul(x16, x);
    NormNonzero(x.bits);
    NormInSubfield(x.bits, z.bits);
    var z2 := Squared(z.bits);
    var z4 := Squared(z2);
    var z6 := Mul(Byte(z2), Byte(z4));
    var z14 := Mul(z6, Byte(Squared(z4)));
    SubfieldInverse(z.bits, z6.bits, z14.bits);
    w := Mul(z14, x16);
    MulAssociates(z14, x16, x);
  }

  lemma NoZeroDivisors(x: Byte, y: Byte)
    requires Mul(x, y) == ZERO
    ensures x == ZERO || y == ZERO
  {
    hide Mul;
    if x != ZERO {
      var w := MulInverse(x);
      MulAssociates(w, x, y);
      MulIdentities(y);
      MulIdentities(w);
    }
  }

  // ---------- The powers of 2 ----------

  const TWO := Byte(2)

  /** 2 to the power n. */
  function Alpha(n: nat): Byte {
    if n == 0 then ONE else Mul(Alpha(n - 1), TWO)
  }

  lemma {:induction false} AlphaAdds(m: nat, n: nat)
    ensures Alpha(m + n) == Mul(Alpha(m), Alpha(n))
  {
    hide Mul;
    if n == 0 {
      MulIdentities(Alpha(m));
    } else {
      AlphaAdds(m, n - 1);
      MulAssociates(Alpha(m), Alpha(n - 1), TWO);
    }
  }

  lemma {:induction false} AlphaNonzero(n: nat)
    ensures Alpha(n) != ZERO
  {
    hide Mul;
    if n == 0 {
    } else {
      AlphaNonzero(n - 1);
      if Alpha(n) == ZERO {
        NoZeroDivisors(Alpha(n - 1), TWO);
      }
    }
  }

  /** Products of known bytes are computed, not reasoned about. */
  lemma AlphaProduct(m: nat, n: nat, x: Byte, y: Byte, z: Byte)
    requires Alpha(m) == x && Alpha(n) == y
    requires Unrolled(x, y.bits) == z
    ensures Alpha(m + n) == z
  {
    AlphaAdds(m, n);
    MulIsUnrolled(x, y);
  }

  lemma AlphaStart()
    ensures Alpha(0) == ONE && Alpha(1) == TWO
  {
    MulIdentities(TWO);
    hide Mul;
    assert Alpha(1) == Mul(Alpha(0), TWO);
  }

  /** The field is that of x^8 + x^4 + x^3 + x^2 + 1. */
  lemma FieldPolynomial()
    ensures Alpha(8) == Add(Add(Alpha(4), Alpha(3)), Add(Alpha(2), Alpha(0)))
    ensures Alpha(1) == Byte(2) && Alpha(8) == Byte(0x1D)
  {
    hide Alpha;
    AlphaStart();
    AlphaProduct(1, 1, TWO, TWO, Byte(4));
    AlphaProduct(2, 1, Byte(4), TWO, Byte(8));
    AlphaProduct(2, 2, Byte(4), Byte(4), Byte(0x10));
    AlphaProduct(4, 4, Byte(0x10), Byte(0x10), Byte(0x1D));
  }

  lemma AlphaFifteen()
    ensures Alpha(2) == Byte(4) && Alpha(15) == Byte(0x26)
  {
    hide Mul;
    AlphaStart();
    AlphaProduct(1, 1, TWO, TWO, Byte(4));
    AlphaProduct(2, 2, Byte(4), Byte(4), Byte(0x10));
    AlphaProduct(4, 1, Byte(0x10), TWO, Byte(0x20));
    AlphaProduct(5, 5, Byte(0x20), Byte(0x20), Byte(0x74));
    AlphaProduct(10, 5, Byte(0x74), Byte(0x20), Byte(0x26));
  }

  lemma AlphaFiftyOne()
    ensures Alpha(34) == Byte(0x4E) && Alpha(51) == Byte(0x0A)
  {
    hide Mul;
    AlphaFifteen();
    AlphaProduct(15, 2, Byte(0x26), Byte(4), Byte(0x98));
    AlphaProduct(17, 17, Byte(0x98), Byte(0x98), Byte(0x4E));
    AlphaProduct(34, 17, Byte(0x4E), Byte(0x98), Byte(0x0A));
  }

  lemma AlphaEightyFive()
    ensures Alpha(85) == Byte(0xD6) && Alpha(170) == Byte(0xD7)
  {
    hide Mul;
    AlphaFiftyOne();
    AlphaProduct(51, 34, Byte(0x0A), Byte(0x4E), Byte(0xD6));
    AlphaProduct(85, 85, Byte(0xD6), Byte(0xD6), Byte(0xD7));
  }

  lemma AlphaValues()
    ensures Alpha(15) == Byte(0x26) && Alpha(51) == Byte(0x0A) && Alpha(85) == Byte(0xD6) && Alpha(255) == ONE
  {
    hide Mul;
    AlphaFifteen();
    AlphaFiftyOne();
    AlphaEightyFive();
    AlphaProduct(170, 85, Byte(0xD7), Byte(0xD6), ONE);
  }

  /** If 2^a = 2^b = 1 then 2^g = 1 for some common divisor g of a and b. */
  lemma {:induction false} CommonPeriod(a: nat, b: nat) returns (g: nat, p: nat, q: nat)
    requires 0 < a && 0 < b
    requires Alpha(a) == ONE && Alpha(b) == ONE
    ensures 0 < g && 0 < p && a == g * p && b == g * q && Alpha(g) == ONE
    decreases a + b
  {
    hide Mul, Alpha;
    if a == b {
      g, p, q := a, 1, 1;
    } else if a < b {
      AlphaAdds(a, b - a);
      MulIdentities(Alpha(b - a));
      g, p, q := CommonPeriod(a, b - a);
      q := p + q;
    } else {
      AlphaAdds(b, a - b);
      MulIdentities(Alpha(a - b));
      g, p, q := CommonPeriod(a - b, b);
      p := p + q;
    }
  }

  /** The multiples of a period are periods. */
  lemma {:induction false} PeriodMultiple(g: nat, k: nat)
    requires Alpha(g) == ONE
    ensures Alpha(g * k) == ONE
  {
    hide Mul;
    if k > 0 {
      PeriodMultiple(g, k - 1);
      assert g * k == g * (k - 1) + g;
      AlphaAdds(g * (k - 1), g);
      MulIdentities(ONE);
    } else {
      assert g * k == 0;
    }
  }

  lemma ProperDivisorOf255(g: nat, q: nat) returns (k: nat)
    requires g < 255 && 255 == g * q
    ensures g * k == 15 || g * k == 51 || g * k == 85
  {
    if q % 3 == 0 {
      k := q / 3;
    } else if q % 5 == 0 {
      k := q / 5;
    } else {
      EuclidThree(g, q, 85);
      var h := g / 3;
      EuclidFive(h, q, 17);
      var f := h / 5;
      assert q * f == 17 && f < 17;
      k := 1;
    }
  }

  lemma EuclidThree(g: nat, q: nat, m: nat)
    requires g * q == 3 * m && q % 3 != 0
    ensures g == 3 * (g / 3)
  {
    var r := g % 3;
    DivideProduct(g, q, 3, m);
    if r == 1 { assert false; } else if r == 2 { assert false; }
  }

  lemma EuclidFive(g: nat, q: nat, m: nat)
    requires g * q == 5 * m && q % 5 != 0
    ensures g == 5 * (g / 5)
  {
    var r := g % 5;
    DivideProduct(g, q, 5, m);
    if r == 1 { assert false; } else if r == 2 { assert false; }
    else if r == 3 { assert false; } else if r == 4 { assert false; }
  }

  lemma DivideProduct(g: nat, q: nat, d: nat, m: nat)
    requires 0 < d && g * q == d * m
    ensures (g % d) * q == d * (m - (g / d) * q)
  {
    var a, r := g / d, g % d;
    assert g == d * a + r;
    assert g * q == (d * a) * q + r * q;
    assert (d * a) * q == d * (a * q);
  }

  lemma AlphaBelowPeriod(n: nat)
    requires 0 < n < 255
    ensures Alpha(n) != ONE
  {
    hide Alpha;
    AlphaValues();
    if Alpha(n) == ONE {
      var g, p, q := CommonPeriod(n, 255);
      var k := ProperDivisorOf255(g, q);
      PeriodMultiple(g, k);
    }
  }

  /** The order of 2 is exactly 255: its powers repeat with that period, and no other power is 1. */
  lemma {:induction false} AlphaOrder(n: nat)
    ensures Alpha(n + 255) == Alpha(n)
    ensures Alpha(n) == ONE <==> n % 255 == 0
  {
    hide Alpha, Mul;
    AlphaValues();
    AlphaAdds(n, 255);
    MulIdentities(Alpha(n));
    AlphaStart();
    if n == 0 {
    } else if n < 255 {
      AlphaBelowPeriod(n);
    } else {
      AlphaOrder(n - 255);
    }
  }

  /** The powers 2^0 .. 2^254 are pairwise distinct. */
  lemma AlphaDistinct(m: nat, n: nat)
    requires m < n < m + 255
    ensures Alpha(m) != Alpha(n)
  {
    hide Mul;
    if Alpha(m) == Alpha(n) {
      AlphaAdds(m, n - m);
      MulIdentities(Alpha(m));
      MulDistributes(ONE, Alpha(n - m), Alpha(m));
      AddLaws(Alpha(m), Alpha(m));
      AddLaws(ONE, Alpha(n - m));
      NoZeroDivisors(Alpha(m), Add(ONE, Alpha(n - m)));
      AlphaNonzero(m);
      AlphaBelowPeriod(n - m);
    }
  }
}
