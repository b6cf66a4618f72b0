/** The Reed-Solomon code of the QR encoder: the generator polynomial, the remainder computed by the
    shift register, and what the code is for (zero syndromes, minimum distance, unique decoding). */
module ReedSolomon {
  import opened Common
  import opened Gf256

  /** A polynomial over GF(256), highest coefficient first. */
  type Poly = seq<Byte>

  function Pow(x: Byte, n: nat): Byte {
    if n == 0 then ONE else Mul(Pow(x, n - 1), x)
  }

  /** The value of p at x. */
  function Eval(p: Poly, x: Byte): Byte {
    if |p| == 0 then ZERO else Add(Mul(p[0], Pow(x, |p| - 1)), Eval(p[1..], x))
  }

  // ---------- The generator polynomial ----------

  /** p times (x + r). */
  function TimesRoot(p: Poly, r: Byte): (q: Poly)
    ensures |q| == |p| + 1
  {
    seq(|p| + 1, j requires 0 <= j <= |p| =>
      Add(if j < |p| then p[j] else ZERO, if j > 0 then Mul(p[j - 1], r) else ZERO))
  }

  /** The product of (x + 2^i) for i < d. */
  function Product(d: nat): (p: Poly)
    ensures |p| == d + 1
  {
    if d == 0 then [ONE] else TimesRoot(Product(d - 1), Alpha(d - 1))
  }

  /** All coefficients of the product but the leading one. */
  function Generator(degree: nat): (g: Poly)
    ensures |g| == degree
  {
    Product(degree)[1..]
  }

  /** What the array holds after i rounds: the last `degree` coefficients of the product so far. */
  function Window(i: nat, degree: nat): (w: Poly)
    requires i <= degree
    ensures |w| == degree
  {
    seq(degree, j requires 0 <= j < degree =>
      if j + i + 1 < degree then ZERO else Product(i)[j + i + 1 - degree])
  }

  lemma WindowStep(i: nat, degree: nat, j: nat)
    requires i < degree && j < degree
    ensures Window(i + 1, degree)[j] ==
            Add(Mul(Window(i, degree)[j], Alpha(i)), if j + 1 < degree then Window(i, degree)[j + 1] else ZERO)
  {
    hide Add, Mul;
    var p := Product(i);
    assert Product(i + 1) == TimesRoot(p, Alpha(i));
    var r := Alpha(i);
    MulIdentities(r);
    AddLaws(ZERO, ZERO);
    if j + i + 2 < degree {
    } else {
      var k := j + i + 2 - degree;
      AddLaws(if k < |p| then p[k] else ZERO, if k > 0 then Mul(p[k - 1], r) else ZERO);
    }
  }

  lemma WindowStart(degree: nat)
    requires 1 <= degree
    ensures forall j :: 0 <= j < degree ==> Window(0, degree)[j] == if j == degree - 1 then ONE else ZERO
  {
    assert Product(0) == [ONE];
  }

  method ReedSolomonPoly(result: array<Byte>, degree: nat)
    requires 1 <= degree <= result.Length
    modifies result
    ensures result[..degree] == Generator(degree)
    ensures result[degree..] == old(result[degree..])
  {
    hide Add, Mul;
    var root := ONE;
    forall j | 0 <= j < degree {
      result[j] := ZERO;
    }
    result[degree - 1] := ONE;
    WindowStart(degree);
    assert result[..degree] == Window(0, degree);
    var i := 0;
    while i < degree
      invariant 0 <= i <= degree
      invariant root == Alpha(i)
      invariant result[..degree] == Window(i, degree)
      invariant result[degree..] == old(result[degree..])
    {
      ghost var before := result[..degree];
      var j := 0;
      while j < degree
        invariant 0 <= j <= degree
        invariant forall k :: 0 <= k < j ==> result[k] == Window(i + 1, degree)[k]
        invariant forall k :: j <= k < degree ==> result[k] == before[k]
        invariant result[degree..] == old(result[degree..])
      {
        WindowStep(i, degree, j);
        var product := Multiply(result[j], root);
        result[j] := product;
        AddLaws(product, product);
        if j + 1 < degree {
          result[j] := Add(result[j], result[j + 1]);
        }
        j := j + 1;
      }
      assert result[..degree] == Window(i + 1, degree);
      root := Multiply(root, TWO);
      i := i + 1;
    }
  }

  // ---------- The shift register ----------

  /** One round of the division: shift the remainder, then cancel what was shifted out. */
  function RemainderStep(g: Poly, r: Poly, d: Byte): (r': Poly)
    requires 0 < |g| == |r|
    ensures |r'| == |g|
  {
    var factor := Add(d, r[0]);
    seq(|g|, j requires 0 <= j < |g| =>
      Add(if j + 1 < |g| then r[j + 1] else ZERO, Mul(g[j], factor)))
  }

  /** The error correction bytes of a data block. */
  function Remainder(g: Poly, data: seq<Byte>): (r: Poly)
    requires 0 < |g|
    ensures |r| == |g|
  {
    if |data| == 0 then seq(|g|, _ => ZERO)
    else RemainderStep(g, Remainder(g, data[..|data| - 1]), data[|data| - 1])
  }

  /** memmove of the register by one byte, with a zero moved in. */
  method ShiftOut(result: array<Byte>, degree: nat)
    requires 1 <= degree <= result.Length
    modifies result
    ensures result[..] == old(result[1..degree]) + [ZERO] + old(result[degree..])
  {
    ghost var r := result[..];
    forall j | 0 <= j < degree - 1 {
      result[j] := result[j + 1];
    }
    result[degree - 1] := ZERO;
  }

  /** The in-place step of `reedSolomonCalc` for the next data byte d. */
  method ShiftIn(generator: array<Byte>, d: Byte, result: array<Byte>, degree: nat)
    requires 1 <= degree <= generator.Length && degree <= result.Length
    requires result != generator
    modifies result
    ensures result[..degree] == RemainderStep(generator[..degree], old(result[..degree]), d)
    ensures result[degree..] == old(result[degree..])
  {
    hide Add, Mul, RemainderStep;
    ghost var r, g := result[..degree], generator[..degree];
    var factor := Add(d, result[0]);
    ShiftOut(result, degree);
    ghost var shifted := result[..];
    var j := 0;
    while j < degree
      invariant 0 <= j <= degree
      invariant forall k :: 0 <= k < j ==> result[k] == Add(shifted[k], Mul(g[k], factor))
      invariant result[j..] == shifted[j..]
    {
      assert result[j] == result[j..][0] == shifted[j];
      var product := Multiply(generator[j], factor);
      result[j] := Add(result[j], product);
      j := j + 1;
      assert result[j..] == shifted[j..];
    }
    RemainderStepAt(g, r, d, result[..degree]);
  }

  lemma RemainderStepAt(g: Poly, r: Poly, d: Byte, s: Poly)
    requires 0 < |g| == |r| == |s|
    requires forall k :: 0 <= k < |g| ==> s[k] == Add((r[1..] + [ZERO])[k], Mul(g[k], Add(d, r[0])))
    ensures s == RemainderStep(g, r, d)
  {
    hide Add, Mul;
  }

  method ReedSolomonCalc(generator: array<Byte>, data: array<Byte>, start: nat, dataLen: nat,
                         result: array<Byte>, degree: nat)
    requires 1 <= degree <= generator.Length && degree <= result.Length
    requires start + dataLen <= data.Length
    requires result != generator && result != data
    modifies result
    ensures result[..degree] == Remainder(generator[..degree], data[start..start + dataLen])
    ensures result[degree..] == old(result[degree..])
  {
    hide Add, Mul, RemainderStep;
    ghost var g := generator[..degree];
    forall j | 0 <= j < degree {
      result[j] := ZERO;
    }
    assert data[start..start] == [];
    assert result[..degree] == Remainder(g, []);
    var i := 0;
    while i < dataLen
      invariant 0 <= i <= dataLen
      invariant generator[..degree] == g
      invariant result[..degree] == Remainder(g, data[start..start + i])
      invariant result[degree..] == old(result[degree..])
    {
      ShiftIn(generator, data[start + i], result, degree);
      assert data[start..start + i + 1] == data[start..start + i] + [data[start + i]];
      i := i + 1;
    }
  }

  // ---------- Evaluation ----------

  lemma {:induction false} PowAdds(x: Byte, m: nat, n: nat)
    ensures Pow(x, m + n) == Mul(Pow(x, m), Pow(x, n))
  {
    hide Mul;
    if n == 0 {
      MulIdentities(Pow(x, m));
    } else {
      PowAdds(x, m, n - 1);
      MulAssociates(Pow(x, m), Pow(x, n - 1), x);
    }
  }

  lemma {:induction false} EvalConcat(p: Poly, q: Poly, x: Byte)
    ensures Eval(p + q, x) == Add(Mul(Eval(p, x), Pow(x, |q|)), Eval(q, x))
  {
    hide Add, Mul;
    var e := Pow(x, |q|);
    if p == [] {
      assert p + q == q;
      MulIdentities(e);
      AddLaws(Eval(q, x), ZERO);
    } else {
      EvalConcat(p[1..], q, x);
      assert (p + q)[1..] == p[1..] + q;
      PowAdds(x, |p| - 1, |q|);
      MulAssociates(p[0], Pow(x, |p| - 1), e);
      MulDistributes(Mul(p[0], Pow(x, |p| - 1)), Eval(p[1..], x), e);
      AddAssociative(Mul(Mul(p[0], Pow(x, |p| - 1)), e), Mul(Eval(p[1..], x), e), Eval(q, x));
    }
  }

  lemma EvalSingle(c: Byte, x: Byte)
    ensures Eval([c], x) == c
  {
    hide Add, Mul;
    assert Eval([c], x) == Add(Mul(c, Pow(x, 0)), Eval([], x));
    MulIdentities(c);
    AddLaws(c, ZERO);
  }

  lemma EvalAppend(p: Poly, c: Byte, x: Byte)
    ensures Eval(p + [c], x) == Add(Mul(Eval(p, x), x), c)
  {
    hide Add, Mul;
    EvalConcat(p, [c], x);
    EvalSingle(c, x);
    assert Pow(x, 1) == Mul(Pow(x, 0), x);
    MulIdentities(x);
  }

  /** Evaluation is linear: a + b * f at x. */
  lemma {:induction false} EvalScaledSum(a: Poly, b: Poly, f: Byte, s: Poly, x: Byte)
    requires |a| == |b| == |s|
    requires forall j :: 0 <= j < |s| ==> s[j] == Add(a[j], Mul(b[j], f))
    ensures Eval(s, x) == Add(Eval(a, x), Mul(Eval(b, x), f))
  {
    hide Add, Mul;
    if |s| == 0 {
      MulIdentities(f);
      AddLaws(ZERO, ZERO);
    } else {
      EvalScaledSum(a[1..], b[1..], f, s[1..], x);
      var e := Pow(x, |s| - 1);
      var u, v := Eval(a[1..], x), Eval(b[1..], x);
      MulDistributes(a[0], Mul(b[0], f), e);
      MulAssociates(b[0], f, e);
      MulCommutes(f, e);
      MulAssociates(b[0], e, f);
      MulDistributes(Mul(b[0], e), v, f);
      AddRegroup(Mul(a[0], e), Mul(Mul(b[0], e), f), u, Mul(v, f));
    }
  }

  // ---------- The generator has the roots 2^0 .. 2^(degree-1) ----------

  /** The product of (x + 2^i) for i < d, as a number. */
  function RootProduct(d: nat, x: Byte): Byte {
    if d == 0 then ONE else Mul(RootProduct(d - 1, x), Add(x, Alpha(d - 1)))
  }

  lemma EvalTimesRoot(p: Poly, r: Byte, x: Byte)
    requires |p| > 0
    ensures Eval(TimesRoot(p, r), x) == Mul(Eval(p, x), Add(x, r))
  {
    hide Add, Mul;
    EvalScaledSum(p + [ZERO], [ZERO] + p, r, TimesRoot(p, r), x) by {
      forall j | 0 <= j <= |p|
        ensures TimesRoot(p, r)[j] == Add((p + [ZERO])[j], Mul(([ZERO] + p)[j], r))
      {
        MulIdentities(r);
      }
    }
    EvalAppend(p, ZERO, x);
    AddLaws(Mul(Eval(p, x), x), ZERO);
    assert ([ZERO] + p)[1..] == p;
    MulIdentities(Pow(x, |p|));
    AddLaws(Eval(p, x), ZERO);
    MulDistributes(x, r, Eval(p, x));
  }

  /** The coefficients held by `reedSolomonPoly` are those of the product of (x + 2^i), i < degree. */
  lemma {:induction false} GeneratorIsProduct(d: nat, x: Byte)
    ensures Eval([ONE] + Generator(d), x) == RootProduct(d, x)
  {
    hide Add, Mul;
    if d == 0 {
      EvalSingle(ONE, x);
      assert [ONE] + Generator(0) == [ONE];
    } else {
      GeneratorIsProduct(d - 1, x);
      ProductIsMonic(d - 1);
      ProductIsMonic(d);
      assert [ONE] + Generator(d - 1) == Product(d - 1);
      assert [ONE] + Generator(d) == Product(d);
      EvalTimesRoot(Product(d - 1), Alpha(d - 1), x);
    }
  }

  lemma {:induction false} ProductIsMonic(d: nat)
    ensures Product(d)[0] == ONE
  {
    hide Add, Mul;
    if d == 0 {
    } else {
      ProductIsMonic(d - 1);
      AddLaws(ONE, ZERO);
    }
  }

  lemma {:induction false} RootProductVanishes(d: nat, k: nat)
    requires k < d
    ensures RootProduct(d, Alpha(k)) == ZERO
  {
    hide Add, Mul;
    var x := Alpha(k);
    if k == d - 1 {
      AddLaws(x, x);
      MulIdentities(RootProduct(d - 1, x));
    } else {
      RootProductVanishes(d - 1, k);
      MulIdentities(Add(x, Alpha(d - 1)));
    }
  }

  // ---------- Codewords vanish at the roots ----------

  function Codeword(data: seq<Byte>, degree: nat): (w: seq<Byte>)
    requires 1 <= degree
    ensures |w| == |data| + degree
  {
    data + Remainder(Generator(degree), data)
  }

  /** Modulo the generator, x^n equals the generator's low part. */
  lemma GeneratorTail(g: Poly, x: Byte)
    requires Eval([ONE] + g, x) == ZERO
    ensures Eval(g, x) == Pow(x, |g|)
  {
    hide Add, Mul;
    assert ([ONE] + g)[1..] == g;
    MulIdentities(Pow(x, |g|));
    AddLaws(Pow(x, |g|), Eval(g, x));
  }

  /** Shifting the register multiplies by x and drops r[0] * x^n. */
  lemma ShiftEval(r: Poly, x: Byte)
    requires 0 < |r|
    ensures Mul(Eval(r, x), x) == Add(Mul(r[0], Pow(x, |r|)), Eval(r[1..] + [ZERO], x))
  {
    hide Add, Mul;
    var low, e := Eval(r[1..], x), Pow(x, |r| - 1);
    EvalAppend(r[1..], ZERO, x);
    AddLaws(Mul(low, x), ZERO);
    MulDistributes(Mul(r[0], e), low, x);
    MulAssociates(r[0], e, x);
  }

  /** One round of the register, as arithmetic modulo the generator. */
  lemma RemainderStepEval(g: Poly, r: Poly, d: Byte, x: Byte)
    requires 0 < |g| == |r|
    requires Eval([ONE] + g, x) == ZERO
    ensures Eval(RemainderStep(g, r, d), x) == Add(Mul(Eval(r, x), x), Mul(d, Pow(x, |g|)))
  {
    hide Add, Mul, Eval;
    var e := Pow(x, |g|);
    var f := Add(d, r[0]);
    EvalScaledSum(r[1..] + [ZERO], g, f, RemainderStep(g, r, d), x);
    GeneratorTail(g, x);
    ShiftEval(r, x);
    MulDistributes(d, r[0], e);
    MulCommutes(e, f);
    CancelTwice(Eval(r[1..] + [ZERO], x), Mul(d, e), Mul(r[0], e));
  }

  lemma CancelTwice(a: Byte, b: Byte, c: Byte)
    ensures Add(a, Add(b, c)) == Add(Add(c, a), b)
  {
  }

  lemma {:induction false} RemainderEval(g: Poly, data: seq<Byte>, x: Byte)
    requires 0 < |g|
    requires Eval([ONE] + g, x) == ZERO
    ensures Eval(Remainder(g, data), x) == Mul(Eval(data, x), Pow(x, |g|))
  {
    hide Add, Mul, RemainderStep;
    var e := Pow(x, |g|);
    if |data| == 0 {
      EvalZeros(|g|, x);
      MulIdentities(e);
    } else {
      var front, d := data[..|data| - 1], data[|data| - 1];
      RemainderEval(g, front, x);
      RemainderStepEval(g, Remainder(g, front), d, x);
      assert data == front + [d];
      EvalAppend(front, d, x);
      MulDistributes(Mul(Eval(front, x), x), d, e);
      MulAssociates(Eval(front, x), e, x);
      MulAssociates(Eval(front, x), x, e);
      MulCommutes(x, e);
    }
  }

  lemma {:induction false} EvalZeros(n: nat, x: Byte)
    ensures Eval(seq(n, _ => ZERO), x) == ZERO
  {
    hide Add, Mul;
    if n == 0 {
    } else {
      EvalZeros(n - 1, x);
      assert seq(n, _ => ZERO)[1..] == seq(n - 1, _ => ZERO);
      MulIdentities(Pow(x, n - 1));
      AddLaws(ZERO, ZERO);
    }
  }

  /** Data followed by its remainder evaluates to 0 at every root of the generator. */
  lemma CodewordVanishes(data: seq<Byte>, degree: nat, k: nat)
    requires k < degree
    ensures Eval(Codeword(data, degree), Alpha(k)) == ZERO
  {
    hide Add, Mul;
    var g, x := Generator(degree), Alpha(k);
    GeneratorIsProduct(degree, x);
    RootProductVanishes(degree, k);
    RemainderEval(g, data, x);
    EvalConcat(data, Remainder(g, data), x);
    AddLaws(Eval(Remainder(g, data), x), ZERO);
  }

  // ---------- Minimum distance ----------

  /** A nonzero coefficient of a word, with the power of 2 its position stands for. */
  datatype Term = Term(coef: Byte, loc: Byte)

  function PowerSum(ts: seq<Term>, k: nat): Byte {
    if ts == [] then ZERO else Add(Mul(ts[0].coef, Pow(ts[0].loc, k)), PowerSum(ts[1..], k))
  }

  predicate Independent(ts: seq<Term>) {
    && (forall i :: 0 <= i < |ts| ==> ts[i].coef != ZERO)
    && (forall i, j :: 0 <= i < j < |ts| ==> ts[i].loc != ts[j].loc)
  }

  /** Eliminates the locator x: each coefficient c at locator y becomes c * (y + x). */
  function Eliminate(ts: seq<Term>, x: Byte): (us: seq<Term>)
    ensures |us| == |ts|
  {
    seq(|ts|, i requires 0 <= i < |ts| => Term(Mul(ts[i].coef, Add(ts[i].loc, x)), ts[i].loc))
  }

  lemma EliminateTerm(c: Byte, y: Byte, x: Byte, k: nat)
    ensures Mul(Mul(c, Add(y, x)), Pow(y, k)) == Add(Mul(c, Pow(y, k + 1)), Mul(x, Mul(c, Pow(y, k))))
  {
    hide Add, Mul;
    var e := Pow(y, k);
    MulAssociates(c, Add(y, x), e);
    MulDistributes(y, x, e);
    MulCommutes(y, e);
    MulDistributes(Mul(y, e), Mul(x, e), c);
    MulAssociates(c, x, e);
    MulCommutes(c, x);
    MulAssociates(x, c, e);
  }

  lemma {:induction false} EliminateSum(ts: seq<Term>, x: Byte, k: nat)
    ensures PowerSum(Eliminate(ts, x), k) == Add(PowerSum(ts, k + 1), Mul(x, PowerSum(ts, k)))
  {
    hide Add, Mul, Pow;
    if ts == [] {
      MulIdentities(x);
      AddLaws(ZERO, ZERO);
    } else {
      var t := ts[0];
      EliminateSum(ts[1..], x, k);
      assert Eliminate(ts, x)[1..] == Eliminate(ts[1..], x);
      EliminateTerm(t.coef, t.loc, x, k);
      var a, b := Mul(t.coef, Pow(t.loc, k + 1)), Mul(t.coef, Pow(t.loc, k));
      var u, v := PowerSum(ts[1..], k + 1), PowerSum(ts[1..], k);
      MulDistributes(b, v, x);
      AddRegroup(a, Mul(x, b), u, Mul(x, v));
    }
  }

  /** Terms with distinct locators whose first |ts| power sums all vanish do not exist. */
  lemma {:induction false} PowerSumsDetermine(ts: seq<Term>)
    requires Independent(ts) && ts != []
    decreases |ts|
    ensures exists k: nat :: k < |ts| && PowerSum(ts, k) != ZERO
  {
    hide Add, Mul, Pow;
    var t, rest := ts[0], ts[1..];
    if rest == [] {
      assert PowerSum(ts, 0) != ZERO by {
        PowZero(t.loc);
        MulIdentities(t.coef);
        AddLaws(t.coef, ZERO);
      }
    } else {
      var us := Eliminate(rest, t.loc);
      forall i | 0 <= i < |us|
        ensures us[i].coef != ZERO
      {
        assert rest[i] == ts[i + 1];
        AddLaws(rest[i].loc, t.loc);
        if us[i].coef == ZERO {
          NoZeroDivisors(rest[i].coef, Add(rest[i].loc, t.loc));
        }
      }
      PowerSumsDetermine(us);
      var k: nat :| k < |us| && PowerSum(us, k) != ZERO;
      EliminateSum(rest, t.loc, k);
      assert Eliminate(ts, t.loc)[1..] == us;
      EliminateSum(ts, t.loc, k);
      assert PowerSum(Eliminate(ts, t.loc), k) == PowerSum(us, k) by {
        AddLaws(t.loc, t.loc);
        MulIdentities(t.coef);
        MulIdentities(Pow(t.loc, k));
        AddLaws(PowerSum(us, k), ZERO);
      }
      if PowerSum(ts, k) == ZERO && PowerSum(ts, k + 1) == ZERO {
        MulIdentities(t.loc);
        AddLaws(ZERO, ZERO);
      }
    }
  }

  lemma PowZero(x: Byte)
    ensures Pow(x, 0) == ONE
  {
  }

  /** The nonzero coefficients of a word; the last position has locator 2^0. */
  function Terms(w: seq<Byte>): seq<Term> {
    if w == [] then []
    else (if w[0] == ZERO then [] else [Term(w[0], Alpha(|w| - 1))]) + Terms(w[1..])
  }

  predicate IsPower(x: Byte, n: nat) {
    exists e: nat :: e < n && x == Alpha(e)
  }

  lemma {:induction false} TermsIndependent(w: seq<Byte>)
    requires |w| <= 255
    ensures Independent(Terms(w))
    ensures forall i :: 0 <= i < |Terms(w)| ==> IsPower(Terms(w)[i].loc, |w|)
  {
    hide Alpha;
    if w == [] {
    } else {
      var n := |w| - 1;
      var ts := Terms(w[1..]);
      TermsIndependent(w[1..]);
      forall i | 0 <= i < |ts|
        ensures ts[i].loc != Alpha(n) && IsPower(ts[i].loc, |w|)
      {
        assert IsPower(ts[i].loc, n);
        var e: nat :| e < n && ts[i].loc == Alpha(e);
        AlphaDistinct(e, n);
      }
      assert IsPower(Alpha(n), |w|);
      assert Terms(w) == if w[0] == ZERO then ts else [Term(w[0], Alpha(n))] + ts;
    }
  }

  lemma {:induction false} PowOfAlpha(m: nat, k: nat)
    ensures Pow(Alpha(m), k) == Alpha(m * k)
  {
    hide Mul;
    if k > 0 {
      PowOfAlpha(m, k - 1);
      assert m * k == m * (k - 1) + m;
      AlphaAdds(m * (k - 1), m);
    } else {
      assert m * k == 0;
    }
  }

  lemma {:induction false} EvalIsPowerSum(w: seq<Byte>, k: nat)
    ensures Eval(w, Alpha(k)) == PowerSum(Terms(w), k)
  {
    hide Add, Mul, Pow, Alpha;
    if w == [] {
    } else {
      EvalIsPowerSum(w[1..], k);
      PowOfAlpha(k, |w| - 1);
      PowOfAlpha(|w| - 1, k);
      assert k * (|w| - 1) == (|w| - 1) * k;
      if w[0] == ZERO {
        assert Terms(w) == Terms(w[1..]);
        MulIdentities(Pow(Alpha(k), |w| - 1));
        AddLaws(PowerSum(Terms(w[1..]), k), ZERO);
      } else {
        assert Terms(w)[1..] == Terms(w[1..]);
      }
    }
  }

  function Sum(v: seq<Byte>, w: seq<Byte>): (s: seq<Byte>)
    requires |v| == |w|
    ensures |s| == |v|
  {
    seq(|v|, i requires 0 <= i < |v| => Add(v[i], w[i]))
  }

  lemma {:induction false} DistanceIsWeight(v: seq<Byte>, w: seq<Byte>)
    requires |v| == |w|
    ensures |Terms(Sum(v, w))| == Distance(v, w)
  {
    hide Add, Alpha;
    if v == [] {
    } else {
      DistanceIsWeight(v[1..], w[1..]);
      assert Sum(v, w)[1..] == Sum(v[1..], w[1..]);
      AddLaws(v[0], w[0]);
    }
  }

  lemma EvalSum(v: seq<Byte>, w: seq<Byte>, x: Byte)
    requires |v| == |w|
    ensures Eval(Sum(v, w), x) == Add(Eval(v, x), Eval(w, x))
  {
    hide Add, Mul;
    forall j | 0 <= j < |v|
      ensures Sum(v, w)[j] == Add(v[j], Mul(w[j], ONE))
    {
      MulIdentities(w[j]);
    }
    EvalScaledSum(v, w, ONE, Sum(v, w), x);
    MulIdentities(Eval(w, x));
  }

  /** The word is orthogonal to the code: all `degree` syndromes vanish. */
  predicate ZeroSyndromes(w: seq<Byte>, degree: nat) {
    forall k: nat :: k < degree ==> Eval(w, Alpha(k)) == ZERO
  }

  /** Two different words with zero syndromes are more than `degree` apart. */
  lemma SyndromeDistance(v: seq<Byte>, w: seq<Byte>, degree: nat)
    requires |v| == |w| <= 255 && v != w
    requires ZeroSyndromes(v, degree) && ZeroSyndromes(w, degree)
    ensures Distance(v, w) >= degree + 1
  {
    hide Add, Mul, Alpha, Eval;
    var s := Sum(v, w);
    var ts := Terms(s);
    DistanceIsWeight(v, w);
    if |ts| <= degree {
      DistancePositive(v, w);
      TermsIndependent(s);
      PowerSumsDetermine(ts);
      var k: nat :| k < |ts| && PowerSum(ts, k) != ZERO;
      EvalIsPowerSum(s, k);
      EvalSum(v, w, Alpha(k));
      AddLaws(ZERO, ZERO);
    }
  }

  lemma {:induction false} DistancePositive(v: seq<Byte>, w: seq<Byte>)
    requires |v| == |w| && v != w
    ensures Distance(v, w) > 0
  {
    if v[0] != w[0] {
    } else {
      assert v == [v[0]] + v[1..];
      assert w == [w[0]] + w[1..];
      DistancePositive(v[1..], w[1..]);
    }
  }

  lemma CodewordHasZeroSyndromes(data: seq<Byte>, degree: nat)
    requires 1 <= degree
    ensures ZeroSyndromes(Codeword(data, degree), degree)
  {
    forall k: nat | k < degree
      ensures Eval(Codeword(data, degree), Alpha(k)) == ZERO
    {
      CodewordVanishes(data, degree, k);
    }
  }

  /** The minimum distance of the code is degree + 1. */
  lemma MinimumDistance(a: seq<Byte>, b: seq<Byte>, degree: nat)
    requires 1 <= degree && |a| == |b| && |a| + degree <= 255
    requires a != b
    ensures Distance(Codeword(a, degree), Codeword(b, degree)) >= degree + 1
  {
    CodewordHasZeroSyndromes(a, degree);
    CodewordHasZeroSyndromes(b, degree);
    var v, w := Codeword(a, degree), Codeword(b, degree);
    assert v[..|a|] == a && w[..|a|] == b;
    SyndromeDistance(v, w, degree);
  }

  /** A word is a codeword exactly when all its syndromes vanish. */
  lemma CodewordIffZeroSyndromes(w: seq<Byte>, degree: nat)
    requires 1 <= degree <= |w| <= 255
    ensures ZeroSyndromes(w, degree) <==> w == Codeword(w[..|w| - degree], degree)
  {
    hide Add, Mul, Alpha, Eval, Distance, Remainder, Generator;
    var data := w[..|w| - degree];
    var c := Codeword(data, degree);
    CodewordHasZeroSyndromes(data, degree);
    if ZeroSyndromes(w, degree) && w != c {
      SyndromeDistance(w, c, degree);
      assert w == data + w[|w| - degree..];
      DistanceAfterCommonPrefix(data, w[|w| - degree..], c[|data|..]);
    }
  }

  lemma {:induction false} DistanceAfterCommonPrefix(p: seq<Byte>, v: seq<Byte>, w: seq<Byte>)
    requires |v| == |w|
    ensures Distance(p + v, p + w) <= |v|
  {
    if p == [] {
      assert p + v == v && p + w == w;
      DistanceBounded(v, w);
    } else {
      DistanceAfterCommonPrefix(p[1..], v, w);
      assert (p + v)[1..] == p[1..] + v && (p + w)[1..] == p[1..] + w;
    }
  }

  lemma {:induction false} DistanceBounded(v: seq<Byte>, w: seq<Byte>)
    requires |v| == |w|
    ensures Distance(v, w) <= |v|
  {
    if v == [] {
    } else {
      DistanceBounded(v[1..], w[1..]);
    }
  }

  /** At most degree / 2 damaged bytes leave only one candidate data block. */
  lemma UniqueDecoding(received: seq<Byte>, a: seq<Byte>, b: seq<Byte>, degree: nat)
    requires 1 <= degree && |a| == |b| && |received| == |a| + degree <= 255
    requires Distance(received, Codeword(a, degree)) <= degree / 2
    requires Distance(received, Codeword(b, degree)) <= degree / 2
    ensures a == b
  {
    DistanceTriangle(received, Codeword(a, degree), Codeword(b, degree));
    if a != b {
      MinimumDistance(a, b, degree);
    }
  }
}
