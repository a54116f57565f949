/** One wrong symbol in a code word is always corrected. */
module RsSingleError {
  import opened RsTables
  import opened Gf256
  import opened Gf256Tables
  import opened Gf256Laws
  import opened RsCode
  import opened RsEval
  import opened RsDecoder
  import opened RsKeyEquation

  // ---------------------------------------------------------- what an error does to the syndromes

  lemma ErrorTerm(v: Byte, j: nat, k: nat)
    ensures Mul(Exp(j), Mul(v, Exp(j * k))) == Mul(v, Exp(j * (k + 1)))
  {
    hide *;
    MulAssoc(Exp(j), v, Exp(j * k));
    MulComm(Exp(j), v);
    MulAssoc(v, Exp(j), Exp(j * k));
    MulExpExp(j, j * k);
    assert j * (k + 1) == j + j * k;
  }

  lemma {:induction false} EvalChanged(u: seq<Byte>, i: nat, k: nat, v: Byte, j: nat)
    requires i + k + 1 == |u|
    ensures Eval(u[i := Add(u[i], v)], Exp(j)) == Add(Eval(u, Exp(j)), Mul(v, Exp(j * k)))
  {
    hide Add, Mul, Exp, Horner;
    var n := |u| - 1;
    var z := Exp(j);
    var init, last := u[..n], u[n];
    var u' := u[i := Add(u[i], v)];
    if i == n {
      assert u'[..n] == init;
      ExpUnit();
      MulOne(v);
      HornerIs(z, Eval(init, z), last);
      HornerIs(z, Eval(init, z), Add(last, v));
      AddLaws(Mul(z, Eval(init, z)), last, v);
    } else {
      assert u'[..n] == init[i := Add(init[i], v)];
      EvalChanged(init, i, k - 1, v, j);
      var e := Mul(v, Exp(j * (k - 1)));
      HornerAdd(z, Eval(init, z), e, last, 0);
      AddLaws(last, 0, 0);
      HornerEnds(z, e);
      ErrorTerm(v, j, k - 1);
    }
  }

  /** An error of value v at position e adds v*2^(j*e) to syndrome j. */
  lemma EvalFix(w: seq<Byte>, e: nat, v: Byte, j: nat)
    requires |w| == LEN && e < LEN
    ensures Eval(Fix(w, e, v), Exp(j)) == Add(Eval(w, Exp(j)), Mul(v, Exp(j * e)))
  {
    hide Add, Mul, Exp, Eval;
    EvalChanged(w, LEN - 1 - e, e, v, j);
  }

  lemma FixTwice(w: seq<Byte>, e: nat, v: Byte)
    requires |w| == LEN && e < LEN
    ensures Fix(Fix(w, e, v), e, v) == w
  {
    hide Add;
    var x := w[LEN - 1 - e];
    AddLaws(x, v, v);
    AddLaws(v, 0, 0);
    AddLaws(x, 0, 0);
  }

  /** Successive powers: x^(j*e) for j = 0..3. */
  lemma ErrorPowers(v: Byte, e: nat)
    ensures Mul(v, Exp(0 * e)) == v
    ensures Mul(v, Exp(1 * e)) == Mul(v, Exp(e))
    ensures Mul(v, Exp(2 * e)) == Mul(Mul(v, Exp(e)), Exp(e))
    ensures Mul(v, Exp(3 * e)) == Mul(Mul(Mul(v, Exp(e)), Exp(e)), Exp(e))
  {
    hide *;
    ExpUnit();
    MulOne(v);
    MulExpExp(e, e);
    MulExpExp(2 * e, e);
    MulAssoc(v, Exp(e), Exp(e));
    MulAssoc(v, Exp(2 * e), Exp(e));
  }

  lemma CodeSyndromes(c: seq<Byte>)
    requires IsCode(c)
    ensures Eval(c, Exp(0)) == 0 && Eval(c, Exp(1)) == 0 && Eval(c, Exp(2)) == 0 && Eval(c, Exp(3)) == 0
  {
    hide Eval, Exp, IsCode;
    assert |c| == LEN by { CodeLength(c); }
    CodeIffVanishes(c);
  }

  lemma CodeLength(c: seq<Byte>)
    requires IsCode(c)
    ensures |c| == LEN
  {
  }

  lemma SingleSyndromes(c: seq<Byte>, e: nat, v: Byte)
    requires IsCode(c) && e < LEN
    ensures Syndromes(Fix(c, e, v))
         == [1, v, Mul(v, Exp(e)), Mul(Mul(v, Exp(e)), Exp(e)), Mul(Mul(Mul(v, Exp(e)), Exp(e)), Exp(e))]
  {
    hide Eval, Exp, Add, Mul, Fix, Ecc;
    CodeSyndromes(c);
    ErrorPowers(v, e);
    forall j | 0 <= j < 4 ensures Eval(Fix(c, e, v), Exp(j)) == Mul(v, Exp(j * e)) {
      EvalFix(c, e, v, j);
      AddLaws(Mul(v, Exp(j * e)), 0, 0);
    }
    assert 0 * e == 0 && 1 * e == e;
  }

  // ---------------------------------------------------------- short products

  lemma {:induction false} ConvDegree(s: Poly, t: Poly, k: nat, n: nat, m: nat)
    requires Degree(s, m) && m + 1 <= n <= k + 1 <= 5
    ensures Conv(s, t, k, n) == Conv(s, t, k, m + 1)
  {
    hide Add, Mul;
    if n > m + 1 {
      ConvDegree(s, t, k, n - 1, m);
      MulNonzero(s[n - 1], t[k - (n - 1)]);
      AddLaws(Conv(s, t, k, m + 1), 0, 0);
    }
  }

  lemma CoefLinear(s: Poly, t: Poly, k: nat)
    requires Degree(s, 1) && 1 <= k < 5
    ensures Coef(s, t, k) == Add(Mul(s[0], t[k]), Mul(s[1], t[k - 1]))
  {
    hide Add, Mul, Conv;
    ConvDegree(s, t, k, k + 1, 1);
    ConvFirst(s, t, k);
  }

  lemma ConvFirst(s: Poly, t: Poly, k: nat)
    requires 1 <= k < 5
    ensures Conv(s, t, k, 2) == Add(Mul(s[0], t[k]), Mul(s[1], t[k - 1]))
  {
    hide Add, Mul;
    assert Conv(s, t, k, 0) == 0;
    assert Conv(s, t, k, 1) == Add(0, Mul(s[0], t[k]));
    AddLaws(Mul(s[0], t[k]), 0, 0);
  }

  // ---------------------------------------------------------- the first two rounds when S1 is not 0

  /** Once the first syndrome is nonzero the second round leaves one linear factor. */
  lemma FirstRound(syn: Poly)
    requires syn[0] == 1 && syn[1] != 0
    ensures var st := BmRun(syn, 1);
      Degrees(st, 1) && Degree(st.tau, 0) && Degree(st.gamma, 0) && st.d == 1 && st.b
  {
    hide Add, Mul, Inv, Coef, Plus, Scale, Shift;
    BmKeyEquation(syn, 1);
    assert BmRun(syn, 0) == BM_START;
    CoefLinear(ONE, syn, 1);
    MulOne(syn[1]);
    MulNonzero(0, 1);
    AddLaws(syn[1], 0, 0);
    var delta := Coef(ONE, syn, 1);
    assert delta == syn[1];
    assert BmRun(syn, 1) == BmStep(BM_START, syn, 1);
    ScaleDegree(Inv(delta), ONE, 0);
  }

  /** When the first syndrome is not 0, two rounds leave polynomials of degree 1. */
  lemma SecondRound(syn: Poly)
    requires syn[0] == 1 && syn[1] != 0
    ensures var st := BmRun(syn, 2);
      Degrees(st, 1) && st.d == 1
  {
    hide Add, Mul, Inv, Coef, Plus, Scale;
    FirstRound(syn);
    var st := BmRun(syn, 1);
    var delta := Coef(st.sigma, syn, 2);
    StepDegree(st.sigma, delta, st.tau, 0);
    StepDegree(st.omega, delta, st.gamma, 0);
    ScaleDegree(Inv(delta), st.sigma, 1);
    ScaleDegree(Inv(delta), st.omega, 1);
    assert BmRun(syn, 2) == BmStep(st, syn, 2);
  }

  lemma DegreeOne(p: Poly)
    requires Degree(p, 1)
    ensures p == [p[0], p[1], 0, 0, 0]
  {
    assert p[2] == 0 && p[3] == 0 && p[4] == 0;
  }

  /** Nothing changes in a round without discrepancy. */
  lemma IdleRound(st: Bm, syn: Poly, l: nat)
    requires 1 <= l <= 4 && Coef(st.sigma, syn, l) == 0
    ensures BmStep(st, syn, l).sigma == st.sigma && BmStep(st, syn, l).omega == st.omega
  {
    hide Coef, Plus, Scale, Shift, Inv;
    StepUpdates(st, syn, l);
    IdlePlus(st.sigma, Shift(st.tau));
    IdlePlus(st.omega, Shift(st.gamma));
  }

  lemma IdlePlus(p: Poly, q: Poly)
    ensures Plus(p, Scale(0, q)) == p
  {
    hide Add, Mul;
    var r := Plus(p, Scale(0, q));
    forall k | 0 <= k < 5 ensures r[k] == p[k] {
      MulNonzero(0, q[k]);
      AddLaws(p[k], 0, 0);
    }
    assert |r| == |p|;
  }

  /** For the syndromes of one error of value v at X the locator is 1 + X*x and the magnitude v. */
  lemma SingleLocator(syn: Poly, v: Byte, x: Byte)
    requires v != 0 && x != 0
    requires syn == [1, v, Mul(v, x), Mul(Mul(v, x), x), Mul(Mul(Mul(v, x), x), x)]
    ensures BmRun(syn, 4).sigma == [1, x, 0, 0, 0]
    ensures Add(x, BmRun(syn, 4).omega[1]) == v
  {
    hide Add, Mul, Inv, Coef, Plus, Scale, BmStep;
    var st2 := BmRun(syn, 2);
    SecondRound(syn);
    BmKeyEquation(syn, 2);
    var s := st2.sigma;
    assert s[0] == 1;
    DegreeOne(s);
    // the x^2 coefficient of syn*sigma is 0: v*x + s1*v = 0
    assert Coef(s, syn, 2) == st2.omega[2] == 0;
    CoefLinear(s, syn, 2);
    MulOne(syn[2]);
    AddEqual(syn[2], Mul(s[1], v));
    MulComm(s[1], v);
    MulCancel(v, x, s[1]);
    // so the later discrepancies are 0
    CoefLinear(s, syn, 3);
    CoefLinear(s, syn, 4);
    MulOne(syn[3]);
    MulOne(syn[4]);
    MulComm(x, syn[2]);
    MulComm(x, syn[3]);
    AddEqual(syn[3], Mul(x, syn[2]));
    AddEqual(syn[4], Mul(x, syn[3]));
    IdleRound(st2, syn, 3);
    var st3 := BmRun(syn, 3);
    assert st3 == BmStep(st2, syn, 3);
    IdleRound(st3, syn, 4);
    assert BmRun(syn, 4) == BmStep(st3, syn, 4);
    // the magnitude: omega1 = S1 + s1
    assert Coef(s, syn, 1) == st2.omega[1];
    CoefLinear(s, syn, 1);
    MulOne(v);
    MulOne(x);
    AddLaws(x, v, x);
    AddLaws(v, x, x);
    AddLaws(x, 0, 0);
    AddLaws(v, 0, 0);
  }

  lemma LogPower(e: nat)
    requires e < 255
    ensures Exp(e) != 0 && Log(Exp(e)) == e
  {
    hide *;
    ExpNonzero(e);
    LogExp(e);
  }

  lemma NotCode(w: seq<Byte>)
    requires |w| == LEN && Eval(w, Exp(0)) != 0
    ensures !IsCode(w)
  {
    hide Eval, Exp, IsCode;
    CodeIffVanishes(w);
  }

  /** One wrong symbol: rs_decode_string reports 1 and restores the word. */
  lemma SingleErrorCorrected(c: seq<Byte>, e: nat, v: Byte)
    requires IsCode(c) && e < LEN && v != 0
    ensures DecodeWord(Fix(c, e, v)) == Decoded(c, 1)
  {
    hide Eval, Exp, IsCode, BmRun, Add, Mul, Log, FirstRoot, OtherRoot, ErrorValue, Fix;
    CodeLength(c);
    var w := Fix(c, e, v);
    var syn := Syndromes(w);
    SingleSyndromes(c, e, v);
    assert syn[1] == v;
    NotCode(w);
    LogPower(e);
    SingleLocator(syn, v, Exp(e));
    LogOne();
    FixTwice(c, e, v);
  }
}
