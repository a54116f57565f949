/**
 What the decoder answers for every word, whatever its damage: when it finds nothing wrong, when it corrects, when it
 gives up, and when a correction it reports is one.
 */
module RsVerdict {
  import opened RsTables
  import opened Gf256
  import opened Gf256Tables
  import opened Gf256Laws
  import opened RsCode
  import opened RsEval
  import opened RsDecoder
  import opened RsKeyEquation
  import opened RsSingleError
  import opened RsTwoErrorAlgebra
  import opened RsTwoErrorLocator
  import opened RsTwoErrorValues

  /** The locator vanishes at 2^-e. */
  predicate Root(sigma: Poly, e: nat)
    requires e <= 255
  {
    Eval([sigma[4], sigma[3], sigma[2], sigma[1], sigma[0]], Exp(255 - e)) == 0
  }

  /** The locator has a root, and all its roots are positions of the word. */
  predicate Located(sigma: Poly) {
    (exists e :: 0 <= e < 255 && Root(sigma, e)) && forall e :: 0 <= e < 255 && Root(sigma, e) ==> e < LEN
  }

  lemma EvalPoly(a: Byte, b: Byte, c: Byte, d: Byte, e: Byte, z: Byte)
    ensures Eval([a, b, c, d, e], z) == Horner(z, Horner(z, Horner(z, Horner(z, a, b), c), d), e)
  {
    hide Horner, Eval, Mul, Add;
    EvalNone(z);
    EvalSnoc([], a, z);
    EvalSnoc([a], b, z);
    EvalSnoc([a, b], c, z);
    EvalSnoc([a, b, c], d, z);
    EvalSnoc([a, b, c, d], e, z);
    assert [] + [a] == [a] && [a] + [b] == [a, b] && [a, b] + [c] == [a, b, c] && [a, b, c] + [d] == [a, b, c, d];
    assert [a, b, c, d] + [e] == [a, b, c, d, e];
    HornerEnds(z, a);
  }

  lemma EvalNone(z: Byte)
    ensures Eval([], z) == 0
  {
  }

  lemma RootIs(sigma: Poly, e: nat)
    requires e <= 255 && sigma[0] == 1 && sigma[3] == 0 && sigma[4] == 0
    ensures var z := Exp(255 - e);
      Root(sigma, e) <==> Add(Add(1, Mul(z, sigma[1])), Mul(Mul(z, z), sigma[2])) == 0
  {
    hide Exp, Add, Mul, Eval, Horner;
    var z, p, q := Exp(255 - e), sigma[1], sigma[2];
    EvalPoly(0, 0, q, p, 1, z);
    HornerEnds(z, 0);
    HornerEnds(z, q);
    MulNonzero(z, 0);
    HornerIs(z, q, p);
    HornerIs(z, Add(Mul(z, q), p), 1);
    MulDistrib(z, Mul(z, q), p);
    MulAssoc(z, z, q);
    var u, v := Mul(Mul(z, z), q), Mul(z, p);
    AddLaws(u, v, 1);
    AddLaws(v, 1, 0);
    AddLaws(Add(v, 1), u, 0);
  }

  // ---------------------------------------------------------- two roots

  /** The quadratic with the factors 1 + x*z and 1 + y*z. */
  function Factors(x: Byte, y: Byte): Poly {
    [1, Add(x, y), Mul(x, y), 0, 0]
  }

  /** A root gives a factor, and the source's quotient of logarithms is the other one. */
  lemma Vieta(sigma: Poly, e: nat)
    requires e < 255 && sigma[0] == 1 && sigma[2] != 0 && sigma[3] == 0 && sigma[4] == 0 && Root(sigma, e)
    ensures var f := OtherRoot(sigma, e); 0 <= f < 255 && sigma == Factors(Exp(e), Exp(f))
  {
    hide Exp, Log, Add, Mul, Root;
    var f, p, q := OtherRoot(sigma, e), sigma[1], sigma[2];
    LogOne();
    ExpLog(q);
    var x, y, z := Exp(e), Exp(f), Exp(255 - e);
    MulExpExp(e, f);
    ExpPeriod(Log(q));
    assert Mul(x, y) == q;
    RootIs(sigma, e);
    // x * (1 + z*p + z*z*q) = x + p + y
    Inverse(e);
    MulNonzero(x, 0);
    MulDistrib(x, Add(1, Mul(z, p)), Mul(Mul(z, z), q));
    MulDistrib(x, 1, Mul(z, p));
    MulOne(x);
    MulAssoc(x, z, p);
    MulOne(p);
    MulAssoc(x, Mul(z, z), q);
    MulAssoc(x, z, z);
    MulOne(z);
    MulAssoc(z, x, y);
    MulComm(z, x);
    MulOne(y);
    AddEqual(Add(x, p), y);
    AddLaws(x, x, p);
    AddLaws(p, 0, 0);
    assert p == Add(x, y);
  }

  lemma Inverse(e: nat)
    requires e <= 255
    ensures Mul(Exp(e), Exp(255 - e)) == 1
  {
    hide *;
    MulExpExp(e, 255 - e);
    ExpPeriod(0);
    ExpUnit();
  }

  lemma FactorZero(k: nat, e: nat)
    requires k < 255 && e < 255
    ensures Add(1, Mul(Exp(255 - k), Exp(e))) == 0 <==> k == e
  {
    hide *;
    AddEqual(1, Mul(Exp(255 - k), Exp(e)));
    MulExpExp(255 - k, e);
    ExpIsOne(255 - k + e);
  }

  lemma FactorRoots(e: nat, f: nat, k: nat)
    requires e < 255 && f < 255 && k < 255
    ensures Root(Factors(Exp(e), Exp(f)), k) <==> k == e || k == f
  {
    hide Exp, Add, Mul, Root;
    var x, y, z := Exp(e), Exp(f), Exp(255 - k);
    RootIs(Factors(x, y), k);
    FactorProduct(z, x, y);
    MulNonzero(Add(1, Mul(z, x)), Add(1, Mul(z, y)));
    FactorZero(k, e);
    FactorZero(k, f);
  }

  /** What the search evaluates is the locator. */
  lemma SearchesRoots(sigma: Poly, k: nat)
    requires k <= 255 && sigma[0] == 1 && sigma[2] != 0 && sigma[3] == 0 && sigma[4] == 0
    ensures Locator(sigma, k) == 0 <==> Root(sigma, k)
  {
    hide Exp, Log, Add, Mul, Root;
    var z := Exp(255 - k);
    RootIs(sigma, k);
    ExpLog(sigma[2]);
    MulExpExp(255 - k, 255 - k);
    MulExpExp(2 * (255 - k), Log(sigma[2]));
    MulNonzero(z, sigma[1]);
    if sigma[1] != 0 {
      ExpLog(sigma[1]);
      MulExpExp(255 - k, Log(sigma[1]));
    }
  }

  /** Both positions are in the word exactly when all roots are. */
  lemma QuadraticLocated(sigma: Poly)
    requires sigma[0] == 1 && sigma[2] != 0 && sigma[3] == 0 && sigma[4] == 0
    ensures var e := FirstRoot(sigma, 0); var f := OtherRoot(sigma, e);
      (Located(sigma) <==> e < LEN && f < LEN) &&
      (Located(sigma) ==> 0 <= f && Root(sigma, e) && Root(sigma, f) && sigma == Factors(Exp(e), Exp(f)))
  {
    hide Exp, Log, Add, Mul, Root, Locator, FirstRoot, Factors, OtherRoot;
    var e := FirstRoot(sigma, 0);
    var f := OtherRoot(sigma, e);
    if Located(sigma) {
      var g :| 0 <= g < 255 && Root(sigma, g);
      SearchesRoots(sigma, g);
      assert e <= g;
    }
    if e < LEN {
      SearchesRoots(sigma, e);
      Vieta(sigma, e);
      FactorRoots(e, f, f);
      forall k | 0 <= k < 255 ensures Root(sigma, k) <==> k == e || k == f {
        FactorRoots(e, f, k);
      }
    }
  }

  // ---------------------------------------------------------- one root, or none

  lemma LinearLocated(sigma: Poly)
    requires sigma[0] == 1 && sigma[2] == 0 && sigma[3] == 0 && sigma[4] == 0
    ensures sigma[1] == 0 ==> !Located(sigma)
    ensures var e := Log(sigma[1]);
      sigma[1] != 0 ==> Exp(e) == sigma[1] && (Located(sigma) <==> e < LEN) && (e < LEN ==> Root(sigma, e))
  {
    hide Exp, Log, Add, Mul, Root;
    var p := sigma[1];
    forall k | 0 <= k < 255 ensures Root(sigma, k) <==> p != 0 && k == Log(p) {
      var z := Exp(255 - k);
      RootIs(sigma, k);
      MulNonzero(Mul(z, z), 0);
      MulNonzero(z, p);
      AddLaws(Add(1, Mul(z, p)), 0, 0);
      AddLaws(1, 0, 0);
      if p != 0 {
        ExpLog(p);
        FactorZero(k, Log(p));
      }
    }
    if p != 0 {
      ExpLog(p);
      assert Root(sigma, Log(p));
    }
  }

  // ---------------------------------------------------------- the verdict

  function Sigma(w: seq<Byte>): Poly
    requires |w| == LEN
  {
    BmRun(Syndromes(w), 4).sigma
  }

  /** For every word: the answer is 0 exactly for code words; otherwise it is the degree of the locator if that is at
      most 2 and all roots are positions of the word, and -1 if not.  Only symbols at roots are changed. */
  lemma WordVerdict(w: seq<Byte>)
    requires |w| == LEN
    ensures var r, s := DecodeWord(w), Sigma(w);
      (r.code == 0 <==> IsCode(w)) &&
      (r.code > 0 <==> !IsCode(w) && s[3] == 0 && s[4] == 0 && Located(s)) &&
      (r.code > 0 ==> r.code == if s[2] != 0 then 2 else 1) &&
      forall k :: 0 <= k < LEN && r.word[k] != w[k] ==> r.code > 0 && Root(s, LEN - 1 - k)
  {
    hide Exp, Log, Add, Mul, IsCode, Root, Located, FirstRoot, OtherRoot, ErrorValue, BmRun, Eval, Factors;
    var s := Sigma(w);
    LogOne();
    if !IsCode(w) && s[3] == 0 && s[4] == 0 {
      if s[2] != 0 {
        QuadraticLocated(s);
      } else {
        LinearLocated(s);
      }
    }
  }

  // ---------------------------------------------------------- when a reported correction is one

  /** No sum of a logarithm and a position leaves the uint8_t it is stored in. */
  predicate FitsAt(omega: Poly, e: nat)
    requires e < LEN
  {
    Evaluator(omega, e) != 0 && Log(Evaluator(omega, e)) + e < 256
  }

  /** Syndrome j+1 after an error at e has been changed by u. */
  lemma SyndromeFix(w: seq<Byte>, e: nat, u: Byte)
    requires |w| == LEN && e < LEN
    ensures var x := Exp(e);
      Syndromes(Fix(w, e, u)) == [1, Add(Syndromes(w)[1], u), Add(Syndromes(w)[2], Mul(u, x)),
                                  Add(Syndromes(w)[3], Mul(Mul(u, x), x)),
                                  Add(Syndromes(w)[4], Mul(Mul(Mul(u, x), x), x))]
  {
    hide Exp, Add, Mul, Eval, Fix;
    ErrorPowers(u, e);
    EvalFix(w, e, u, 0);
    EvalFix(w, e, u, 1);
    EvalFix(w, e, u, 2);
    EvalFix(w, e, u, 3);
  }

  lemma CodeSyndromesZero(w: seq<Byte>)
    requires |w| == LEN
    ensures IsCode(w) <==> Syndromes(w) == [1, 0, 0, 0, 0]
  {
    hide Eval, Exp, IsCode;
    CodeIffVanishes(w);
  }

  /** One symbol: the result is a code word exactly when omega has degree 1. */
  lemma LinearResult(w: seq<Byte>)
    requires |w| == LEN && !IsCode(w)
    requires var s := Sigma(w); s[1] != 0 && s[2] == 0 && s[3] == 0 && s[4] == 0 && Log(s[1]) < LEN
    ensures var o := BmRun(Syndromes(w), 4).omega;
      IsCode(DecodeWord(w).word) <==> o[2] == 0 && o[3] == 0 && o[4] == 0
    ensures Syndromes(DecodeWord(w).word)[1] == 0
  {
    hide Exp, Log, Add, Mul, Eval, Fix, IsCode, BmRun, Coef;
    var syn := Syndromes(w);
    var st := BmRun(syn, 4);
    var x, e, v := st.sigma[1], Log(st.sigma[1]), syn[1];
    LogOne();
    ExpLog(x);
    BmKeyEquation(syn, 4);
    LinearCoefs(st, syn);
    assert Add(st.sigma[1], st.omega[1]) == v by { AddLaws(x, x, v); AddLaws(v, x, 0); AddLaws(v, 0, 0); }
    SyndromeFix(w, e, v);
    CodeSyndromesZero(Fix(w, e, v));
    Chain1(syn, x);
    AddLaws(v, 0, 0);
  }

  lemma LinearCoefs(st: Bm, syn: Poly)
    requires syn[0] == 1 && st.sigma[0] == 1 && KeyEquation(st, syn, 4) && Degree(st.sigma, 1)
    ensures st.omega[1] == Add(syn[1], st.sigma[1])
    ensures forall k :: 2 <= k < 5 ==> st.omega[k] == Add(syn[k], Mul(st.sigma[1], syn[k - 1]))
  {
    hide Add, Mul, Coef;
    MulOne(st.sigma[1]);
    forall k | 1 <= k < 5 ensures st.omega[k] == Add(syn[k], Mul(st.sigma[1], syn[k - 1])) {
      assert Coef(st.sigma, syn, k) == st.omega[k];
      CoefLinear(st.sigma, syn, k);
      MulOne(syn[k]);
    }
  }

  /** The syndromes are v, vx, vxx, vxxx exactly when each is x times the one before. */
  lemma Chain1(syn: Poly, x: Byte)
    ensures var v := syn[1];
      (Add(syn[2], Mul(v, x)) == 0 && Add(syn[3], Mul(Mul(v, x), x)) == 0 &&
       Add(syn[4], Mul(Mul(Mul(v, x), x), x)) == 0)
      <==> forall k :: 2 <= k < 5 ==> Add(syn[k], Mul(x, syn[k - 1])) == 0
  {
    hide Add, Mul;
    var v := syn[1];
    MulComm(x, syn[1]);
    MulComm(x, syn[2]);
    MulComm(x, syn[3]);
    AddEqual(syn[2], Mul(v, x));
    AddEqual(syn[3], Mul(Mul(v, x), x));
    AddEqual(syn[4], Mul(Mul(Mul(v, x), x), x));
    AddEqual(syn[2], Mul(x, syn[1]));
    AddEqual(syn[3], Mul(x, syn[2]));
    AddEqual(syn[4], Mul(x, syn[3]));
  }

  /** The two values with given first syndromes. */
  lemma Amplitudes(s1: Byte, s2: Byte, x: Byte, y: Byte, a: Byte, b: Byte)
    ensures Add(a, b) == s1 && Add(Mul(a, x), Mul(b, y)) == s2
       <==> b == Add(s1, a) && Mul(a, Add(x, y)) == Add(s2, Mul(s1, y))
  {
    hide Add, Mul;
    AddLaws(a, a, b);
    AddLaws(a, b, 0);
    AddLaws(b, 0, 0);
    AddLaws(a, a, s1);
    AddLaws(s1, a, 0);
    AddLaws(s1, 0, 0);
    if b == Add(s1, a) {
      MulDistrib(y, s1, a);
      MulDistrib(a, x, y);
      var p, q, r := Mul(a, x), Mul(a, y), Mul(s1, y);
      // (p + r + q = s2) exactly when (p + q = s2 + r)
      AddLaws(r, q, 0);
      AddLaws(p, q, r);
      AddLaws(r, r, 0);
      AddLaws(Add(p, q), r, r);
      AddLaws(Add(p, q), 0, 0);
      AddLaws(s2, r, r);
      AddLaws(s2, 0, 0);
    }
  }

  lemma Solution(s1: Byte, s2: Byte, x: Byte, y: Byte) returns (a: Byte, b: Byte)
    requires x != y
    ensures Add(a, b) == s1 && Add(Mul(a, x), Mul(b, y)) == s2
    ensures forall c: Byte, d: Byte :: Add(c, d) == s1 && Add(Mul(c, x), Mul(d, y)) == s2 ==> c == a && d == b
  {
    hide Add, Mul, Inv;
    var u, v := Add(x, y), Add(s2, Mul(s1, y));
    AddEqual(x, y);
    MulInv(u);
    a := Mul(v, Inv(u));
    b := Add(s1, a);
    MulAssoc(v, Inv(u), u);
    MulOne(v);
    Amplitudes(s1, s2, x, y, a, b);
    forall c: Byte, d: Byte | Add(c, d) == s1 && Add(Mul(c, x), Mul(d, y)) == s2 ensures c == a && d == b {
      Amplitudes(s1, s2, x, y, c, d);
      MulComm(u, c);
      MulComm(u, a);
      MulCancel(u, c, a);
    }
  }

  /** The third of three syndromes is that of the two values exactly when the locator annihilates them. */
  lemma ThirdSyndrome(t: Byte, x: Byte, u: Byte, y: Byte, s: Byte)
    ensures Add(Add(s, Mul(Add(x, y), Add(Mul(t, x), Mul(u, y)))), Mul(Mul(x, y), Add(t, u))) == 0
       <==> s == Add(Mul(Mul(t, x), x), Mul(Mul(u, y), y))
  {
    hide Add, Mul;
    LocatorAnnihilates(t, x, u, y);
    var r := Add(Mul(Mul(t, x), x), Mul(Mul(u, y), y));
    var p, q := Mul(Add(x, y), Add(Mul(t, x), Mul(u, y))), Mul(Mul(x, y), Add(t, u));
    AddLaws(s, p, q);
    AddLaws(r, p, q);
    AddEqual(s, Add(p, q));
    AddEqual(r, Add(p, q));
  }

  lemma QuadraticOmega(st: Bm, syn: Poly)
    requires syn[0] == 1 && st.sigma[0] == 1 && KeyEquation(st, syn, 4) && Degree(st.sigma, 2)
    ensures st.omega[0] == 1
    ensures st.omega[1] == Add(syn[1], st.sigma[1])
    ensures st.omega[2] == Add(Add(syn[2], Mul(st.sigma[1], syn[1])), st.sigma[2])
    ensures st.omega[3] == Add(Add(syn[3], Mul(st.sigma[1], syn[2])), Mul(st.sigma[2], syn[1]))
    ensures st.omega[4] == Add(Add(syn[4], Mul(st.sigma[1], syn[3])), Mul(st.sigma[2], syn[2]))
  {
    hide Add, Mul, Conv;
    var s := st.sigma;
    forall k | 0 <= k < 5 ensures Coef(s, syn, k) == st.omega[k] {
    }
    ConstantCoef(s, syn);
    ConvFirst(s, syn, 1);
    CoefQuadratic(s, syn, 2);
    CoefQuadratic(s, syn, 3);
    CoefQuadratic(s, syn, 4);
    MulOne(syn[1]);
    MulOne(syn[2]);
    MulOne(syn[3]);
    MulOne(syn[4]);
    MulOne(s[1]);
    MulOne(s[2]);
  }

  lemma ConstantCoef(s: Poly, t: Poly)
    requires s[0] == 1 && t[0] == 1
    ensures Coef(s, t, 0) == 1
  {
    hide Add, Mul;
    assert Conv(s, t, 0, 0) == 0;
    MulOne(1);
    AddLaws(1, 0, 0);
  }

  lemma ErrorValueNonzero(omega: Poly, e: nat, f: nat)
    requires e < LEN && f < LEN
    ensures ErrorValue(omega, e, f) != 0
  {
    hide Exp, Log, Add, Evaluator;
    var sum := (Log(Evaluator(omega, e)) + e) % 256;
    LogBound(Add(1, Exp(255 + f - e)));
    ExpNonzero(255 + sum - Log(Add(1, Exp(255 + f - e))));
  }

  /** The value computed at e is the one with the right syndromes exactly when it is not 0 and the sum fits. */
  lemma ValueIff(omega: Poly, a: Byte, e: nat, b: Byte, f: nat)
    requires e < LEN && f < LEN && e != f
    requires var x, y := Exp(e), Exp(f);
      omega[0] == 1 &&
      omega[1] == Add(Add(a, b), Add(x, y)) &&
      omega[2] == Add(Add(Add(Mul(a, x), Mul(b, y)), Mul(Add(x, y), Add(a, b))), Mul(x, y))
    ensures ErrorValue(omega, e, f) == a <==> FitsAt(omega, e)
  {
    hide Exp, Log, Add, Mul, Evaluator, ErrorValue;
    EvaluatorValue(omega, a, e, b, f);
    ErrorValueNonzero(omega, e, f);
    DistinctPowers(e, f);
    AddEqual(Exp(e), Exp(f));
    ExpNonzero(510 - 2 * e);
    MulNonzero(a, Add(Exp(e), Exp(f)));
    MulNonzero(Mul(a, Add(Exp(e), Exp(f))), Exp(510 - 2 * e));
    if a != 0 {
      ErrorValueExact(omega, a, e, f);
    }
  }

  /** Two symbols changed by c and d: the result is a code word exactly when these are the two values with the first two
      syndromes and the locator annihilates the others. */
  lemma ChangedIsCode(w: seq<Byte>, e: nat, f: nat, a: Byte, b: Byte, c: Byte, d: Byte)
    requires |w| == LEN && e < LEN && f < LEN && e != f
    requires var x, y, s := Exp(e), Exp(f), Syndromes(w);
      Add(a, b) == s[1] && Add(Mul(a, x), Mul(b, y)) == s[2] &&
      forall c: Byte, d: Byte :: Add(c, d) == s[1] && Add(Mul(c, x), Mul(d, y)) == s[2] ==> c == a && d == b
    ensures var t := Syndromes(Fix(Fix(w, e, c), f, d)); t[1] == 0 && t[2] == 0 <==> c == a && d == b
    ensures var x, y, s := Exp(e), Exp(f), Syndromes(w);
      IsCode(Fix(Fix(w, e, c), f, d)) <==>
        c == a && d == b &&
        s[3] == Add(Mul(Mul(a, x), x), Mul(Mul(b, y), y)) &&
        s[4] == Add(Mul(Mul(Mul(a, x), x), x), Mul(Mul(Mul(b, y), y), y))
  {
    hide Exp, Add, Mul, Eval, Fix, IsCode, Syndromes;
    var x, y, s, v := Exp(e), Exp(f), Syndromes(w), Fix(w, e, c);
    SyndromeFix(w, e, c);
    SyndromeFix(v, f, d);
    CodeSyndromesZero(Fix(v, f, d));
    Cancelled(s[1], c, d);
    Cancelled(s[2], Mul(c, x), Mul(d, y));
    Cancelled(s[3], Mul(Mul(c, x), x), Mul(Mul(d, y), y));
    Cancelled(s[4], Mul(Mul(Mul(c, x), x), x), Mul(Mul(Mul(d, y), y), y));
  }

  lemma Cancelled(s: Byte, p: Byte, q: Byte)
    ensures Add(Add(s, p), q) == 0 <==> Add(p, q) == s
  {
    hide Add;
    AddLaws(s, p, q);
    AddEqual(s, Add(p, q));
  }

  /** Two symbols: the result is a code word exactly when omega has degree 2, the roots differ, and no sum overflows. */
  lemma QuadraticResult(w: seq<Byte>, e: nat, f: nat)
    requires |w| == LEN && e < LEN && f < LEN
    requires Sigma(w) == Factors(Exp(e), Exp(f))
    ensures var o := BmRun(Syndromes(w), 4).omega; var r := Fix(Fix(w, e, ErrorValue(o, e, f)), f, ErrorValue(o, f, e));
      if e == f then r == w
      else
        (IsCode(r) <==> o[3] == 0 && o[4] == 0 && FitsAt(o, e) && FitsAt(o, f)) &&
        (Syndromes(r)[1] == 0 && Syndromes(r)[2] == 0 <==> FitsAt(o, e) && FitsAt(o, f))
  {
    hide Exp, Add, Mul, Eval, Fix, IsCode, Syndromes, BmRun, ErrorValue, FitsAt, KeyEquation;
    var syn := Syndromes(w);
    var st := BmRun(syn, 4);
    var x, y, o := Exp(e), Exp(f), st.omega;
    SyndromesOne(w);
    if e == f {
      FixTwice(w, e, ErrorValue(o, e, f));
    } else {
      DistinctPowers(e, f);
      var a, b := Solution(syn[1], syn[2], x, y);
      BmKeyEquation(syn, 4);
      QuadraticOmega(st, syn);
      ValueIff(o, a, e, b, f);
      AddLaws(a, b, 0);
      AddLaws(x, y, 0);
      AddLaws(Mul(a, x), Mul(b, y), 0);
      MulComm(x, y);
      ValueIff(o, b, f, a, e);
      ChangedIsCode(w, e, f, a, b, ErrorValue(o, e, f), ErrorValue(o, f, e));
      ThirdSyndrome(a, x, b, y, syn[3]);
      ThirdSyndrome(Mul(a, x), x, Mul(b, y), y, syn[4]);
    }
  }

  lemma SyndromesOne(w: seq<Byte>)
    ensures Syndromes(w)[0] == 1
  {
    hide Eval, Exp;
  }

  /** For every word: a correction of one symbol clears the first syndrome; one of two symbols clears the first two
      exactly when no sum overflows, and does nothing when the two roots are the same.  It has led to a code word if and
      only if moreover omega has no higher degree than the locator. */
  lemma CorrectionIff(w: seq<Byte>)
    requires |w| == LEN && DecodeWord(w).code > 0
    ensures var r, s, o := DecodeWord(w), Sigma(w), BmRun(Syndromes(w), 4).omega;
      var t := Syndromes(r.word);
      if r.code == 1 then t[1] == 0
      else if s[1] == 0 then r.word == w
      else t[1] == 0 && t[2] == 0 <==> forall e :: 0 <= e < LEN && Root(s, e) ==> FitsAt(o, e)
    ensures var r, s, o := DecodeWord(w), Sigma(w), BmRun(Syndromes(w), 4).omega;
      IsCode(r.word) <==>
        Degree(o, r.code) &&
        (r.code == 2 ==> s[1] != 0 && forall e :: 0 <= e < LEN && Root(s, e) ==> FitsAt(o, e))
  {
    hide Exp, Log, Add, Mul, IsCode, Root, Located, FirstRoot, OtherRoot, ErrorValue, BmRun, Eval, FitsAt, Syndromes,
      Fix;
    var s, o := Sigma(w), BmRun(Syndromes(w), 4).omega;
    WordVerdict(w);
    LogOne();
    if s[2] != 0 {
      QuadraticLocated(s);
      var e := FirstRoot(s, 0);
      var f := OtherRoot(s, e);
      QuadraticResult(w, e, f);
      AddEqual(Exp(e), Exp(f));
      if e != f {
        DistinctPowers(e, f);
      }
      forall k | 0 <= k < LEN ensures Root(s, k) <==> k == e || k == f {
        FactorRoots(e, f, k);
      }
    } else {
      LinearLocated(s);
      LinearResult(w);
    }
  }
}

/** What rs_decode answers for every sector. */
module RsSectorVerdict {
  import opened Gf256
  import opened RsCode
  import opened RsEval
  import opened RsDecoder
  import opened RsSector
  import opened RsSectorTheorems
  import opened RsVerdict

  /** No code word, and no locator of degree 2 at most with all its roots in the word. */
  predicate GivenUp(w: seq<Byte>)
    requires |w| == LEN
  {
    !IsCode(w) && !(Sigma(w)[3] == 0 && Sigma(w)[4] == 0 && Located(Sigma(w)))
  }

  lemma GivenUpIs(w: seq<Byte>)
    requires |w| == LEN
    ensures DecodeWord(w).code == -1 <==> GivenUp(w)
    ensures DecodeWord(w).code == 0 <==> IsCode(w)
    ensures DecodeWord(w).code <= 0 ==> DecodeWord(w).word == w
  {
    hide IsCode, Sigma, Located, DecodeWord, Root;
    WordVerdict(w);
  }

  lemma {:induction false} RowCountZero(s: Sector, n: nat)
    requires n <= LEN
    ensures RowCount(s, n) == 0 <==> forall r :: 0 <= r < n ==> DecodeWord(Row(s, r)).code <= 0
  {
    hide DecodeWord, Row;
    if n > 0 {
      RowCountZero(s, n - 1);
    }
  }

  lemma {:induction false} ColCountZero(t: Sector, n: nat)
    requires n <= DATA
    ensures ColCount(t, n) == 0 <==> forall c :: 0 <= c < n ==> DecodeWord(Col(t, c)).code <= 0
  {
    hide DecodeWord, Col;
    if n > 0 {
      ColCountZero(t, n - 1);
    }
  }

  /** Rows without corrections leave the sector alone. */
  lemma RowsUnchanged(s: Sector)
    requires forall r :: 0 <= r < LEN ==> DecodeWord(Row(s, r)).code <= 0
    ensures RowPass(s, LEN) == s
  {
    hide DecodeWord, Row;
    var t := RowPass(s, LEN);
    forall j | 0 <= j < SIZE ensures t[j] == s[j] {
      GivenUpIs(Row(s, j / 36));
      RowAt(s, j / 36, j % 36);
    }
  }

  lemma ColumnsUnchanged(t: Sector)
    requires forall c :: 0 <= c < DATA ==> DecodeWord(Col(t, c)).code <= 0
    ensures ColPass(t, DATA) == t
  {
    hide DecodeWord, Col;
    var u := ColPass(t, DATA);
    forall j | 0 <= j < SIZE ensures u[j] == t[j] {
      if j % 36 < DATA {
        GivenUpIs(Col(t, j % 36));
        ColAt(t, j % 36, j / 36);
      }
    }
  }

  /** For every sector: it is given up exactly when a data column is, after the rows have been decoded; the answer is 0
      exactly when all data columns are code words and no row is corrected, and then nothing has been changed. */
  lemma SectorVerdict(s: Sector)
    ensures DecodeCode(s) == -1 <==> exists c :: 0 <= c < DATA && GivenUp(Col(RowPass(s, LEN), c))
    ensures DecodeCode(s) == 0 <==>
      (forall c :: 0 <= c < DATA ==> IsCode(Col(s, c))) &&
      forall r :: 0 <= r < LEN ==> IsCode(Row(s, r)) || GivenUp(Row(s, r))
    ensures DecodeCode(s) == 0 ==> RowPass(s, LEN) == s && ColPass(s, DATA) == s
    ensures DecodeCode(s) >= -1
  {
    hide DecodeWord, Row, Col, IsCode, GivenUp, RowPass, ColPass, FirstBadCol, RowCount, ColCount;
    var t := RowPass(s, LEN);
    forall c | 0 <= c < DATA
      ensures Lost(t, c) <==> GivenUp(Col(t, c))
      ensures DecodeWord(Col(t, c)).code == -1 <==> GivenUp(Col(t, c))
      ensures DecodeWord(Col(t, c)).code == 0 <==> IsCode(Col(t, c))
    {
      GivenUpIs(Col(t, c));
    }
    forall r | 0 <= r < LEN ensures DecodeWord(Row(s, r)).code <= 0 <==> IsCode(Row(s, r)) || GivenUp(Row(s, r)) {
      GivenUpIs(Row(s, r));
    }
    FirstBadColIs(t, 0);
    var bad := FirstBadCol(t, 0);
    assert bad < DATA ==> GivenUp(Col(t, bad));
    RowCountZero(s, LEN);
    ColCountZero(t, DATA);
    if forall r :: 0 <= r < LEN ==> DecodeWord(Row(s, r)).code <= 0 {
      RowsUnchanged(s);
      if forall c :: 0 <= c < DATA ==> DecodeWord(Col(t, c)).code <= 0 {
        ColumnsUnchanged(t);
      }
      if forall c :: 0 <= c < DATA ==> IsCode(Col(s, c)) {
        NoBadColumn(t, 0);
      }
    }
  }
}
