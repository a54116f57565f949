/**
 Two wrong symbols.  The distance of the code is 5, so a decoder could always correct two; the
 decoder of rs.c does so exactly when `Corrected2` holds.  It fails when the two error values
 are equal (rs.c:213 then takes the wrong update method), except for one value, and when a sum of
 a logarithm and a position does not fit the uint8_t it is stored in (rs.c:305, rs.c:314).
 */
module RsTwoErrorAlgebra {
  import opened RsTables
  import opened Gf256
  import opened Gf256Laws
  import opened RsEval

  lemma CancelPairs(p: Byte, q: Byte)
    ensures Add(Add(p, Add(p, q)), q) == 0
  {
    hide Add;
    AddLaws(p, p, q);
    AddLaws(q, 0, 0);
  }

  /** The x^k syndrome of two errors a at x and b at y, from t = a*x^k and u = b*y^k. */
  lemma TermVanishes(t: Byte, x: Byte, y: Byte)
    ensures Add(Add(Mul(Mul(t, x), x), Mul(Add(x, y), Mul(t, x))), Mul(Mul(x, y), t)) == 0
  {
    hide Add, Mul;
    var tx := Mul(t, x);
    MulDistrib(tx, x, y);
    MulComm(x, tx);
    MulComm(x, y);
    MulAssoc(y, x, t);
    MulComm(x, t);
    CancelPairs(Mul(tx, x), Mul(y, tx));
  }

  lemma ZeroSum(a2: Byte, a1: Byte, a0: Byte, b2: Byte, b1: Byte, b0: Byte)
    requires Add(Add(a2, a1), a0) == 0 && Add(Add(b2, b1), b0) == 0
    ensures Add(Add(Add(a2, b2), Add(a1, b1)), Add(a0, b0)) == 0
  {
    hide Add;
    Swap4(a2, b2, a1, b1);
    Swap4(Add(a2, a1), Add(b2, b1), a0, b0);
    AddLaws(0, 0, 0);
  }

  /** 1 + (x+y)*z + x*y*z^2 annihilates any three successive syndromes. */
  lemma LocatorAnnihilates(t: Byte, x: Byte, u: Byte, y: Byte)
    ensures Add(Add(Add(Mul(Mul(t, x), x), Mul(Mul(u, y), y)),
                    Mul(Add(x, y), Add(Mul(t, x), Mul(u, y)))),
                Mul(Mul(x, y), Add(t, u))) == 0
  {
    hide Add, Mul;
    var s, m := Add(x, y), Mul(x, y);
    TermVanishes(t, x, y);
    TermVanishes(u, y, x);
    AddLaws(x, y, 0);
    MulComm(x, y);
    ZeroSum(Mul(Mul(t, x), x), Mul(s, Mul(t, x)), Mul(m, t), Mul(Mul(u, y), y), Mul(s, Mul(u, y)), Mul(m, u));
    MulDistrib(s, Mul(t, x), Mul(u, y));
    MulDistrib(m, t, u);
  }

  /** Squaring is additive. */
  lemma SquareSum(p: Byte, q: Byte)
    ensures Mul(Add(p, q), Add(p, q)) == Add(Mul(p, p), Mul(q, q))
  {
    hide Add, Mul;
    MulDistrib(Add(p, q), p, q);
    MulDistrib(p, p, q);
    MulDistrib(q, p, q);
    MulComm(p, q);
    var c := Mul(p, q);
    AddLaws(c, Mul(q, q), 0);
    Swap4(Mul(p, p), c, Mul(q, q), c);
    AddLaws(c, c, c);
    AddLaws(Add(Mul(p, p), Mul(q, q)), 0, 0);
  }

  /** (a*x)*(a*x) in the three shapes the syndromes give it. */
  lemma SquareShapes(a: Byte, x: Byte, b: Byte)
    ensures Mul(a, Mul(Mul(a, x), x)) == Mul(Mul(a, x), Mul(a, x))
    ensures Mul(b, Mul(Mul(a, x), x)) == Mul(Mul(b, a), Mul(x, x))
  {
    hide *;
    var p := Mul(a, x);
    MulAssoc(a, p, x);
    MulComm(a, p);
    MulAssoc(p, a, x);
    MulAssoc(a, x, x);
    MulAssoc(b, a, Mul(x, x));
  }

  lemma FourTerms(pp: Byte, qq: Byte, u: Byte, v: Byte)
    ensures Add(Add(pp, qq), Add(Add(pp, u), Add(v, qq))) == Add(u, v)
  {
    hide Add;
    Swap4(pp, u, v, qq);
    AddLaws(pp, v, u);
    Swap4(pp, v, u, qq);
    AddLaws(u, qq, 0);
    Swap4(pp, u, v, qq);
    AddLaws(v, qq, 0);
    Swap4(pp, u, qq, v);
    AddLaws(Add(pp, qq), Add(pp, qq), Add(u, v));
    AddLaws(Add(u, v), 0, 0);
  }

  /** S2^2 + S1*S3 = a*b*(x+y)^2. */
  lemma Determinant(a: Byte, x: Byte, b: Byte, y: Byte)
    ensures Add(Mul(Add(Mul(a, x), Mul(b, y)), Add(Mul(a, x), Mul(b, y))),
                Mul(Add(a, b), Add(Mul(Mul(a, x), x), Mul(Mul(b, y), y))))
         == Mul(Mul(a, b), Mul(Add(x, y), Add(x, y)))
  {
    hide Add, Mul;
    var p, q := Mul(a, x), Mul(b, y);
    var px, qy := Mul(p, x), Mul(q, y);
    SquareSum(p, q);
    MulDistrib(Add(px, qy), a, b);
    MulDistrib(a, px, qy);
    MulDistrib(b, px, qy);
    SquareShapes(a, x, b);
    SquareShapes(b, y, a);
    MulComm(a, b);
    var ab := Mul(a, b);
    FourTerms(Mul(p, p), Mul(q, q), Mul(ab, Mul(y, y)), Mul(ab, Mul(x, x)));
    SquareSum(x, y);
    MulDistrib(ab, Mul(x, x), Mul(y, y));
    AddLaws(Mul(ab, Mul(x, x)), Mul(ab, Mul(y, y)), 0);
  }
}

/** The Berlekamp-Massey loop on the syndromes of two errors. */
module RsTwoErrorLocator {
  import opened RsTables
  import opened Gf256
  import opened Gf256Laws
  import opened RsDecoder
  import opened RsKeyEquation
  import opened RsSingleError
  import opened RsTwoErrorAlgebra

  /** p*S2 + q*S1 = S3 and p*S3 + q*S2 = S4 have at most one solution. */
  lemma UniqueSolution(s1: Byte, s2: Byte, s3: Byte, s4: Byte, p: Byte, q: Byte, p': Byte, q': Byte)
    requires Add(Mul(s2, s2), Mul(s1, s3)) != 0
    requires Add(Add(s3, Mul(p, s2)), Mul(q, s1)) == 0 && Add(Add(s4, Mul(p, s3)), Mul(q, s2)) == 0
    requires Add(Add(s3, Mul(p', s2)), Mul(q', s1)) == 0 && Add(Add(s4, Mul(p', s3)), Mul(q', s2)) == 0
    ensures p == p' && q == q'
  {
    hide Add, Mul;
    var dp, dq := Add(p, p'), Add(q, q');
    Difference(s3, s2, s1, p, q, p', q');
    Difference(s4, s3, s2, p, q, p', q');
    // dp*S2 = dq*S1 and dp*S3 = dq*S2
    MulDistrib(dp, Mul(s2, s2), Mul(s1, s3));
    MulAssoc(dp, s2, s2);
    MulComm(s1, s3);
    MulAssoc(dp, s3, s1);
    MulAssoc(dq, s1, s2);
    MulAssoc(dq, s2, s1);
    MulComm(s1, s2);
    AddEqual(Mul(dp, Mul(s2, s2)), Mul(dp, Mul(s1, s3)));
    MulNonzero(dp, Add(Mul(s2, s2), Mul(s1, s3)));
    assert dp == 0;
    MulNonzero(0, s2);
    MulNonzero(0, s3);
    MulNonzero(dq, s1);
    MulNonzero(dq, s2);
    MulNonzero(s2, s2);
    MulNonzero(s1, s3);
    AddLaws(0, 0, 0);
    AddEqual(p, p');
    AddEqual(q, q');
  }

  lemma Difference(c: Byte, u: Byte, v: Byte, p: Byte, q: Byte, p': Byte, q': Byte)
    requires Add(Add(c, Mul(p, u)), Mul(q, v)) == 0
    requires Add(Add(c, Mul(p', u)), Mul(q', v)) == 0
    ensures Mul(Add(p, p'), u) == Mul(Add(q, q'), v)
  {
    hide Add, Mul;
    MulDistrib(u, p, p');
    MulDistrib(v, q, q');
    ZeroSum(c, Mul(p, u), Mul(q, v), c, Mul(p', u), Mul(q', v));
    AddLaws(c, 0, 0);
    AddLaws(Add(Mul(p, u), Mul(p', u)), 0, 0);
    AddEqual(Add(Mul(p, u), Mul(p', u)), Add(Mul(q, v), Mul(q', v)));
  }

  lemma CoefQuadratic(s: Poly, t: Poly, k: nat)
    requires Degree(s, 2) && 2 <= k < 5
    ensures Coef(s, t, k) == Add(Add(Mul(s[0], t[k]), Mul(s[1], t[k - 1])), Mul(s[2], t[k - 2]))
  {
    hide Add, Mul, Conv;
    ConvDegree(s, t, k, k + 1, 2);
    ConvSecond(s, t, k);
  }

  lemma ConvSecond(s: Poly, t: Poly, k: nat)
    requires 2 <= k < 5
    ensures Conv(s, t, k, 3) == Add(Add(Mul(s[0], t[k]), Mul(s[1], t[k - 1])), Mul(s[2], t[k - 2]))
  {
    hide Add, Mul;
    ConvFirst(s, t, k);
  }

  /** The syndromes of an error a at x and an error b at y. */
  function TwoSyn(a: Byte, x: Byte, b: Byte, y: Byte): Poly {
    [1, Add(a, b), Add(Mul(a, x), Mul(b, y)), Add(Mul(Mul(a, x), x), Mul(Mul(b, y), y)),
     Add(Mul(Mul(Mul(a, x), x), x), Mul(Mul(Mul(b, y), y), y))]
  }

  predicate TwoErrors(a: Byte, x: Byte, b: Byte, y: Byte) {
    a != 0 && b != 0 && x != 0 && y != 0 && x != y
  }

  lemma DeterminantNonzero(a: Byte, x: Byte, b: Byte, y: Byte)
    requires TwoErrors(a, x, b, y)
    ensures var s := TwoSyn(a, x, b, y); Add(Mul(s[2], s[2]), Mul(s[1], s[3])) != 0
  {
    hide Add, Mul;
    Determinant(a, x, b, y);
    AddEqual(x, y);
    MulNonzero(Add(x, y), Add(x, y));
    MulNonzero(a, b);
    MulNonzero(Mul(a, b), Mul(Add(x, y), Add(x, y)));
  }

  /** The two equations that determine the locator. */
  predicate Annihilates(syn: Poly, p: Byte, q: Byte) {
    Add(Add(syn[3], Mul(p, syn[2])), Mul(q, syn[1])) == 0 &&
    Add(Add(syn[4], Mul(p, syn[3])), Mul(q, syn[2])) == 0
  }

  lemma LocatorIsUnique(a: Byte, x: Byte, b: Byte, y: Byte, p: Byte, q: Byte)
    requires TwoErrors(a, x, b, y)
    ensures Annihilates(TwoSyn(a, x, b, y), Add(x, y), Mul(x, y))
    ensures Annihilates(TwoSyn(a, x, b, y), p, q) ==> p == Add(x, y) && q == Mul(x, y)
  {
    hide Add, Mul;
    var s := TwoSyn(a, x, b, y);
    LocatorAnnihilates(a, x, b, y);
    LocatorAnnihilates(Mul(a, x), x, Mul(b, y), y);
    if Annihilates(s, p, q) {
      DeterminantNonzero(a, x, b, y);
      UniqueSolution(s[1], s[2], s[3], s[4], p, q, Add(x, y), Mul(x, y));
    }
  }

  /** A final locator of degree 2 is the right one, and omega is what the key equation says. */
  lemma FinalLocator(a: Byte, x: Byte, b: Byte, y: Byte)
    requires TwoErrors(a, x, b, y)
    requires var st := BmRun(TwoSyn(a, x, b, y), 4); Degree(st.sigma, 2) && Degree(st.omega, 2)
    ensures var syn := TwoSyn(a, x, b, y); var st := BmRun(syn, 4);
      st.sigma == [1, Add(x, y), Mul(x, y), 0, 0] &&
      st.omega[1] == Add(syn[1], Add(x, y)) &&
      st.omega[2] == Add(Add(syn[2], Mul(Add(x, y), syn[1])), Mul(x, y))
  {
    hide Add, Mul, Coef;
    var syn := TwoSyn(a, x, b, y);
    var st := BmRun(syn, 4);
    BmKeyEquation(syn, 4);
    QuadraticCoefs(st, syn);
    LocatorIsUnique(a, x, b, y, st.sigma[1], st.sigma[2]);
    DegreeTwo(st.sigma);
  }

  lemma DegreeTwo(p: Poly)
    requires Degree(p, 2)
    ensures p == [p[0], p[1], p[2], 0, 0]
  {
    assert p[3] == 0 && p[4] == 0;
  }

  /** The key equation written out for degree 2. */
  lemma QuadraticCoefs(st: Bm, syn: Poly)
    requires syn[0] == 1 && st.sigma[0] == 1
    requires KeyEquation(st, syn, 4) && Degree(st.sigma, 2) && Degree(st.omega, 2)
    ensures st.omega[1] == Add(syn[1], st.sigma[1])
    ensures st.omega[2] == Add(Add(syn[2], Mul(st.sigma[1], syn[1])), st.sigma[2])
    ensures Annihilates(syn, st.sigma[1], st.sigma[2])
  {
    hide Add, Mul, Conv;
    var s := st.sigma;
    assert Coef(s, syn, 1) == st.omega[1] && Coef(s, syn, 2) == st.omega[2];
    assert Coef(s, syn, 3) == st.omega[3] == 0 && Coef(s, syn, 4) == st.omega[4] == 0;
    ConvFirst(s, syn, 1);
    CoefQuadratic(s, syn, 2);
    CoefQuadratic(s, syn, 3);
    CoefQuadratic(s, syn, 4);
    MulOne(syn[1]);
    MulOne(syn[2]);
    MulOne(syn[3]);
    MulOne(syn[4]);
    MulOne(s[1]);
    MulOne(s[2]);
  }
}

/** Which way the four rounds go, by the first syndrome. */
module RsTwoErrorRounds {
  import opened RsTables
  import opened Gf256
  import opened Gf256Laws
  import opened RsDecoder
  import opened RsKeyEquation
  import opened RsSingleError
  import opened RsTwoErrorLocator

  lemma DegreeWeaken(p: Poly, m: int, n: int)
    requires Degree(p, m) && m <= n
    ensures Degree(p, n)
  {
  }

  /** S2 = s*S1 and S3 = s*S2 make the determinant vanish. */
  lemma Dependent(s: Byte, s1: Byte, s2: Byte, s3: Byte)
    requires s2 == Mul(s, s1) && s3 == Mul(s, s2)
    ensures Add(Mul(s2, s2), Mul(s1, s3)) == 0
  {
    hide Add, Mul;
    MulAssoc(s1, s, s2);
    MulComm(s1, s);
    AddEqual(Mul(s2, s2), Mul(s1, s3));
  }

  /** Different values: the third discrepancy cannot vanish. */
  lemma ThirdDiscrepancy(a: Byte, x: Byte, b: Byte, y: Byte)
    requires TwoErrors(a, x, b, y) && a != b
    ensures var syn := TwoSyn(a, x, b, y); Coef(BmRun(syn, 2).sigma, syn, 3) != 0
  {
    hide Add, Mul, Coef;
    var syn := TwoSyn(a, x, b, y);
    var st := BmRun(syn, 2);
    AddEqual(a, b);
    SecondRound(syn);
    BmKeyEquation(syn, 2);
    var s := st.sigma;
    assert Coef(s, syn, 2) == st.omega[2] == 0;
    CoefLinear(s, syn, 2);
    CoefLinear(s, syn, 3);
    MulOne(syn[2]);
    MulOne(syn[3]);
    AddEqual(syn[2], Mul(s[1], syn[1]));
    AddEqual(syn[3], Mul(s[1], syn[2]));
    if Coef(s, syn, 3) == 0 {
      Dependent(s[1], syn[1], syn[2], syn[3]);
      DeterminantNonzero(a, x, b, y);
    }
  }

  lemma ThirdRound(a: Byte, x: Byte, b: Byte, y: Byte)
    requires TwoErrors(a, x, b, y) && a != b
    ensures var st := BmRun(TwoSyn(a, x, b, y), 3);
      Degree(st.sigma, 2) && Degree(st.omega, 2) && Degree(st.tau, 1) && Degree(st.gamma, 1)
  {
    hide Add, Mul, Coef, Plus, Scale, Inv;
    var syn := TwoSyn(a, x, b, y);
    var st := BmRun(syn, 2);
    var delta := Coef(st.sigma, syn, 3);
    AddEqual(a, b);
    SecondRound(syn);
    ThirdDiscrepancy(a, x, b, y);
    DegreeWeaken(st.sigma, 1, 2);
    DegreeWeaken(st.omega, 1, 2);
    StepDegree(st.sigma, delta, st.tau, 1);
    StepDegree(st.omega, delta, st.gamma, 1);
    ScaleDegree(Inv(delta), st.sigma, 1);
    ScaleDegree(Inv(delta), st.omega, 1);
    assert BmRun(syn, 3) == BmStep(st, syn, 3);
  }

  lemma DistinctValues(a: Byte, x: Byte, b: Byte, y: Byte)
    requires TwoErrors(a, x, b, y) && a != b
    ensures var st := BmRun(TwoSyn(a, x, b, y), 4); Degree(st.sigma, 2) && Degree(st.omega, 2)
  {
    hide Add, Mul, Coef, Plus, Scale, Inv, Shift;
    var syn := TwoSyn(a, x, b, y);
    var st := BmRun(syn, 3);
    ThirdRound(a, x, b, y);
    assert BmRun(syn, 4) == BmStep(st, syn, 4);
    StepUpdates(st, syn, 4);
    StepDegree(st.sigma, Coef(st.sigma, syn, 4), st.tau, 1);
    StepDegree(st.omega, Coef(st.sigma, syn, 4), st.gamma, 1);
  }

  // ---------------------------------------------------------- equal values: S1 = 0

  lemma EqualSyndromes(a: Byte, x: Byte, y: Byte)
    requires TwoErrors(a, x, a, y)
    ensures var syn := TwoSyn(a, x, a, y);
      syn[1] == 0 && syn[2] == Mul(a, Add(x, y)) && syn[2] != 0 && syn[3] == Mul(Add(x, y), syn[2]) && syn[3] != 0
  {
    hide Add, Mul;
    var syn := TwoSyn(a, x, a, y);
    AddEqual(a, a);
    AddEqual(x, y);
    MulDistrib(a, x, y);
    MulNonzero(a, Add(x, y));
    LocatorIsUnique(a, x, a, y, 0, 0);
    MulNonzero(Mul(x, y), 0);
    AddLaws(Add(syn[3], Mul(Add(x, y), syn[2])), 0, 0);
    AddEqual(syn[3], Mul(Add(x, y), syn[2]));
    MulNonzero(Add(x, y), syn[2]);
  }

  lemma ScaleOne(c: Byte)
    ensures Scale(c, ONE) == [c, 0, 0, 0, 0]
  {
    hide Mul;
    MulOne(c);
    MulNonzero(c, 0);
  }

  lemma EqualFirst(syn: Poly)
    requires syn[0] == 1 && syn[1] == 0
    ensures BmRun(syn, 1) == Bm(ONE, ONE, [0, 1, 0, 0, 0], ZERO, 0, false)
  {
    hide Add, Mul, Conv, Plus, Scale, Inv;
    CoefLinear(ONE, syn, 1);
    MulOne(0);
    AddLaws(0, 0, 0);
    assert BmRun(syn, 0) == BM_START;
    IdlePlus(ONE, Shift(ONE));
    IdlePlus(ONE, Shift(ZERO));
    MulNonzero(0, 1);
    assert BmRun(syn, 1) == BmStep(BM_START, syn, 1);
  }

  lemma EqualSecond(syn: Poly)
    requires syn[0] == 1 && syn[1] == 0 && syn[2] != 0
    ensures var i := Inv(syn[2]);
      BmRun(syn, 2) == Bm([1, 0, syn[2], 0, 0], ONE, [i, 0, 0, 0, 0], [i, 0, 0, 0, 0], 2, true)
  {
    hide Add, Mul, Conv, Inv, BmRun;
    EqualFirst(syn);
    var st := Bm(ONE, ONE, [0, 1, 0, 0, 0], ZERO, 0, false);
    CoefLinear(ONE, syn, 2);
    MulOne(syn[2]);
    MulNonzero(0, syn[1]);
    AddLaws(syn[2], 0, 0);
    var delta := Coef(ONE, syn, 2);
    assert delta == syn[2];
    MulNonzero(delta, 0);
    AddLaws(0, 0, 0);
    AddLaws(1, 0, 0);
    ScaleOne(Inv(delta));
    RunStep(syn, 2);
  }

  lemma RunStep(syn: Poly, l: nat)
    requires 1 <= l <= 4
    ensures BmRun(syn, l) == BmStep(BmRun(syn, l - 1), syn, l)
  {
    hide BmStep;
  }

  lemma EqualThird(syn: Poly)
    requires syn[0] == 1 && syn[1] == 0 && syn[2] != 0 && syn[3] != 0
    ensures var st := BmRun(syn, 3);
      Degree(st.sigma, 2) && Degree(st.omega, 1) && st.sigma[2] == syn[2] && st.d == 1 &&
      st.tau[2] == Mul(Inv(syn[3]), syn[2])
  {
    hide Add, Mul, Coef, Inv, BmRun, Plus, Scale;
    EqualSecond(syn);
    var st := BmRun(syn, 2);
    CoefQuadratic(st.sigma, syn, 3);
    MulOne(syn[3]);
    MulNonzero(0, syn[2]);
    MulNonzero(syn[2], 0);
    AddLaws(syn[3], 0, 0);
    AddLaws(Add(syn[3], 0), 0, 0);
    var delta := Coef(st.sigma, syn, 3);
    assert delta == syn[3];
    assert Degree(st.tau, 0) && Degree(st.gamma, 0);
    StepSmall(st.sigma, delta, st.tau);
    StepSmall(st.omega, delta, st.gamma);
    ScaleAt(Inv(delta), st.sigma, 2);
    RunStep(syn, 3);
  }

  lemma StepSmall(p: Poly, c: Byte, q: Poly)
    requires Degree(q, 0)
    ensures var r := Plus(p, Scale(c, Shift(q))); r[2] == p[2] && r[3] == p[3] && r[4] == p[4]
  {
    hide Add, Mul;
    MulNonzero(c, 0);
    AddLaws(p[2], 0, 0);
    AddLaws(p[3], 0, 0);
    AddLaws(p[4], 0, 0);
  }

  /** Equal values: the decoder gets through only if a*(x+y) = x*y. */
  lemma EqualValues(a: Byte, x: Byte, y: Byte)
    requires TwoErrors(a, x, a, y)
    ensures var st := BmRun(TwoSyn(a, x, a, y), 4);
      if Mul(a, Add(x, y)) == Mul(x, y) then Degree(st.sigma, 2) && Degree(st.omega, 2) else st.sigma[3] != 0
  {
    hide Add, Mul, Coef, Inv, BmRun, Plus, Scale, Shift, BmStep;
    var syn := TwoSyn(a, x, a, y);
    EqualSyndromes(a, x, y);
    EqualThird(syn);
    var st := BmRun(syn, 3);
    var p := st.sigma[1];
    BmKeyEquation(syn, 3);
    assert st.sigma[0] == 1;
    assert Coef(st.sigma, syn, 3) == st.omega[3] == 0;
    CoefQuadratic(st.sigma, syn, 3);
    CoefQuadratic(st.sigma, syn, 4);
    MulOne(syn[3]);
    MulOne(syn[4]);
    var delta := Coef(st.sigma, syn, 4);
    LocatorIsUnique(a, x, a, y, p, syn[2]);
    RunStep(syn, 4);
    if Mul(a, Add(x, y)) == Mul(x, y) {
      MulNonzero(syn[2], 0);
      AddLaws(Add(syn[3], Mul(p, syn[2])), 0, 0);
      AddEqual(syn[3], Mul(p, syn[2]));
      MulComm(p, syn[2]);
      MulComm(Add(x, y), syn[2]);
      MulCancel(syn[2], p, Add(x, y));
      assert delta == 0;
      IdleRound(st, syn, 4);
      DegreeWeaken(st.omega, 1, 2);
    } else {
      assert delta != 0;
      StepUpdates(st, syn, 4);
      StepAt(st.sigma, delta, st.tau, 3);
      MulInv(syn[3]);
      MulNonzero(Inv(syn[3]), syn[2]);
      MulNonzero(delta, st.tau[2]);
      AddLaws(Mul(delta, st.tau[2]), 0, 0);
    }
  }
}

/** Root search and error values for the locator of two errors. */
module RsTwoErrorValues {
  import opened RsTables
  import opened Gf256
  import opened Gf256Tables
  import opened Gf256Laws
  import opened RsCode
  import opened RsDecoder

  lemma ExpIsOne(n: nat)
    ensures Exp(n) == 1 <==> n % 255 == 0
  {
    hide Exp, Log;
    ExpMod(n);
    ExpUnit();
    LogExp(n % 255);
    LogOne();
  }

  /** (1 + z*x)*(1 + z*y). */
  lemma FactorProduct(z: Byte, x: Byte, y: Byte)
    ensures Mul(Add(1, Mul(z, x)), Add(1, Mul(z, y)))
         == Add(Add(1, Mul(z, Add(x, y))), Mul(Mul(z, z), Mul(x, y)))
  {
    hide Add, Mul;
    var p, q := Mul(z, x), Mul(z, y);
    MulDistrib(Add(1, p), 1, q);
    MulOne(Add(1, p));
    MulDistrib(q, 1, p);
    MulOne(q);
    MulDistrib(z, x, y);
    MulAssoc(z, z, Mul(x, y));
    MulAssoc(z, x, y);
    MulComm(p, y);
    MulAssoc(z, y, p);
    MulAssoc(y, z, x);
    MulComm(y, z);
    MulComm(q, p);
    MulAssoc(p, z, y);
    MulComm(p, z);
    MulAssoc(z, p, y);
    AddLaws(1, p, q);
    AddLaws(Add(1, p), q, Mul(p, q));
  }

  lemma LocatorIs(x: Byte, y: Byte, k: nat)
    requires x != 0 && y != 0 && x != y && k <= 255
    ensures Locator([1, Add(x, y), Mul(x, y), 0, 0], k)
         == Mul(Add(1, Mul(Exp(255 - k), x)), Add(1, Mul(Exp(255 - k), y)))
  {
    hide Exp, Log, Add, Mul;
    var z, s, m := Exp(255 - k), Add(x, y), Mul(x, y);
    MulNonzero(x, y);
    AddEqual(x, y);
    ExpLog(s);
    ExpLog(m);
    MulExpExp(255 - k, Log(s));
    MulExpExp(255 - k, 255 - k);
    MulExpExp(2 * (255 - k), Log(m));
    FactorProduct(z, x, y);
  }

  lemma FactorVanishes(k: nat, e: nat)
    requires k <= 255 && e < 36
    ensures Add(1, Mul(Exp(255 - k), Exp(e))) == 0 <==> k == e || (k == 255 && e == 0)
  {
    hide *;
    AddEqual(1, Mul(Exp(255 - k), Exp(e)));
    MulExpExp(255 - k, e);
    ExpIsOne(255 - k + e);
  }

  /** At every position the search tries, the locator vanishes exactly at the two errors. */
  lemma LocatorRoots(e: nat, f: nat, k: nat)
    requires e < LEN && f < LEN && e != f && k <= 255
    ensures Locator([1, Add(Exp(e), Exp(f)), Mul(Exp(e), Exp(f)), 0, 0], k) == 0
       <==> k == e || k == f || (k == 255 && (e == 0 || f == 0))
  {
    hide Exp, Log, Add, Mul, Locator;
    var x, y, z := Exp(e), Exp(f), Exp(255 - k);
    DistinctPowers(e, f);
    ExpNonzero(e);
    ExpNonzero(f);
    LocatorIs(x, y, k);
    MulNonzero(Add(1, Mul(z, x)), Add(1, Mul(z, y)));
    FactorVanishes(k, e);
    FactorVanishes(k, f);
  }

  lemma DistinctPowers(e: nat, f: nat)
    requires e < 255 && f < 255 && e != f
    ensures Exp(e) != Exp(f)
  {
    hide Exp, Log;
    LogExp(e);
    LogExp(f);
  }

  /** The search stops at the smaller position and computes the other one. */
  lemma RootsFound(e: nat, f: nat)
    requires e < f < LEN
    ensures var sigma := [1, Add(Exp(e), Exp(f)), Mul(Exp(e), Exp(f)), 0, 0];
      FirstRoot(sigma, 0) == e && OtherRoot(sigma, e) == f
  {
    hide Exp, Log, Add, Mul, Locator, FirstRoot;
    var sigma: Poly := [1, Add(Exp(e), Exp(f)), Mul(Exp(e), Exp(f)), 0, 0];
    var r := FirstRoot(sigma, 0);
    LocatorRoots(e, f, e);
    assert r <= e;
    LocatorRoots(e, f, r);
    MulExpExp(e, f);
    LogExp(e + f);
    LogOne();
  }

  /** omega at 2^-e, in products. */
  lemma EvaluatorIs(omega: Poly, e: nat)
    requires e <= 255
    ensures Evaluator(omega, e)
         == Add(Add(omega[0], Mul(omega[1], Exp(255 - e))), Mul(omega[2], Mul(Exp(255 - e), Exp(255 - e))))
  {
    hide Exp, Log, Add, Mul;
    var k := 255 - e;
    MulExpExp(k, k);
    MulNonzero(0, Exp(k));
    MulNonzero(0, Exp(k + k));
    if omega[1] != 0 {
      ExpLog(omega[1]);
      MulExpExp(Log(omega[1]), k);
    }
    if omega[2] != 0 {
      ExpLog(omega[2]);
      MulExpExp(Log(omega[2]), k + k);
    }
  }

  lemma TwelveTerms(xx: Byte, xa: Byte, xb: Byte, xy: Byte, yb: Byte, ya: Byte)
    ensures Add(Add(xx, Add(Add(xa, xb), Add(xx, xy))), Add(Add(Add(xa, yb), Add(Add(xa, xb), Add(ya, yb))), xy))
         == Add(xa, ya)
  {
    calc {
      Add(Add(xx, Add(Add(xa, xb), Add(xx, xy))), Add(Add(Add(xa, yb), Add(Add(xa, xb), Add(ya, yb))), xy));
      Add(xx, Add(Add(xa, xb), Add(xx, xy))) ^ Add(Add(Add(xa, yb), Add(Add(xa, xb), Add(ya, yb))), xy);
      (xx ^ Add(Add(xa, xb), Add(xx, xy))) ^ (Add(Add(xa, yb), Add(Add(xa, xb), Add(ya, yb))) ^ xy);
      (xx ^ (Add(xa, xb) ^ Add(xx, xy))) ^ ((Add(xa, yb) ^ Add(Add(xa, xb), Add(ya, yb))) ^ xy);
      (xx ^ ((xa ^ xb) ^ (xx ^ xy))) ^ (((xa ^ yb) ^ ((xa ^ xb) ^ (ya ^ yb))) ^ xy);
      xa ^ ya;
      Add(xa, ya);
    }
  }

  /** x^2 + w1*x + w2 for the omega of the key equation is a*(x+y). */
  lemma EvaluatorProducts(a: Byte, x: Byte, b: Byte, y: Byte)
    ensures var s, s1, s2 := Add(x, y), Add(a, b), Add(Mul(a, x), Mul(b, y));
      Add(Add(Mul(x, x), Mul(Add(s1, s), x)), Add(Add(s2, Mul(s, s1)), Mul(x, y))) == Mul(a, s)
  {
    hide Add, Mul;
    var s, s1 := Add(x, y), Add(a, b);
    MulDistrib(x, s1, s);
    MulDistrib(x, a, b);
    MulDistrib(x, x, y);
    MulComm(x, y);
    MulDistrib(s, a, b);
    MulDistrib(s1, x, y);
    MulComm(s, s1);
    MulDistrib(y, a, b);
    TwelveTerms(Mul(x, x), Mul(a, x), Mul(b, x), Mul(x, y), Mul(b, y), Mul(a, y));
    MulDistrib(a, x, y);
  }

  /** A sum of a logarithm and a position that fits the uint8_t it is stored in. */
  predicate SumFits(a: Byte, e: nat, f: nat)
    requires e < LEN && f < LEN
  {
    Log(Mul(Mul(a, Add(Exp(e), Exp(f))), Exp(510 - 2 * e))) + e < 256
  }

  /** omega at 1/x is a*(x+y)/x^2. */
  lemma EvaluatorValue(omega: Poly, a: Byte, e: nat, b: Byte, f: nat)
    requires e < LEN && f < LEN
    requires var x, y := Exp(e), Exp(f);
      omega[0] == 1 &&
      omega[1] == Add(Add(a, b), Add(x, y)) &&
      omega[2] == Add(Add(Add(Mul(a, x), Mul(b, y)), Mul(Add(x, y), Add(a, b))), Mul(x, y))
    ensures Evaluator(omega, e) == Mul(Mul(a, Add(Exp(e), Exp(f))), Exp(510 - 2 * e))
  {
    hide Exp, Log, Add, Mul, Evaluator;
    var x, y, z := Exp(e), Exp(f), Exp(255 - e);
    var w1, w2, zz := omega[1], omega[2], Mul(z, z);
    EvaluatorIs(omega, e);
    EvaluatorProducts(a, x, b, y);
    var p := Mul(x, x);
    // multiply x^2 + w1*x + w2 by z^2, where z*x = 1
    InversePowers(e);
    MulDistrib(zz, Add(p, Mul(w1, x)), w2);
    MulDistrib(zz, p, Mul(w1, x));
    MulComm(zz, w2);
    MulComm(zz, p);
    MulAssoc(zz, w1, x);
    MulComm(zz, w1);
    MulAssoc(w1, zz, x);
    MulComm(zz, Mul(a, Add(x, y)));
  }

  lemma InversePowers(e: nat)
    requires e < 36
    ensures var x, z := Exp(e), Exp(255 - e);
      Mul(z, z) == Exp(510 - 2 * e) && Mul(Mul(x, x), Mul(z, z)) == 1 && Mul(Mul(z, z), x) == z && Mul(z, x) == 1
  {
    hide *;
    MulExpExp(255 - e, 255 - e);
    MulExpExp(e, e);
    MulExpExp(2 * e, 510 - 2 * e);
    MulExpExp(510 - 2 * e, e);
    MulExpExp(255 - e, e);
    ExpPeriod(255 - e);
    ExpPeriod(255);
    ExpUnit();
  }

  /** 1 + y/x times x is x + y. */
  lemma DivisorValue(e: nat, f: nat)
    requires e < 36 && f < 36 && e != f
    ensures var u := Add(1, Exp(255 + f - e));
      u != 0 && Mul(u, Exp(e)) == Add(Exp(e), Exp(f))
  {
    hide *;
    var x, y, r := Exp(e), Exp(f), Exp(255 + f - e);
    MulDistrib(x, 1, r);
    MulOne(x);
    MulExpExp(255 + f - e, e);
    ExpPeriod(f);
    DistinctPowers(e, f);
    AddEqual(x, y);
    MulNonzero(Add(1, r), x);
  }

  /** With N = omega(1/x) and u = 1 + y/x, the error value is N*x/u. */
  lemma ForneyQuotient(a: Byte, e: nat, f: nat)
    requires e < 36 && f < 36 && e != f
    ensures Mul(Mul(Mul(a, Add(Exp(e), Exp(f))), Exp(510 - 2 * e)), Exp(e)) == Mul(a, Add(1, Exp(255 + f - e)))
  {
    hide *;
    var x, z := Exp(e), Exp(255 - e);
    var s, u := Add(Exp(e), Exp(f)), Add(1, Exp(255 + f - e));
    InversePowers(e);
    DivisorValue(e, f);
    MulAssoc(Mul(a, s), Mul(z, z), x);
    MulAssoc(a, s, z);
    MulAssoc(u, x, z);
    MulComm(x, z);
    MulOne(u);
  }

  /** Dividing through logarithms. */
  lemma QuotientByLogs(n: nat, e: nat, t: nat, a: Byte)
    requires t < 255 && Mul(Exp(n), Exp(e)) == Mul(a, Exp(t))
    ensures Exp(255 + n + e - t) == a
  {
    hide *;
    MulExpExp(n, e);
    MulExpExp(255 + n + e - t, t);
    ExpPeriod(n + e);
    ExpNonzero(t);
    MulComm(Exp(t), a);
    MulComm(Exp(t), Exp(255 + n + e - t));
    MulCancel(Exp(t), a, Exp(255 + n + e - t));
  }

  lemma NeighbourPowers(n: nat)
    ensures Exp(n) != Exp(n + 1)
  {
    hide *;
    MulExpExp(1, n);
    MulExpExp(0, n);
    ExpNonzero(n);
    DistinctPowers(0, 1);
    MulComm(Exp(0), Exp(n));
    MulComm(Exp(1), Exp(n));
    if Exp(n) == Exp(n + 1) {
      MulCancel(Exp(n), Exp(0), Exp(1));
    }
  }

  /** The error value is right exactly when the sum fits. */
  lemma ErrorValueExact(omega: Poly, a: Byte, e: nat, f: nat)
    requires a != 0 && e < LEN && f < LEN && e != f
    requires Evaluator(omega, e) == Mul(Mul(a, Add(Exp(e), Exp(f))), Exp(510 - 2 * e))
    ensures ErrorValue(omega, e, f) == a <==> SumFits(a, e, f)
  {
    hide Exp, Log, Add, Mul, Evaluator;
    var n, u := Evaluator(omega, e), Add(1, Exp(255 + f - e));
    ForneyQuotient(a, e, f);
    DivisorValue(e, f);
    MulNonzero(a, u);
    MulNonzero(n, Exp(e));
    ExpLog(n);
    ExpLog(u);
    QuotientByLogs(Log(n), e, Log(u), a);
    var sum := Log(n) + e;
    if sum >= 256 {
      assert sum % 256 == sum - 256;
      var m := 255 + (sum - 256) - Log(u);
      NeighbourPowers(m);
      ExpPeriod(m + 1);
    }
  }
}

/** The exact condition under which two wrong symbols are corrected. */
module RsTwoErrors {
  import opened RsTables
  import opened Gf256
  import opened Gf256Tables
  import opened Gf256Laws
  import opened RsCode
  import opened RsEval
  import opened RsDecoder
  import opened RsKeyEquation
  import opened RsSingleError
  import opened RsTwoErrorLocator
  import opened RsTwoErrorRounds
  import opened RsTwoErrorValues

  /** The update method of rs.c:211-213 leads to the locator. */
  predicate LocatorReached(a: Byte, e: nat, b: Byte, f: nat) {
    a != b || Mul(a, Add(Exp(e), Exp(f))) == Mul(Exp(e), Exp(f))
  }

  predicate Corrected2(a: Byte, e: nat, b: Byte, f: nat)
    requires e < LEN && f < LEN
  {
    LocatorReached(a, e, b, f) && SumFits(a, e, f) && SumFits(b, f, e)
  }

  lemma TwoEval(c: seq<Byte>, e: nat, a: Byte, f: nat, b: Byte, j: nat)
    requires |c| == LEN && Eval(c, Exp(j)) == 0 && e < LEN && f < LEN
    ensures Eval(Fix(Fix(c, e, a), f, b), Exp(j)) == Add(Mul(a, Exp(j * e)), Mul(b, Exp(j * f)))
  {
    hide Eval, Exp, Add, Mul, Fix;
    EvalFix(c, e, a, j);
    EvalFix(Fix(c, e, a), f, b, j);
    AddLaws(Mul(a, Exp(j * e)), 0, 0);
  }

  lemma TwoSyndromes(c: seq<Byte>, e: nat, a: Byte, f: nat, b: Byte)
    requires IsCode(c) && e < LEN && f < LEN
    ensures Syndromes(Fix(Fix(c, e, a), f, b)) == TwoSyn(a, Exp(e), b, Exp(f))
  {
    hide Eval, Exp, Add, Mul, Fix, IsCode;
    CodeLength(c);
    CodeSyndromes(c);
    ErrorPowers(a, e);
    ErrorPowers(b, f);
    TwoEval(c, e, a, f, b, 0);
    TwoEval(c, e, a, f, b, 1);
    TwoEval(c, e, a, f, b, 2);
    TwoEval(c, e, a, f, b, 3);
  }

  /** Undoing two errors at different places takes exactly their values. */
  lemma FixBoth(c: seq<Byte>, e: nat, a: Byte, f: nat, b: Byte, a': Byte, b': Byte)
    requires |c| == LEN && e < LEN && f < LEN && e != f
    ensures var w := Fix(Fix(c, e, a), f, b);
      Fix(Fix(w, e, a'), f, b') == c <==> a' == a && b' == b
  {
    hide Add;
    var r := Fix(Fix(Fix(Fix(c, e, a), f, b), e, a'), f, b');
    var x, y := c[LEN - 1 - e], c[LEN - 1 - f];
    assert r[LEN - 1 - e] == Add(Add(x, a), a') && r[LEN - 1 - f] == Add(Add(y, b), b');
    Undo(x, a, a');
    Undo(y, b, b');
    if a' == a && b' == b {
      assert r == c;
    }
  }

  lemma Undo(x: Byte, a: Byte, a': Byte)
    ensures Add(Add(x, a), a') == x <==> a == a'
  {
    hide Add;
    AddLaws(x, a, a');
    AddEqual(a, a');
    AddEqual(x, Add(x, Add(a, a')));
    AddLaws(x, x, Add(a, a'));
    AddLaws(Add(a, a'), 0, 0);
  }

  lemma FixSwap(c: seq<Byte>, e: nat, a: Byte, f: nat, b: Byte)
    requires |c| == LEN && e < LEN && f < LEN && e != f
    ensures Fix(Fix(c, e, a), f, b) == Fix(Fix(c, f, b), e, a)
  {
    hide Add;
  }

  /** The word is not a code word: two errors cannot hide. */
  lemma TwoErrorsDetected(c: seq<Byte>, e: nat, a: Byte, f: nat, b: Byte)
    requires IsCode(c) && e < f < LEN && a != 0 && b != 0
    ensures !IsCode(Fix(Fix(c, e, a), f, b))
  {
    hide Eval, Exp, Add, Mul, Fix, Ecc;
    var w := Fix(Fix(c, e, a), f, b);
    if IsCode(w) {
      CodeSyndromes(w);
      TwoSyndromes(c, e, a, f, b);
      ErrorsAt(a, e, b, f);
      DeterminantNonzero(a, Exp(e), b, Exp(f));
      MulNonzero(0, 0);
      AddLaws(0, 0, 0);
    }
  }

  lemma ErrorsAt(a: Byte, e: nat, b: Byte, f: nat)
    requires a != 0 && b != 0 && e < 36 && f < 36 && e != f
    ensures TwoErrors(a, Exp(e), b, Exp(f))
  {
    hide Exp;
    ExpNonzero(e);
    ExpNonzero(f);
    DistinctPowers(e, f);
  }

  /** With the right locator the word is restored exactly when both sums fit. */
  lemma CorrectionExact(c: seq<Byte>, e: nat, a: Byte, f: nat, b: Byte, sigma: Poly, omega: Poly)
    requires |c| == LEN && e < f < LEN && a != 0 && b != 0
    requires var x, y := Exp(e), Exp(f);
      sigma == [1, Add(x, y), Mul(x, y), 0, 0] &&
      omega[0] == 1 &&
      omega[1] == Add(Add(a, b), Add(x, y)) &&
      omega[2] == Add(Add(Add(Mul(a, x), Mul(b, y)), Mul(Add(x, y), Add(a, b))), Mul(x, y))
    ensures var r := CorrectWord(Fix(Fix(c, e, a), f, b), sigma, omega);
      r.code == 2 && (r.word == c <==> SumFits(a, e, f) && SumFits(b, f, e))
  {
    hide Exp, Add, Mul, Log, FirstRoot, OtherRoot, ErrorValue, Fix, Evaluator, SumFits;
    var x, y := Exp(e), Exp(f);
    ExpNonzero(e);
    ExpNonzero(f);
    MulNonzero(x, y);
    RootsFound(e, f);
    EvaluatorValue(omega, a, e, b, f);
    ErrorValueExact(omega, a, e, f);
    AddLaws(a, b, 0);
    AddLaws(x, y, 0);
    AddLaws(Mul(a, x), Mul(b, y), 0);
    MulComm(x, y);
    EvaluatorValue(omega, b, f, a, e);
    ErrorValueExact(omega, b, f, e);
    FixBoth(c, e, a, f, b, ErrorValue(omega, e, f), ErrorValue(omega, f, e));
  }

  lemma LocatorReachedDegrees(a: Byte, e: nat, b: Byte, f: nat)
    requires a != 0 && b != 0 && e < 36 && f < 36 && e != f
    ensures var st := BmRun(TwoSyn(a, Exp(e), b, Exp(f)), 4);
      if LocatorReached(a, e, b, f) then Degree(st.sigma, 2) && Degree(st.omega, 2) else st.sigma[3] != 0
  {
    hide Exp, Add, Mul, BmRun, TwoSyn;
    ErrorsAt(a, e, b, f);
    if a == b {
      EqualValues(a, Exp(e), Exp(f));
    } else {
      DistinctValues(a, Exp(e), b, Exp(f));
    }
  }

  lemma TwoErrorsInOrder(c: seq<Byte>, e: nat, a: Byte, f: nat, b: Byte)
    requires IsCode(c) && e < f < LEN && a != 0 && b != 0
    ensures var r := DecodeWord(Fix(Fix(c, e, a), f, b));
      (r.word == c <==> Corrected2(a, e, b, f)) &&
      r.code == if LocatorReached(a, e, b, f) then 2 else -1
  {
    hide Exp, Add, Mul, Eval, IsCode, Fix, BmRun, FirstRoot, OtherRoot, ErrorValue, SumFits, LocatorReached;
    CodeLength(c);
    var w := Fix(Fix(c, e, a), f, b);
    TwoErrorsDetected(c, e, a, f, b);
    TwoSyndromes(c, e, a, f, b);
    LocatorReachedDegrees(a, e, b, f);
    ErrorsAt(a, e, b, f);
    var st := BmRun(Syndromes(w), 4);
    if LocatorReached(a, e, b, f) {
      FinalLocator(a, Exp(e), b, Exp(f));
      CorrectionExact(c, e, a, f, b, st.sigma, st.omega);
    } else {
      assert w != c;
    }
  }

  /** Two wrong symbols: restored if and only if `Corrected2`; given up if and only if the two
      values are equal and not x*y/(x+y); otherwise a wrong word is reported as corrected. */
  lemma TwoErrorsCorrectedIff(c: seq<Byte>, e: nat, a: Byte, f: nat, b: Byte)
    requires IsCode(c) && e < LEN && f < LEN && e != f && a != 0 && b != 0
    ensures var r := DecodeWord(Fix(Fix(c, e, a), f, b));
      (r.word == c <==> Corrected2(a, e, b, f)) &&
      r.code == if LocatorReached(a, e, b, f) then 2 else -1
  {
    hide Exp, Add, Mul, IsCode, Fix, SumFits;
    CodeLength(c);
    if e < f {
      TwoErrorsInOrder(c, e, a, f, b);
    } else {
      FixSwap(c, e, a, f, b);
      TwoErrorsInOrder(c, f, b, e, a);
      AddLaws(Exp(e), Exp(f), 0);
      MulComm(Exp(e), Exp(f));
    }
  }

  /** The pair of errors 1 at positions 0 and 1 of any code word is given up. */
  lemma EqualPairGivenUp(c: seq<Byte>)
    requires IsCode(c)
    ensures DecodeWord(Fix(Fix(c, 0, 1), 1, 1)).code == -1
  {
    hide IsCode, DecodeWord, Fix, Corrected2, Mul, Eval;
    CodeLength(c);
    TwoErrorsCorrectedIff(c, 0, 1, 1, 1);
    PowersOfTwo();
    MulOne(3);
    MulOne(2);
    assert Add(1, 2) == 3;
  }

  /** The errors 1 at position 12 and 2 at position 2 are reported as corrected, but are not. */
  lemma OverflowMiscorrects(c: seq<Byte>)
    requires IsCode(c)
    ensures var r := DecodeWord(Fix(Fix(c, 12, 1), 2, 2)); r.code == 2 && r.word != c
  {
    hide IsCode, DecodeWord, Fix, Mul, Eval, Exp, Log;
    CodeLength(c);
    TwoErrorsCorrectedIff(c, 12, 1, 2, 2);
    PowerValues();
    MulOne(Exp(23));
    MulExpExp(23, 510 - 24);
    ExpPeriod(254);
    LogExp(254);
  }

  lemma PowerValues()
    ensures Add(Exp(12), Exp(2)) == Exp(23)
  {
    assert Exp(8) == 0x1d;
    assert Exp(12) == 0xcd && Exp(2) == 4;
    assert Exp(16) == 0x4c;
    assert Exp(20) == 0xb4;
    assert Exp(23) == 0xc9;
  }
}
