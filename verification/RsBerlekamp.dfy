/** The Berlekamp-Massey loop of src/rs.c:183-264 on its four five-byte arrays. */
module RsBerlekamp {
  import opened RsTables
  import opened Gf256
  import opened Gf256Tables
  import opened Gf256Laws
  import opened RsDecoder
  import opened RsKeyEquation
  import opened RsSingleError
  import opened RsStrings

  predicate Distinct(a: array<Byte>, b: array<Byte>, c: array<Byte>, d: array<Byte>) {
    a.Length == 5 && b.Length == 5 && c.Length == 5 && d.Length == 5 &&
    a != b && a != c && a != d && b != c && b != d && c != d
  }

  /** t_exp[t_log[a] + t_log[b]], guarded against zero factors as in the source. */
  lemma TableProduct(a: Byte, b: Byte)
    requires a != 0 && b != 0
    ensures Log(a) + Log(b) < 768 && Exp(Log(a) + Log(b)) == Mul(a, b)
  {
    hide Exp, Log;
    ExpLog(a);
    ExpLog(b);
  }

  /** t_exp[t_log[a] + (t_log[b] ^ 255)]: complementing the logarithm inverts. */
  lemma TableQuotient(a: Byte, b: Byte)
    requires a != 0 && b != 0
    ensures Log(a) + (255 - Log(b)) < 768 && Log(b) <= 255 && Exp(Log(a) + (255 - Log(b))) == Mul(Inv(b), a)
  {
    hide Exp, Log, Mul;
    ExpLog(a);
    ExpLog(b);
    MulExpExp(Log(a), 255 - Log(b));
    MulInv(b);
    MulComm(a, Inv(b));
  }

  lemma MulZero(a: Byte, b: Byte)
    ensures Mul(a, 0) == 0 && Mul(0, a) == 0 && Add(b, 0) == b
  {
    hide *;
    MulNonzero(a, 0);
    MulNonzero(0, a);
    AddLaws(b, 0, 0);
  }

  method Discrepancy(sigma: array<Byte>, syn: Poly, l: nat) returns (delta: Byte)
    requires sigma.Length == 5 && 1 <= l <= 4
    ensures delta == Coef(sigma[..], syn, l)
  {
    hide Add, Mul, Exp, Log;
    delta := 0;
    for i := 0 to l + 1
      invariant delta == Conv(sigma[..], syn, l, i)
    {
      MulZero(sigma[i], delta);
      MulZero(syn[l - i], delta);
      if sigma[i] != 0 && syn[l - i] != 0 {
        TableProduct(sigma[i], syn[l - i]);
        delta := Add(delta, TExp(Log(sigma[i]) + Log(syn[l - i])));
      }
    }
  }

  /** tau[l-i] = tau[l-i-1] for i from 0, then tau[0] = 0. */
  method MultiplyByX(tau: array<Byte>, l: nat)
    requires tau.Length == 5 && 1 <= l <= 4 && Degree(tau[..], l - 1)
    modifies tau
    ensures tau[..] == Shift(old(tau[..]))
  {
    for i := 0 to l
      invariant forall k :: 0 <= k < 5 ==> tau[k] == if l - i < k <= l then old(tau[k - 1]) else old(tau[k])
    {
      tau[l - i] := tau[l - i - 1];
    }
    tau[0] := 0;
    forall k | l < k < 5 ensures tau[k] == Shift(old(tau[..]))[k] {
      assert old(tau[..])[k] == 0 && old(tau[..])[k - 1] == 0;
    }
    assert |tau[..]| == 5;
  }

  /** sigma[i] ^= delta * tau[i] for i in 1..l. */
  method AddMultiple(sigma: array<Byte>, tau: array<Byte>, delta: Byte, l: nat)
    requires sigma.Length == 5 && tau.Length == 5 && sigma != tau && 1 <= l <= 4 && delta != 0
    requires tau[0] == 0 && Degree(tau[..], l)
    modifies sigma
    ensures sigma[..] == Plus(old(sigma[..]), Scale(delta, tau[..]))
  {
    hide Add, Mul, Exp, Log;
    var ldelta := Log(delta);
    for i := 1 to l + 1
      invariant forall k :: 0 <= k < 5 ==>
        sigma[k] == if 1 <= k < i then Add(old(sigma[k]), Mul(delta, tau[k])) else old(sigma[k])
    {
      MulZero(delta, sigma[i]);
      if tau[i] != 0 {
        TableProduct(tau[i], delta);
        MulComm(tau[i], delta);
        sigma[i] := Add(sigma[i], TExp(Log(tau[i]) + ldelta));
      }
    }
    forall k | 0 <= k < 5 ensures sigma[k] == Plus(old(sigma[..]), Scale(delta, tau[..]))[k] {
      MulZero(delta, old(sigma[k]));
      assert tau[..][k] == tau[k];
    }
    assert |sigma[..]| == 5;
  }

  /** One turn of rs.c:246-262 on one pair: sigma[i] += delta*tau[i-1], tau[i-1] = sigma[i-1]/delta. */
  method Exchange(sigma: array<Byte>, tau: array<Byte>, delta: Byte, l: nat)
    requires sigma.Length == 5 && tau.Length == 5 && sigma != tau && 1 <= l <= 4 && delta != 0
    requires Degree(sigma[..], l - 1) && Degree(tau[..], l - 1)
    modifies sigma, tau
    ensures sigma[..] == Plus(old(sigma[..]), Scale(delta, Shift(old(tau[..]))))
    ensures tau[..] == Scale(Inv(delta), old(sigma[..]))
  {
    hide Add, Mul, Exp, Log, Inv;
    var ldelta := Log(delta);
    LogBoundOf(delta);
    var ildelta := 255 - ldelta;
    var i := l;
    while i > 0
      invariant 0 <= i <= l
      invariant forall k :: 0 <= k < 5 ==>
        sigma[k] == if i < k <= l then Add(old(sigma[k]), Mul(delta, old(tau[k - 1]))) else old(sigma[k])
      invariant forall k :: 0 <= k < 5 ==>
        tau[k] == if i <= k < l then Mul(Inv(delta), old(sigma[k])) else old(tau[k])
    {
      MulZero(delta, sigma[i]);
      MulZero(Inv(delta), 0);
      if tau[i - 1] != 0 {
        TableProduct(tau[i - 1], delta);
        MulComm(tau[i - 1], delta);
        sigma[i] := Add(sigma[i], TExp(Log(tau[i - 1]) + ldelta));
      }
      if sigma[i - 1] != 0 {
        TableQuotient(sigma[i - 1], delta);
        tau[i - 1] := TExp(Log(sigma[i - 1]) + ildelta);
      } else {
        tau[i - 1] := 0;
      }
      i := i - 1;
    }
    ExchangeDone(old(sigma[..]), old(tau[..]), sigma[..], tau[..], delta, l);
  }

  lemma LogBoundOf(a: Byte)
    ensures Log(a) < 255
  {
  }

  lemma ExchangeDone(s: Poly, t: Poly, s': Poly, t': Poly, delta: Byte, l: nat)
    requires 1 <= l <= 4 && Degree(s, l - 1) && Degree(t, l - 1)
    requires forall k :: 0 <= k < 5 ==> s'[k] == if 0 < k <= l then Add(s[k], Mul(delta, t[k - 1])) else s[k]
    requires forall k :: 0 <= k < 5 ==> t'[k] == if 0 <= k < l then Mul(Inv(delta), s[k]) else t[k]
    ensures s' == Plus(s, Scale(delta, Shift(t))) && t' == Scale(Inv(delta), s)
  {
    hide Add, Mul, Inv;
    forall k | 0 <= k < 5
      ensures s'[k] == Plus(s, Scale(delta, Shift(t)))[k] && t'[k] == Scale(Inv(delta), s)[k]
    {
      MulZero(delta, s[k]);
      MulZero(Inv(delta), 0);
    }
  }

  /** rs.c:220-234 */
  method RoundA(sigma: array<Byte>, omega: array<Byte>, tau: array<Byte>, gamma: array<Byte>, delta: Byte, l: nat)
    requires Distinct(sigma, omega, tau, gamma) && 1 <= l <= 4
    requires Degree(tau[..], l - 1) && Degree(gamma[..], l - 1)
    modifies sigma, omega, tau, gamma
    ensures sigma[..] == Plus(old(sigma[..]), Scale(delta, Shift(old(tau[..]))))
    ensures omega[..] == Plus(old(omega[..]), Scale(delta, Shift(old(gamma[..]))))
    ensures tau[..] == Shift(old(tau[..])) && gamma[..] == Shift(old(gamma[..]))
  {
    hide Plus, Scale, Shift, Degree;
    ShiftDegree(tau[..], l);
    ShiftDegree(gamma[..], l);
    IdlePlus(sigma[..], Shift(tau[..]));
    IdlePlus(omega[..], Shift(gamma[..]));
    MultiplyByX(tau, l);
    MultiplyByX(gamma, l);
    if delta != 0 {
      AddMultiple(sigma, tau, delta, l);
      AddMultiple(omega, gamma, delta, l);
    }
  }

  /** rs.c:244-262 */
  method RoundB(sigma: array<Byte>, omega: array<Byte>, tau: array<Byte>, gamma: array<Byte>, delta: Byte, l: nat)
    requires Distinct(sigma, omega, tau, gamma) && 1 <= l <= 4 && delta != 0
    requires Degree(sigma[..], l - 1) && Degree(omega[..], l - 1) && Degree(tau[..], l - 1) && Degree(gamma[..], l - 1)
    modifies sigma, omega, tau, gamma
    ensures sigma[..] == Plus(old(sigma[..]), Scale(delta, Shift(old(tau[..]))))
    ensures omega[..] == Plus(old(omega[..]), Scale(delta, Shift(old(gamma[..]))))
    ensures tau[..] == Scale(Inv(delta), old(sigma[..])) && gamma[..] == Scale(Inv(delta), old(omega[..]))
  {
    hide Plus, Scale, Shift, Degree, Inv;
    Exchange(sigma, tau, delta, l);
    Exchange(omega, gamma, delta, l);
  }

  method BerlekampMassey(syn: Poly) returns (sigma: array<Byte>, omega: array<Byte>)
    requires syn[0] == 1
    ensures fresh(sigma) && fresh(omega) && sigma.Length == 5 && omega.Length == 5
    ensures sigma[..] == BmRun(syn, 4).sigma && omega[..] == BmRun(syn, 4).omega
  {
    hide BmRun, BmStep, Coef, Degree, KeyEquation, Plus, Scale, Shift, UsesMethodA, Inv;
    sigma := new Byte[5][1, 0, 0, 0, 0];
    omega := new Byte[5][1, 0, 0, 0, 0];
    var tau := new Byte[5][1, 0, 0, 0, 0];
    var gamma := new Byte[5][0, 0, 0, 0, 0];
    var d, b := 0, false;
    ghost var st := BM_START;
    RunStart(syn);
    for l := 1 to 5
      invariant fresh(sigma) && fresh(omega) && fresh(tau) && fresh(gamma)
      invariant Distinct(sigma, omega, tau, gamma)
      invariant st == BmRun(syn, l - 1)
      invariant st == Bm(sigma[..], omega[..], tau[..], gamma[..], d, b)
    {
      RoundDegrees(syn, l - 1);
      BmUnroll(syn, l);
      StepCases(st, syn, l);
      var delta := Discrepancy(sigma, syn, l);
      MethodChoice(st, l, delta);
      var limit, exact := (l + 1) / 2, l % 2 == 1;
      if delta == 0 || d > limit || (d == limit && exact && !b) {
        RoundA(sigma, omega, tau, gamma, delta, l);
      } else {
        d := l - d;
        b := !b;
        RoundB(sigma, omega, tau, gamma, delta, l);
      }
      st := BmRun(syn, l);
    }
  }

  lemma RunStart(syn: Poly)
    ensures BmRun(syn, 0) == BM_START
  {
  }

  lemma RoundDegrees(syn: Poly, l: nat)
    requires syn[0] == 1 && l <= 4
    ensures var st := BmRun(syn, l);
      Degree(st.sigma, l) && Degree(st.omega, l) && Degree(st.tau, l) && Degree(st.gamma, l)
  {
    hide Degree, BmRun, KeyEquation;
    BmKeyEquation(syn, l);
  }

  lemma BmUnroll(syn: Poly, l: nat)
    requires 1 <= l <= 4
    ensures BmRun(syn, l) == BmStep(BmRun(syn, l - 1), syn, l)
  {
    hide BmStep;
  }

  lemma MethodChoice(st: Bm, l: nat, delta: Byte)
    ensures UsesMethodA(st, l, delta) <==>
      delta == 0 || st.d > (l + 1) / 2 || (st.d == (l + 1) / 2 && l % 2 == 1 && !st.b)
  {
  }

  lemma ShiftDegree(p: Poly, l: nat)
    requires 1 <= l <= 4 && Degree(p, l - 1)
    ensures Degree(Shift(p), l) && Shift(p)[0] == 0
  {
  }

  lemma StepCases(st: Bm, syn: Poly, l: nat)
    requires 1 <= l <= 4
    ensures var delta := Coef(st.sigma, syn, l);
      BmStep(st, syn, l) ==
        var sigma, omega := Plus(st.sigma, Scale(delta, Shift(st.tau))), Plus(st.omega, Scale(delta, Shift(st.gamma)));
        if UsesMethodA(st, l, delta) then Bm(sigma, omega, Shift(st.tau), Shift(st.gamma), st.d, st.b)
        else Bm(sigma, omega, Scale(Inv(delta), st.sigma), Scale(Inv(delta), st.omega), l - st.d, !st.b)
  {
    hide Coef, Plus, Scale, Shift, Inv, UsesMethodA;
  }
}
