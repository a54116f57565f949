/**
 The decoder of src/rs.c on one word, as a function: syndromes, Berlekamp-Massey, root search,
 error values.  Modules RsBerlekamp and RsStringDecoder prove that the loops of the source compute it in place.
 */
module RsDecoder {
  import opened RsTables
  import opened Gf256
  import opened Gf256Laws
  import opened RsCode
  import opened RsEval

  /** Five coefficients, lowest first. */
  type Poly = p: seq<Byte> | |p| == 5 witness [0, 0, 0, 0, 0]

  const ZERO: Poly := [0, 0, 0, 0, 0]
  const ONE: Poly := [1, 0, 0, 0, 0]

  /** The first n terms of the x^k coefficient of s*t. */
  function Conv(s: Poly, t: Poly, k: nat, n: nat): Byte
    requires n <= k + 1 <= 5
  {
    if n == 0 then 0 else Add(Conv(s, t, k, n - 1), Mul(s[n - 1], t[k - (n - 1)]))
  }

  /** The x^k coefficient of s*t. */
  function Coef(s: Poly, t: Poly, k: nat): Byte
    requires k < 5
  {
    Conv(s, t, k, k + 1)
  }

  function Shift(p: Poly): Poly {
    [0, p[0], p[1], p[2], p[3]]
  }

  function Scale(c: Byte, p: Poly): Poly {
    [Mul(c, p[0]), Mul(c, p[1]), Mul(c, p[2]), Mul(c, p[3]), Mul(c, p[4])]
  }

  function Plus(p: Poly, q: Poly): Poly {
    [Add(p[0], q[0]), Add(p[1], q[1]), Add(p[2], q[2]), Add(p[3], q[3]), Add(p[4], q[4])]
  }

  datatype Bm = Bm(sigma: Poly, omega: Poly, tau: Poly, gamma: Poly, d: int, b: bool)

  const BM_START := Bm(ONE, ONE, ONE, ZERO, 0, false)

  /** The choice at rs.c:211-213. */
  predicate UsesMethodA(st: Bm, l: nat, delta: Byte) {
    var limit := (l + 1) / 2;
    delta == 0 || st.d > limit || (st.d == limit && l % 2 == 1 && !st.b)
  }

  function BmStep(st: Bm, syn: Poly, l: nat): Bm
    requires 1 <= l <= 4
  {
    var delta := Coef(st.sigma, syn, l);
    var tau, gamma := Shift(st.tau), Shift(st.gamma);
    var sigma := Plus(st.sigma, Scale(delta, tau));
    var omega := Plus(st.omega, Scale(delta, gamma));
    if UsesMethodA(st, l, delta) then
      Bm(sigma, omega, tau, gamma, st.d, st.b)
    else
      Bm(sigma, omega, Scale(Inv(delta), st.sigma), Scale(Inv(delta), st.omega), l - st.d, !st.b)
  }

  /** The state after l rounds. */
  function BmRun(syn: Poly, l: nat): (st: Bm)
    requires l <= 4
    ensures st.sigma[0] == 1 && st.omega[0] == 1
  {
    if l == 0 then BM_START
    else
      var prev := BmRun(syn, l - 1);
      var st := BmStep(prev, syn, l);
      ConstantTermsKept(prev, syn, l);
      st
  }

  lemma ConstantTermsKept(st: Bm, syn: Poly, l: nat)
    requires 1 <= l <= 4
    ensures BmStep(st, syn, l).sigma[0] == st.sigma[0] && BmStep(st, syn, l).omega[0] == st.omega[0]
  {
    hide Add, Mul, Coef, Inv;
    var delta := Coef(st.sigma, syn, l);
    MulNonzero(delta, 0);
    AddLaws(st.sigma[0], 0, 0);
    AddLaws(st.omega[0], 0, 0);
  }

  /** 1 + s1*x + s2*x^2 at 2^-e, as rs.c:279-282 computes it. */
  function Locator(sigma: Poly, e: nat): Byte
    requires e <= 255
  {
    Add(Add(sigma[0], if sigma[1] == 0 then 0 else Exp(255 - e + Log(sigma[1]))),
        Exp(2 * (255 - e) + Log(sigma[2])))
  }

  /** The first root at or after e; 256 when there is none. */
  function FirstRoot(sigma: Poly, e: nat): (r: nat)
    requires e <= 256
    ensures e <= r <= 256
    ensures r < 256 ==> Locator(sigma, r) == 0
    ensures forall k :: e <= k < r ==> Locator(sigma, k) != 0
    decreases 256 - e
  {
    if e == 256 || Locator(sigma, e) == 0 then e else FirstRoot(sigma, e + 1)
  }

  /** omega at 2^-e. */
  function Evaluator(omega: Poly, e: nat): Byte
    requires e <= 255
  {
    Add(Add(omega[0], if omega[1] == 0 then 0 else Exp(Log(omega[1]) + 255 - e)),
        if omega[2] == 0 then 0 else Exp(Log(omega[2]) + 2 * (255 - e)))
  }

  /** The error value at position e, the other error being at f.  The sum of a logarithm and a
      position is stored in a uint8_t (rs.c:305, rs.c:314), hence the reduction modulo 256. */
  function ErrorValue(omega: Poly, e: nat, f: nat): Byte
    requires e <= 35 && f <= 35
  {
    var sum := (Log(Evaluator(omega, e)) + e) % 256;
    Exp(255 + sum - Log(Add(1, Exp(255 + f - e))))
  }

  /** Entry 35-e of the word, changed by v. */
  function Fix(w: seq<Byte>, e: nat, v: Byte): (r: seq<Byte>)
    requires |w| == LEN && e < LEN
    ensures |r| == LEN
  {
    w[LEN - 1 - e := Add(w[LEN - 1 - e], v)]
  }

  function Syndromes(w: seq<Byte>): Poly {
    [1, Eval(w, Exp(0)), Eval(w, Exp(1)), Eval(w, Exp(2)), Eval(w, Exp(3))]
  }

  datatype Decoded = Decoded(word: seq<Byte>, code: int)

  /** The second position, rs.c:294-298. */
  function OtherRoot(sigma: Poly, e: nat): int {
    var f := Log(sigma[2]) - e - Log(sigma[0]);
    if f < 0 then f + 255 else f
  }

  function CorrectWord(w: seq<Byte>, sigma: Poly, omega: Poly): (r: Decoded)
    requires |w| == LEN && sigma[0] == 1
    ensures |r.word| == LEN && -1 <= r.code <= 2
    ensures r.code == -1 ==> r.word == w
  {
    if sigma[3] != 0 || sigma[4] != 0 then
      Decoded(w, -1)
    else if sigma[2] != 0 then
      var e := FirstRoot(sigma, 0);
      var f := OtherRoot(sigma, e);
      if e > 35 || f > 35 then
        Decoded(w, -1)
      else
        LogOne();
        Decoded(Fix(Fix(w, e, ErrorValue(omega, e, f)), f, ErrorValue(omega, f, e)), 2)
    else if sigma[1] != 0 then
      LogOne();
      var e := Log(sigma[1]) - Log(sigma[0]);
      if e > 35 then Decoded(w, -1) else Decoded(Fix(w, e, Add(sigma[1], omega[1])), 1)
    else
      Decoded(w, -1)
  }

  lemma LogOne()
    ensures Log(1) == 0
  {
  }

  function DecodeWord(w: seq<Byte>): (r: Decoded)
    requires |w| == LEN
    ensures |r.word| == LEN && -1 <= r.code <= 2
    ensures r.code == -1 ==> r.word == w
  {
    if IsCode(w) then Decoded(w, 0)
    else
      var st := BmRun(Syndromes(w), 4);
      CorrectWord(w, st.sigma, st.omega)
  }
}

/** What every run of the Berlekamp-Massey loop establishes, whatever the syndromes. */
module RsKeyEquation {
  import opened RsTables
  import opened Gf256
  import opened Gf256Laws
  import opened RsEval
  import opened RsDecoder

  lemma {:induction false} ConvPlus(p: Poly, q: Poly, t: Poly, k: nat, n: nat)
    requires n <= k + 1 <= 5
    ensures Conv(Plus(p, q), t, k, n) == Add(Conv(p, t, k, n), Conv(q, t, k, n))
  {
    hide Add, Mul;
    if n == 0 {
      AddLaws(0, 0, 0);
    } else {
      ConvPlus(p, q, t, k, n - 1);
      var i := n - 1;
      assert Plus(p, q)[i] == Add(p[i], q[i]);
      MulDistrib(t[k - i], p[i], q[i]);
      Swap4(Conv(p, t, k, i), Conv(q, t, k, i), Mul(p[i], t[k - i]), Mul(q[i], t[k - i]));
    }
  }

  lemma {:induction false} ConvScale(c: Byte, p: Poly, t: Poly, k: nat, n: nat)
    requires n <= k + 1 <= 5
    ensures Conv(Scale(c, p), t, k, n) == Mul(c, Conv(p, t, k, n))
  {
    hide Add, Mul;
    if n == 0 {
      MulNonzero(c, 0);
    } else {
      ConvScale(c, p, t, k, n - 1);
      var i := n - 1;
      assert Scale(c, p)[i] == Mul(c, p[i]);
      MulAssoc(c, p[i], t[k - i]);
      MulDistrib(c, Conv(p, t, k, i), Mul(p[i], t[k - i]));
    }
  }

  lemma {:induction false} ConvShift(p: Poly, t: Poly, k: nat, n: nat)
    requires n <= k + 1 <= 4
    ensures Conv(Shift(p), t, k + 1, n + 1) == Conv(p, t, k, n)
  {
    hide Add, Mul;
    if n == 0 {
      MulNonzero(0, t[k + 1]);
      AddLaws(0, 0, 0);
      assert Conv(Shift(p), t, k + 1, 0) == 0;
    } else {
      ConvShift(p, t, k, n - 1);
      assert Shift(p)[n] == p[n - 1];
    }
  }

  /** The x^k coefficient of (p + c*x*q)*t. */
  lemma CoefStep(p: Poly, c: Byte, q: Poly, t: Poly, k: nat)
    requires k < 5
    ensures Coef(Plus(p, Scale(c, Shift(q))), t, k)
         == Add(Coef(p, t, k), Mul(c, if k == 0 then 0 else Coef(q, t, k - 1)))
  {
    hide Add, Mul, Plus, Scale;
    ConvPlus(p, Scale(c, Shift(q)), t, k, k + 1);
    ConvScale(c, Shift(q), t, k, k + 1);
    CoefShift(q, t, k);
  }

  lemma CoefShift(q: Poly, t: Poly, k: nat)
    requires k < 5
    ensures Coef(Shift(q), t, k) == if k == 0 then 0 else Coef(q, t, k - 1)
  {
    hide Add, Mul;
    if k == 0 {
      assert Conv(Shift(q), t, 0, 0) == 0;
      MulNonzero(0, t[0]);
      AddLaws(0, 0, 0);
    } else {
      ConvShift(q, t, k - 1, k);
    }
  }

  /** syn*sigma = omega and syn*tau = gamma + x^l, modulo x^(l+1). */
  predicate KeyEquation(st: Bm, syn: Poly, l: nat) {
    l <= 4 && forall k :: 0 <= k <= l ==>
      Coef(st.sigma, syn, k) == st.omega[k] &&
      Coef(st.tau, syn, k) == Add(st.gamma[k], if k == l then 1 else 0)
  }

  predicate Degree(p: Poly, n: int) {
    forall k :: 0 <= k < 5 && k > n ==> p[k] == 0
  }

  predicate Degrees(st: Bm, n: int) {
    Degree(st.sigma, n) && Degree(st.omega, n) && Degree(st.tau, n) && Degree(st.gamma, n)
  }

  lemma ScaleDegree(c: Byte, p: Poly, n: int)
    requires Degree(p, n)
    ensures Degree(Scale(c, p), n)
  {
    hide Mul;
    MulNonzero(c, 0);
  }

  /** p + c*x*q has the degree of p, or one more than q. */
  lemma StepDegree(p: Poly, c: Byte, q: Poly, n: int)
    requires Degree(p, n + 1) && Degree(q, n)
    ensures Degree(Plus(p, Scale(c, Shift(q))), n + 1)
    ensures c == 0 ==> Plus(p, Scale(c, Shift(q))) == p
  {
    hide Mul, Add;
    MulNonzero(c, 0);
    AddLaws(0, 0, 0);
    if c == 0 {
      forall k | 0 <= k < 5 ensures Plus(p, Scale(c, Shift(q)))[k] == p[k] {
        MulNonzero(c, Shift(q)[k]);
        AddLaws(p[k], 0, 0);
      }
    }
  }

  lemma StepDegrees(st: Bm, syn: Poly, l: nat)
    requires 1 <= l <= 4 && Degrees(st, l - 1)
    ensures Degrees(BmStep(st, syn, l), l)
  {
    hide Mul, Add, Coef, Inv, Plus, Scale;
    var delta := Coef(st.sigma, syn, l);
    StepDegree(st.sigma, delta, st.tau, l - 1);
    StepDegree(st.omega, delta, st.gamma, l - 1);
    ScaleDegree(Inv(delta), st.sigma, l);
    ScaleDegree(Inv(delta), st.omega, l);
  }

  lemma StepAt(p: Poly, c: Byte, q: Poly, k: nat)
    requires k < 5
    ensures Plus(p, Scale(c, Shift(q)))[k] == Add(p[k], Mul(c, if k == 0 then 0 else q[k - 1]))
  {
    hide Mul, Add;
  }

  /** Both methods change sigma and omega in the same way. */
  lemma StepUpdates(st: Bm, syn: Poly, l: nat)
    requires 1 <= l <= 4
    ensures BmStep(st, syn, l).sigma == Plus(st.sigma, Scale(Coef(st.sigma, syn, l), Shift(st.tau)))
    ensures BmStep(st, syn, l).omega == Plus(st.omega, Scale(Coef(st.sigma, syn, l), Shift(st.gamma)))
  {
    hide Mul, Add, Coef, Inv, Plus, Scale, Shift;
  }

  lemma KeyStepAt(st: Bm, syn: Poly, l: nat, k: nat)
    requires 1 <= l <= 4 && k <= l && KeyEquation(st, syn, l - 1) && Degrees(st, l - 1)
    ensures Coef(BmStep(st, syn, l).sigma, syn, k) == BmStep(st, syn, l).omega[k]
  {
    hide Mul, Add, Coef, Inv, Plus, Scale, Shift, BmStep;
    var delta := Coef(st.sigma, syn, l);
    StepUpdates(st, syn, l);
    CoefStep(st.sigma, delta, st.tau, syn, k);
    StepAt(st.omega, delta, st.gamma, k);
    if k < l {
      assert Coef(st.sigma, syn, k) == st.omega[k];
      if k > 0 {
        assert Coef(st.tau, syn, k - 1) == Add(st.gamma[k - 1], 0);
        AddLaws(st.gamma[k - 1], 0, 0);
      }
    } else {
      var g := st.gamma[l - 1];
      assert Coef(st.tau, syn, l - 1) == Add(g, 1);
      MulDistrib(delta, g, 1);
      MulOne(delta);
      AddLaws(Mul(delta, g), delta, 0);
      AddLaws(delta, delta, Mul(delta, g));
      AddLaws(Mul(delta, g), 0, 0);
    }
  }

  lemma KeyStepTau(st: Bm, syn: Poly, l: nat, k: nat)
    requires 1 <= l <= 4 && k <= l && KeyEquation(st, syn, l - 1) && Degrees(st, l - 1)
    ensures Coef(BmStep(st, syn, l).tau, syn, k) == Add(BmStep(st, syn, l).gamma[k], if k == l then 1 else 0)
  {
    hide Mul, Add, Coef, Inv, Plus, Scale;
    var delta := Coef(st.sigma, syn, l);
    if UsesMethodA(st, l, delta) {
      CoefShift(st.tau, syn, k);
      if k == 0 {
        AddLaws(0, 0, 0);
      } else {
        assert Coef(st.tau, syn, k - 1) == Add(st.gamma[k - 1], if k == l then 1 else 0);
      }
    } else {
      hide Shift;
      CoefScale(Inv(delta), st.sigma, syn, k);
      ScaleAt(Inv(delta), st.omega, k);
      if k < l {
        assert Coef(st.sigma, syn, k) == st.omega[k];
        AddLaws(Mul(Inv(delta), st.omega[k]), 0, 0);
      } else {
        MulInv(delta);
        MulNonzero(Inv(delta), 0);
        AddLaws(1, 0, 0);
      }
    }
  }

  lemma ScaleAt(c: Byte, p: Poly, k: nat)
    requires k < 5
    ensures Scale(c, p)[k] == Mul(c, p[k])
  {
    hide Mul;
  }

  lemma CoefScale(c: Byte, p: Poly, t: Poly, k: nat)
    requires k < 5
    ensures Coef(Scale(c, p), t, k) == Mul(c, Coef(p, t, k))
  {
    hide Mul, Conv, Scale;
    ConvScale(c, p, t, k, k + 1);
  }

  lemma {:induction false} BmKeyEquation(syn: Poly, l: nat)
    requires syn[0] == 1 && l <= 4
    ensures KeyEquation(BmRun(syn, l), syn, l) && Degrees(BmRun(syn, l), l)
  {
    hide BmStep, Mul, Add;
    if l == 0 {
      MulOne(1);
      AddLaws(1, 0, 0);
      assert Conv(ONE, syn, 0, 0) == 0;
    } else {
      var st := BmRun(syn, l - 1);
      BmKeyEquation(syn, l - 1);
      StepDegrees(st, syn, l);
      forall k | 0 <= k <= l
        ensures Coef(BmRun(syn, l).sigma, syn, k) == BmRun(syn, l).omega[k]
        ensures Coef(BmRun(syn, l).tau, syn, k) == Add(BmRun(syn, l).gamma[k], if k == l then 1 else 0)
      {
        KeyStepAt(st, syn, l, k);
        KeyStepTau(st, syn, l, k);
      }
    }
  }
}
