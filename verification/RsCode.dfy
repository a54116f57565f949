/**
 The RS(36,32) code of src/rs.c: the remainder loop `ecc_block`, the code words it defines, and
 the syndromes.  Entry 35-i of a word is the coefficient of x^i.
 */
module RsCode {
  import opened RsTables
  import opened Gf256
  import opened Gf256Laws

  const DATA := 32
  const LEN := 36

  /** The word a string of the sector holds: entries off, off+step, off+2*step, ... */
  function At(off: nat, step: nat, k: nat): nat {
    off + step * k
  }

  predicate InRange(n: nat, off: nat, step: nat) {
    step > 0 && At(off, step, LEN - 1) < n
  }

  lemma AtMonotone(off: nat, step: nat, k: nat, m: nat)
    requires step > 0 && k < m
    ensures At(off, step, k) < At(off, step, m)
  {
    assert step * m == step * k + step * (m - k);
    assert step * (m - k) > 0;
  }

  lemma AtInRange(n: nat, off: nat, step: nat, k: nat)
    requires InRange(n, off, step) && k < LEN
    ensures At(off, step, k) < n
  {
    if k < LEN - 1 {
      AtMonotone(off, step, k, LEN - 1);
    }
  }

  function Word(s: seq<Byte>, off: nat, step: nat): (w: seq<Byte>)
    requires InRange(|s|, off, step)
    ensures |w| == LEN
  {
    seq(LEN, k requires 0 <= k < LEN => AtInRange(|s|, off, step, k); s[At(off, step, k)])
  }

  // ---------------------------------------------------------- remainders

  /** A polynomial of degree below 4: what the 32-bit register r of ecc_block holds. */
  datatype Rem4 = Rem4(r3: Byte, r2: Byte, r1: Byte, r0: Byte)

  /** Bring down one more coefficient and reduce by x^4 = 0f x^3 + 36 x^2 + 78 x + 40. */
  function RemStep(r: Rem4, next: Byte): Rem4 {
    Rem4(Add(r.r2, Mul(r.r3, 0x0f)), Add(r.r1, Mul(r.r3, 0x36)),
         Add(r.r0, Mul(r.r3, 0x78)), Add(next, Mul(r.r3, 0x40)))
  }

  /** The message polynomial modulo the generator. */
  function Rem(msg: seq<Byte>): Rem4 {
    if msg == [] then Rem4(0, 0, 0, 0) else RemStep(Rem(msg[..|msg| - 1]), msg[|msg| - 1])
  }

  function Pack(r: Rem4): bv32 {
    Bytes4(r.r3, r.r2, r.r1, r.r0)
  }

  /** What t_rem[i] holds. */
  function TRem(i: Byte): bv32 {
    Pack(RemStep(Rem4(i, 0, 0, 0), 0))
  }

  lemma PackTop(r: Rem4)
    ensures (Pack(r) >> 24) as bv8 == r.r3
    ensures ((Pack(r) >> 16) & 0xff) as bv8 == r.r2
    ensures ((Pack(r) >> 8) & 0xff) as bv8 == r.r1
    ensures (Pack(r) & 0xff) as bv8 == r.r0
  {
  }

  lemma PackStep(a: Rem4, t: Rem4, s: Byte)
    ensures (Pack(t) ^ (Pack(a) << 8)) ^ (s as bv32)
         == Pack(Rem4(Add(a.r2, t.r3), Add(a.r1, t.r2), Add(a.r0, t.r1), Add(s, t.r0)))
  {
  }

  /** One turn of the loop at rs.c:135-141 on the packed register. */
  lemma RegisterStep(r: Rem4, next: Byte)
    ensures (TRem((Pack(r) >> 24) as bv8) ^ (Pack(r) << 8)) ^ (next as bv32) == Pack(RemStep(r, next))
  {
    hide Add, Mul, Pack;
    PackTop(r);
    var t := RemStep(Rem4(r.r3, 0, 0, 0), 0);
    PackStep(r, t, next);
    AddLaws(Mul(r.r3, 0x0f), 0, 0);
    AddLaws(Mul(r.r3, 0x36), 0, 0);
    AddLaws(Mul(r.r3, 0x78), 0, 0);
    AddLaws(Mul(r.r3, 0x40), 0, 0);
  }

  lemma PowersOfTwo()
    ensures Exp(0) == 1 && Exp(1) == 2 && Exp(2) == 4 && Exp(3) == 8
    ensures Exp(4) == 0x10 && Exp(5) == 0x20 && Exp(6) == 0x40
  {
  }

  lemma MulPower(i: Byte, k: nat)
    ensures Mul(i, Exp(k)) == XtimeN(k, i)
  {
    hide *;
    MulExp(k, i);
    MulComm(i, Exp(k));
  }

  lemma MulSum4(i: Byte, a: Byte, b: Byte, c: Byte, d: Byte)
    ensures Mul(i, Add(Add(a, b), Add(c, d))) == Add(Add(Mul(i, a), Mul(i, b)), Add(Mul(i, c), Mul(i, d)))
  {
    hide *;
    MulDistrib(i, Add(a, b), Add(c, d));
    MulDistrib(i, a, b);
    MulDistrib(i, c, d);
  }

  /** Multiplying by the generator's coefficients, in shifts. */
  lemma MulGenerator(i: Byte)
    ensures Mul(i, 0x0f) == Add(Add(XtimeN(0, i), XtimeN(1, i)), Add(XtimeN(2, i), XtimeN(3, i)))
    ensures Mul(i, 0x36) == Add(Add(XtimeN(1, i), XtimeN(2, i)), Add(XtimeN(4, i), XtimeN(5, i)))
    ensures Mul(i, 0x78) == Add(Add(XtimeN(3, i), XtimeN(4, i)), Add(XtimeN(5, i), XtimeN(6, i)))
    ensures Mul(i, 0x40) == XtimeN(6, i)
  {
    PowersOfTwo();
    assert 0x0f == Add(Add(1, 2), Add(4, 8)) && 0x36 == Add(Add(2, 4), Add(0x10, 0x20));
    assert 0x78 == Add(Add(8, 0x10), Add(0x20, 0x40));
    hide *;
    MulPower(i, 0); MulPower(i, 1); MulPower(i, 2); MulPower(i, 3);
    MulPower(i, 4); MulPower(i, 5); MulPower(i, 6);
    MulSum4(i, 1, 2, 4, 8);
    MulSum4(i, 2, 4, 0x10, 0x20);
    MulSum4(i, 8, 0x10, 0x20, 0x40);
  }

  lemma XtimeChain(i: Byte, x1: Byte, x2: Byte, x3: Byte, x4: Byte, x5: Byte, x6: Byte)
    requires x1 == Xtime(i) && x2 == Xtime(x1) && x3 == Xtime(x2)
    requires x4 == Xtime(x3) && x5 == Xtime(x4) && x6 == Xtime(x5)
    ensures XtimeN(0, i) == i && XtimeN(1, i) == x1 && XtimeN(2, i) == x2 && XtimeN(3, i) == x3
    ensures XtimeN(4, i) == x4 && XtimeN(5, i) == x5 && XtimeN(6, i) == x6
  {
    hide Xtime;
  }

  /** All 256 entries of t_rem are remainders of i*x^4. */
  lemma RemTableCorrect(i: Byte)
    ensures RemTable(i) == TRem(i)
  {
    hide Add, Mul, Bytes4, Xtime, RemTable, XtimeN;
    RemTableIsShifts(i);
    var x1 := Xtime(i);
    var x2 := Xtime(x1);
    var x3 := Xtime(x2);
    var x4 := Xtime(x3);
    var x5 := Xtime(x4);
    XtimeChain(i, x1, x2, x3, x4, x5, Xtime(x5));
    MulGenerator(i);
    AddLaws(Mul(i, 0x0f), 0, 0);
    AddLaws(Mul(i, 0x36), 0, 0);
    AddLaws(Mul(i, 0x78), 0, 0);
    AddLaws(Mul(i, 0x40), 0, 0);
  }
}

/** Remainders keep the values at the four roots of the generator; code words are the zeros. */
module RsEval {
  import opened RsTables
  import opened Gf256
  import opened Gf256Laws
  import opened RsCode

  /** One Horner step. */
  function Horner(z: Byte, x: Byte, y: Byte): Byte {
    Add(Mul(z, x), y)
  }

  /** The value of a polynomial, highest coefficient first. */
  function Eval(w: seq<Byte>, z: Byte): Byte {
    if w == [] then 0 else Horner(z, Eval(w[..|w| - 1], z), w[|w| - 1])
  }

  function RemEval(r: Rem4, z: Byte): Byte {
    Horner(z, Horner(z, Horner(z, r.r3, r.r2), r.r1), r.r0)
  }

  lemma Swap4(a: Byte, b: Byte, c: Byte, d: Byte)
    ensures Add(Add(a, b), Add(c, d)) == Add(Add(a, c), Add(b, d))
  {
    hide Add;
    AddLaws(Add(a, b), c, d);
    AddLaws(a, b, c);
    AddLaws(b, c, 0);
    AddLaws(a, c, b);
    AddLaws(Add(a, c), b, d);
  }

  lemma HornerAdd(z: Byte, x: Byte, x': Byte, y: Byte, y': Byte)
    ensures Horner(z, Add(x, x'), Add(y, y')) == Add(Horner(z, x, y), Horner(z, x', y'))
  {
    hide Add, Mul;
    MulDistrib(z, x, x');
    Swap4(Mul(z, x), Mul(z, x'), y, y');
  }

  lemma HornerScale(z: Byte, c: Byte, x: Byte, y: Byte)
    ensures Horner(z, Mul(c, x), Mul(c, y)) == Mul(c, Horner(z, x, y))
  {
    hide Add, Mul;
    MulAssoc(z, c, x);
    MulComm(z, c);
    MulAssoc(c, z, x);
    MulDistrib(c, Mul(z, x), y);
  }

  lemma HornerEnds(z: Byte, x: Byte)
    ensures Horner(z, 0, x) == x && Horner(z, x, 0) == Mul(z, x)
  {
    hide Add, Mul;
    MulNonzero(z, 0);
    AddLaws(x, 0, 0);
    AddLaws(Mul(z, x), 0, 0);
  }

  function RemAdd(r: Rem4, s: Rem4): Rem4 {
    Rem4(Add(r.r3, s.r3), Add(r.r2, s.r2), Add(r.r1, s.r1), Add(r.r0, s.r0))
  }

  lemma RemEvalAdd(r: Rem4, s: Rem4, z: Byte)
    ensures RemEval(RemAdd(r, s), z) == Add(RemEval(r, z), RemEval(s, z))
  {
    hide Add, Horner;
    HornerAdd(z, r.r3, s.r3, r.r2, s.r2);
    var x, x' := Horner(z, r.r3, r.r2), Horner(z, s.r3, s.r2);
    HornerAdd(z, x, x', r.r1, s.r1);
    HornerAdd(z, Horner(z, x, r.r1), Horner(z, x', s.r1), r.r0, s.r0);
  }

  /** The generator without its leading term. */
  const GENERATOR := Rem4(0x0f, 0x36, 0x78, 0x40)

  function RemScale(c: Byte, r: Rem4): Rem4 {
    Rem4(Mul(c, r.r3), Mul(c, r.r2), Mul(c, r.r1), Mul(c, r.r0))
  }

  lemma RemEvalScale(c: Byte, r: Rem4, z: Byte)
    ensures RemEval(RemScale(c, r), z) == Mul(c, RemEval(r, z))
  {
    hide Mul, Horner;
    HornerScale(z, c, r.r3, r.r2);
    HornerScale(z, c, Horner(z, r.r3, r.r2), r.r1);
    HornerScale(z, c, Horner(z, Horner(z, r.r3, r.r2), r.r1), r.r0);
  }

  function Pow4(z: Byte): Byte {
    Mul(z, Mul(z, Mul(z, z)))
  }

  lemma HornerLiteral(j: nat, x: Byte, y: Byte)
    ensures Horner(Exp(j), x, y) == Add(XtimeN(j, x), y)
  {
    hide Add, Mul, Exp, XtimeN;
    MulExp(j, x);
  }

  lemma Pow4Exp(j: nat)
    ensures Pow4(Exp(j)) == Exp(4 * j)
  {
    hide Exp, Mul;
    MulExpExp(j, j);
    MulExpExp(j, 2 * j);
    MulExpExp(j, 3 * j);
  }

  /** 1, 2, 4 and 8 are the roots of x^4 + 0f x^3 + 36 x^2 + 78 x + 40. */
  lemma GeneratorRoots(j: nat)
    requires j < 4
    ensures RemEval(GENERATOR, Exp(j)) == Pow4(Exp(j))
  {
    hide Mul, Horner;
    Pow4Exp(j);
    match j
    case 0 =>
      HornerLiteral(0, 0x0f, 0x36);
      HornerLiteral(0, 0x39, 0x78);
      HornerLiteral(0, 0x41, 0x40);
    case 1 =>
      HornerLiteral(1, 0x0f, 0x36);
      HornerLiteral(1, 0x28, 0x78);
      HornerLiteral(1, 0x28, 0x40);
    case 2 =>
      HornerLiteral(2, 0x0f, 0x36);
      HornerLiteral(2, 0x0a, 0x78);
      HornerLiteral(2, 0x50, 0x40);
    case _ =>
      HornerLiteral(3, 0x0f, 0x36);
      HornerLiteral(3, 0x4e, 0x78);
      HornerLiteral(3, 0x32, 0x40);
      assert Exp(12) == 0xcd;
  }

  // ---------------------------------------------------------- division keeps the values

  lemma RemStepSplits(r: Rem4, next: Byte)
    ensures RemStep(r, next) == RemAdd(Rem4(r.r2, r.r1, r.r0, next), RemScale(r.r3, GENERATOR))
  {
    hide Add, Mul;
  }

  /** Multiplication by z of a value, with the leading coefficient set apart. */
  lemma LeadingTerm(r: Rem4, next: Byte, z: Byte)
    ensures Horner(z, RemEval(r, z), next)
         == Add(RemEval(Rem4(r.r2, r.r1, r.r0, next), z), Mul(r.r3, Pow4(z)))
  {
    hide Horner, Add, Mul;
    var t := Rem4(0, r.r2, r.r1, r.r0);
    var u := Rem4(r.r3, 0, 0, 0);
    AddLaws(r.r3, 0, 0);
    AddLaws(r.r2, 0, 0);
    AddLaws(r.r1, 0, 0);
    AddLaws(r.r0, 0, 0);
    AddLaws(next, 0, 0);
    RemEvalAdd(t, u, z);
    HornerAdd(z, RemEval(t, z), RemEval(u, z), next, 0);
    HornerEnds(z, r.r2);
    MonomialValue(r.r3, z);
  }

  lemma MonomialValue(c: Byte, z: Byte)
    ensures Horner(z, RemEval(Rem4(c, 0, 0, 0), z), 0) == Mul(c, Pow4(z))
  {
    hide Horner, Add, Mul;
    HornerEnds(z, c);
    var z2 := Mul(z, z);
    var z3 := Mul(z, z2);
    HornerEnds(z, Mul(z, c));
    HornerEnds(z, Mul(z, Mul(z, c)));
    HornerEnds(z, Mul(z, Mul(z, Mul(z, c))));
    MulAssoc(z, z, c);
    MulAssoc(z, z2, c);
    MulAssoc(z, z3, c);
    MulComm(Mul(z, z3), c);
  }

  lemma RemStepEval(r: Rem4, next: Byte, j: nat)
    requires j < 4
    ensures RemEval(RemStep(r, next), Exp(j)) == Horner(Exp(j), RemEval(r, Exp(j)), next)
  {
    hide RemEval, Horner, Add, Mul, Exp, RemStep, RemAdd, RemScale, Pow4;
    var z := Exp(j);
    RemStepSplits(r, next);
    RemEvalAdd(Rem4(r.r2, r.r1, r.r0, next), RemScale(r.r3, GENERATOR), z);
    RemEvalScale(r.r3, GENERATOR, z);
    GeneratorRoots(j);
    LeadingTerm(r, next, z);
  }

  lemma ZeroRemEval(z: Byte)
    ensures RemEval(Rem4(0, 0, 0, 0), z) == 0
  {
    hide Horner;
    HornerEnds(z, 0);
  }

  /** Division by the generator does not change the value at its roots. */
  lemma {:induction false} RemKeepsValue(msg: seq<Byte>, j: nat)
    requires j < 4
    ensures RemEval(Rem(msg), Exp(j)) == Eval(msg, Exp(j))
  {
    hide RemEval, Horner, Exp, RemStep;
    if msg == [] {
      ZeroRemEval(Exp(j));
    } else {
      var init := msg[..|msg| - 1];
      RemKeepsValue(init, j);
      RemStepEval(Rem(init), msg[|msg| - 1], j);
    }
  }

  // ---------------------------------------------------------- code words are the common zeros

  function Bytes(r: Rem4): (b: seq<Byte>)
    ensures |b| == 4
  {
    [r.r3, r.r2, r.r1, r.r0]
  }

  /** What ecc_block computes: the remainder of data*x^4. */
  function Ecc(data: seq<Byte>): Rem4 {
    Rem(data + [0, 0, 0, 0])
  }

  predicate IsCode(w: seq<Byte>) {
    |w| == LEN && w[DATA..] == Bytes(Ecc(w[..DATA]))
  }

  predicate Vanishes(w: seq<Byte>) {
    forall j :: 0 <= j < 4 ==> Eval(w, Exp(j)) == 0
  }

  lemma EvalSnoc(w: seq<Byte>, b: Byte, z: Byte)
    ensures Eval(w + [b], z) == Horner(z, Eval(w, z), b)
  {
    hide Horner;
    assert (w + [b])[..|w|] == w;
  }

  lemma EvalTail(w: seq<Byte>, r: Rem4, z: Byte)
    ensures Eval(w + Bytes(r), z)
         == Horner(z, Horner(z, Horner(z, Horner(z, Eval(w, z), r.r3), r.r2), r.r1), r.r0)
  {
    hide Horner, Eval;
    EvalSnoc(w, r.r3, z);
    EvalSnoc(w + [r.r3], r.r2, z);
    EvalSnoc(w + [r.r3] + [r.r2], r.r1, z);
    EvalSnoc(w + [r.r3] + [r.r2] + [r.r1], r.r0, z);
    assert w + [r.r3] + [r.r2] + [r.r1] + [r.r0] == w + Bytes(r);
  }

  /** Check bytes add their own value to that of the data followed by zeros. */
  lemma EvalChecked(w: seq<Byte>, r: Rem4, z: Byte)
    ensures Eval(w + Bytes(r), z) == Add(Eval(w + [0, 0, 0, 0], z), RemEval(r, z))
  {
    hide Horner, Eval, Add;
    var zero := Rem4(0, 0, 0, 0);
    EvalTail(w, r, z);
    EvalTail(w, zero, z);
    assert Bytes(zero) == [0, 0, 0, 0];
    HornerEnds(z, r.r3);
    AddLaws(r.r3, 0, 0);
    AddLaws(r.r2, 0, 0);
    AddLaws(r.r1, 0, 0);
    AddLaws(r.r0, 0, 0);
    AddLaws(Eval(w, z), 0, 0);
    var x0 := Horner(z, Eval(w, z), 0);
    HornerAdd(z, Eval(w, z), 0, 0, r.r3);
    HornerAdd(z, x0, r.r3, 0, r.r2);
    HornerAdd(z, Horner(z, x0, 0), Horner(z, r.r3, r.r2), 0, r.r1);
    HornerAdd(z, Horner(z, Horner(z, x0, 0), 0), Horner(z, Horner(z, r.r3, r.r2), r.r1), 0, r.r0);
  }

  lemma CodeValue(w: seq<Byte>, r: Rem4, j: nat)
    requires j < 4 && |w| == DATA
    ensures Eval(w + Bytes(r), Exp(j)) == RemEval(RemAdd(Ecc(w), r), Exp(j))
  {
    hide Horner, Eval, Add, RemEval, RemAdd, Exp, Rem;
    EvalChecked(w, r, Exp(j));
    RemKeepsValue(w + [0, 0, 0, 0], j);
    RemEvalAdd(Ecc(w), r, Exp(j));
  }

  /** Synthetic division by z + 1. */
  lemma QuotientVanishes(z: Byte, a: Byte, b: Byte, c: Byte)
    requires z != 1
    requires Mul(z, Horner(z, Horner(z, a, b), c)) == Add(a, Add(b, c))
    ensures Horner(z, Horner(z, a, Add(a, b)), Add(a, Add(b, c))) == 0
  {
    hide Add, Mul;
    var s := Add(a, Add(b, c));
    var e := Add(a, b);
    var u := Horner(z, a, e);
    var q := Horner(z, u, s);
    AddLaws(a, b, c);
    AddLaws(b, a, 0);
    AddLaws(c, e, 0);
    AddLaws(Mul(z, a), b, a);
    AddLaws(e, 0, 0);
    HornerEnds(z, a);
    assert Horner(z, a, e) == Add(Horner(z, a, b), a);
    HornerAdd(z, Horner(z, a, b), a, c, e);
    assert q == Add(Mul(z, u), s);
    assert Horner(z, Horner(z, a, e), s) == Add(Horner(z, Horner(z, a, b), c), Horner(z, a, e));
    MulDistrib(z, Horner(z, Horner(z, a, b), c), u);
    assert Mul(z, q) == Add(s, Mul(z, u));
    AddLaws(s, Mul(z, u), 0);
    MulOne(q);
    MulDistrib(q, z, 1);
    MulComm(q, z);
    AddLaws(q, 0, 0);
    assert Mul(q, Add(z, 1)) == 0;
    AddEqual(z, 1);
    MulNonzero(q, Add(z, 1));
  }

  lemma QuadraticBits(a: Byte, e: Byte, s: Byte)
    requires Xtime(Xtime(a) ^ e) == s
    requires Xtime(Xtime(Xtime(Xtime(a)) ^ e)) == s
    requires Xtime(Xtime(Xtime(Xtime(Xtime(Xtime(a))) ^ e))) == s
    ensures a == 0 && e == 0 && s == 0
  {
  }

  lemma QuadraticZero(a: Byte, e: Byte, s: Byte)
    requires Xtime(Add(Xtime(a), e)) == s
    requires Xtime(Xtime(Add(Xtime(Xtime(a)), e))) == s
    requires Xtime(Xtime(Xtime(Add(Xtime(Xtime(Xtime(a))), e)))) == s
    ensures a == 0 && e == 0 && s == 0
  {
    hide Xtime;
    assert Add(Xtime(a), e) == Xtime(a) ^ e;
    assert Add(Xtime(Xtime(a)), e) == Xtime(Xtime(a)) ^ e;
    assert Add(Xtime(Xtime(Xtime(a))), e) == Xtime(Xtime(Xtime(a))) ^ e;
    hide Add;
    QuadraticBits(a, e, s);
  }

  lemma XtimeN3(b: Byte)
    ensures XtimeN(1, b) == Xtime(b)
    ensures XtimeN(2, b) == Xtime(Xtime(b))
    ensures XtimeN(3, b) == Xtime(Xtime(Xtime(b)))
  {
    hide Xtime;
  }

  lemma QuadraticRoots(a: Byte, e: Byte, s: Byte)
    requires forall j :: 1 <= j < 4 ==> Horner(Exp(j), Horner(Exp(j), a, e), s) == 0
    ensures a == 0 && e == 0 && s == 0
  {
    forall j | 1 <= j < 4
      ensures XtimeN(j, Add(XtimeN(j, a), e)) == s
    {
      hide Add, Horner, XtimeN, Exp;
      HornerLiteral(j, a, e);
      HornerLiteral(j, Horner(Exp(j), a, e), s);
      AddEqual(XtimeN(j, Add(XtimeN(j, a), e)), s);
    }
    QuadraticShifts(a, e, s);
  }

  lemma QuadraticShifts(a: Byte, e: Byte, s: Byte)
    requires forall j :: 1 <= j < 4 ==> XtimeN(j, Add(XtimeN(j, a), e)) == s
    ensures a == 0 && e == 0 && s == 0
  {
    hide *;
    XtimeN3(a);
    XtimeN3(Add(XtimeN(1, a), e));
    XtimeN3(Add(XtimeN(2, a), e));
    XtimeN3(Add(XtimeN(3, a), e));
    QuadraticZero(a, e, s);
  }

  /** A polynomial of degree 3 with the four roots 1, 2, 4 and 8 is zero. */
  lemma RemZero(r: Rem4)
    requires forall j :: 0 <= j < 4 ==> RemEval(r, Exp(j)) == 0
    ensures r == Rem4(0, 0, 0, 0)
  {
    PowersOfTwo();
    hide Add, Mul, Horner, Exp;
    var s := Add(r.r3, Add(r.r2, r.r1));
    assert RemEval(r, 1) == 0;
    HornerOne(r.r3, r.r2);
    HornerOne(Add(r.r3, r.r2), r.r1);
    HornerOne(Add(Add(r.r3, r.r2), r.r1), r.r0);
    AddLaws(r.r3, r.r2, r.r1);
    AddEqual(s, r.r0);
    forall j | 1 <= j < 4
      ensures Horner(Exp(j), Horner(Exp(j), r.r3, Add(r.r3, r.r2)), s) == 0
    {
      var z := Exp(j);
      assert RemEval(r, z) == 0;
      HornerIs(z, Horner(z, Horner(z, r.r3, r.r2), r.r1), r.r0);
      AddEqual(Mul(z, Horner(z, Horner(z, r.r3, r.r2), r.r1)), r.r0);
      QuotientVanishes(z, r.r3, r.r2, r.r1);
    }
    QuadraticRoots(r.r3, Add(r.r3, r.r2), s);
    AddEqual(r.r3, r.r2);
    AddLaws(r.r1, 0, 0);
  }

  lemma HornerIs(z: Byte, x: Byte, y: Byte)
    ensures Horner(z, x, y) == Add(Mul(z, x), y)
  {
  }

  lemma HornerOne(x: Byte, y: Byte)
    ensures Horner(1, x, y) == Add(x, y)
  {
    hide Add, Mul;
    MulOne(x);
  }

  lemma RemAddZero(r: Rem4, s: Rem4)
    ensures RemAdd(r, s) == Rem4(0, 0, 0, 0) <==> r == s
  {
    hide Add;
    AddEqual(r.r3, s.r3);
    AddEqual(r.r2, s.r2);
    AddEqual(r.r1, s.r1);
    AddEqual(r.r0, s.r0);
  }

  /** The words rs_encode_string writes are exactly those on which all four syndromes vanish. */
  lemma CodeIffVanishes(w: seq<Byte>)
    requires |w| == LEN
    ensures IsCode(w) <==> Vanishes(w)
  {
    hide RemEval, Eval, Rem, Exp, RemAdd, Ecc;
    var data := w[..DATA];
    var r := Rem4(w[DATA], w[DATA + 1], w[DATA + 2], w[DATA + 3]);
    assert w[DATA..] == Bytes(r) && w == data + Bytes(r);
    forall j | 0 <= j < 4
      ensures Eval(w, Exp(j)) == RemEval(RemAdd(Ecc(data), r), Exp(j))
    {
      CodeValue(data, r, j);
    }
    RemAddZero(Ecc(data), r);
    if IsCode(w) {
      assert Bytes(Ecc(data)) == Bytes(r);
      assert Bytes(r)[0] == r.r3 && Bytes(r)[1] == r.r2 && Bytes(r)[2] == r.r1 && Bytes(r)[3] == r.r0;
      assert Bytes(Ecc(data))[0] == Ecc(data).r3 && Bytes(Ecc(data))[1] == Ecc(data).r2;
      assert Bytes(Ecc(data))[2] == Ecc(data).r1 && Bytes(Ecc(data))[3] == Ecc(data).r0;
      forall j | 0 <= j < 4 ensures Eval(w, Exp(j)) == 0 {
        ZeroRemEval(Exp(j));
      }
    } else if Vanishes(w) {
      RemZero(RemAdd(Ecc(data), r));
    }
  }
}
