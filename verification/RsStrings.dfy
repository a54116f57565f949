/**
 The loops of src/rs.c on one string of a sector, in place, and the proof that they compute the
 functions of modules RsEval and RsDecoder and touch nothing else.
 */
module RsStrings {
  import opened RsTables
  import opened Gf256
  import opened Gf256Tables
  import opened Gf256Laws
  import opened RsCode
  import opened RsEval
  import opened RsDecoder

  /** A look-up in t_exp, which has 768 entries. */
  function TExp(n: nat): Byte
    requires n < 768
  {
    Exp(n)
  }

  predicate OnString(j: nat, off: nat, step: nat) {
    exists k :: 0 <= k < LEN && j == At(off, step, k)
  }

  /** Nothing off the string has changed. */
  predicate OnlyString(s: seq<Byte>, t: seq<Byte>, off: nat, step: nat) {
    |s| == |t| && forall j :: 0 <= j < |s| && !OnString(j, off, step) ==> t[j] == s[j]
  }

  function Encoded(w: seq<Byte>): (r: seq<Byte>)
    requires |w| == LEN
    ensures |r| == LEN
  {
    w[..DATA] + Bytes(Ecc(w[..DATA]))
  }

  // ---------------------------------------------------------- ecc_block

  lemma RemFirstFour(msg: seq<Byte>)
    requires |msg| >= 4
    ensures Rem(msg[..4]) == Rem4(msg[0], msg[1], msg[2], msg[3])
  {
    hide Add, Mul;
    RemSnoc(msg, 0);
    RemSnoc(msg, 1);
    RemSnoc(msg, 2);
    RemSnoc(msg, 3);
    RemShift(0, 0, 0, msg[0]);
    RemShift(0, 0, msg[0], msg[1]);
    RemShift(0, msg[0], msg[1], msg[2]);
    RemShift(msg[0], msg[1], msg[2], msg[3]);
    assert msg[..0] == [];
  }

  lemma RemSnoc(msg: seq<Byte>, i: nat)
    requires i < |msg|
    ensures Rem(msg[..i + 1]) == RemStep(Rem(msg[..i]), msg[i])
  {
    hide RemStep;
    assert msg[..i + 1][..i] == msg[..i];
  }

  lemma RemShift(a: Byte, b: Byte, c: Byte, next: Byte)
    ensures RemStep(Rem4(0, a, b, c), next) == Rem4(a, b, c, next)
  {
    hide Add, Mul;
    MulNonzero(0, 0x0f);
    MulNonzero(0, 0x36);
    MulNonzero(0, 0x78);
    MulNonzero(0, 0x40);
    AddLaws(a, 0, 0);
    AddLaws(b, 0, 0);
    AddLaws(c, 0, 0);
    AddLaws(next, 0, 0);
  }

  /** r = t_rem[r >> 24] ^ (r << 8) */
  function ShiftOut(r: bv32): bv32 {
    TRem((r >> 24) as bv8) ^ (r << 8)
  }

  /** r ^= b */
  function BringDown(r: bv32, b: Byte): bv32 {
    r ^ (b as bv32)
  }

  lemma RegisterTurn(r: Rem4, next: Byte)
    ensures BringDown(ShiftOut(Pack(r)), next) == Pack(RemStep(r, next))
  {
    hide Pack, RemStep, TRem;
    RegisterStep(r, next);
  }

  lemma BringDownZero(x: bv32)
    ensures BringDown(x, 0) == x
  {
  }

  /** Word k of the string, by address. */
  lemma WordAt(s: seq<Byte>, off: nat, step: nat, k: nat)
    requires InRange(|s|, off, step) && k < LEN
    ensures At(off, step, k) < |s| && Word(s, off, step)[k] == s[At(off, step, k)]
  {
    AtInRange(|s|, off, step, k);
  }

  lemma AtNext(off: nat, step: nat, k: nat)
    ensures At(off, step, k + 1) == At(off, step, k) + step
    ensures At(off, step, 0) == off
  {
  }

  method EccBlock(s: array<Byte>, off: nat, step: nat) returns (r: bv32)
    requires InRange(s.Length, off, step)
    ensures r == Pack(Ecc(Word(s[..], off, step)[..DATA]))
  {
    hide Pack, TRem, Rem, RemStep, Word, ShiftOut, BringDown, At, InRange, Bytes4;
    ghost var w := Word(s[..], off, step);
    ghost var msg := w[..DATA] + [0, 0, 0, 0];
    FirstFourAt(s[..], off, step);
    r := Bytes4(s[off], s[off + step], s[off + 2 * step], s[off + 3 * step]);
    RemFirstFour(msg);
    PackIs(Rem(msg[..4]));
    var p := off + 4 * step;
    for i := 4 to LEN
      invariant i <= DATA ==> p == At(off, step, i)
      invariant r == Pack(Rem(msg[..i]))
    {
      RemSnoc(msg, i);
      RegisterTurn(Rem(msg[..i]), msg[i]);
      r := ShiftOut(r);
      if i < DATA {
        WordAt(s[..], off, step, i);
        r := BringDown(r, s[p]);
        p := p + step;
        AtNext(off, step, i);
      } else {
        BringDownZero(r);
      }
    }
    assert msg[..LEN] == msg;
  }

  lemma FirstFourAt(s: seq<Byte>, off: nat, step: nat)
    requires InRange(|s|, off, step)
    ensures off + 3 * step < |s| && step > 0
    ensures var w := Word(s, off, step);
      w[0] == s[off] && w[1] == s[off + step] && w[2] == s[off + 2 * step] && w[3] == s[off + 3 * step]
    ensures At(off, step, 4) == off + 4 * step
  {
    WordAt(s, off, step, 0);
    WordAt(s, off, step, 1);
    WordAt(s, off, step, 2);
    WordAt(s, off, step, 3);
  }

  lemma PackIs(r: Rem4)
    ensures Pack(r) == Bytes4(r.r3, r.r2, r.r1, r.r0)
  {
    hide Bytes4;
  }

  // ---------------------------------------------------------- stores on a string

  lemma AtInjective(off: nat, step: nat, k: nat, m: nat)
    requires step > 0 && k != m
    ensures At(off, step, k) != At(off, step, m)
  {
    hide At;
    if k < m { AtMonotone(off, step, k, m); } else { AtMonotone(off, step, m, k); }
  }

  lemma StoreAt(s: seq<Byte>, off: nat, step: nat, k: nat, v: Byte)
    requires InRange(|s|, off, step) && k < LEN
    ensures At(off, step, k) < |s|
    ensures Word(s[At(off, step, k) := v], off, step) == Word(s, off, step)[k := v]
    ensures OnlyString(s, s[At(off, step, k) := v], off, step)
  {
    hide At, Word, OnString;
    AtInRange(|s|, off, step, k);
    assert step > 0 by { StepPositive(|s|, off, step); }
    var t := s[At(off, step, k) := v];
    forall m | 0 <= m < LEN ensures Word(t, off, step)[m] == Word(s, off, step)[k := v][m] {
      WordAt(t, off, step, m);
      WordAt(s, off, step, m);
      if m != k {
        AtInjective(off, step, k, m);
      }
    }
    OnStringAt(off, step, k);
  }

  lemma StepPositive(n: nat, off: nat, step: nat)
    requires InRange(n, off, step)
    ensures step > 0
  {
  }

  lemma OnStringAt(off: nat, step: nat, k: nat)
    requires k < LEN
    ensures OnString(At(off, step, k), off, step)
  {
  }

  /** sector[off + k*step] = v */
  method Store(sector: array<Byte>, off: nat, step: nat, k: nat, v: Byte)
    requires InRange(sector.Length, off, step) && k < LEN
    modifies sector
    ensures Word(sector[..], off, step) == old(Word(sector[..], off, step))[k := v]
    ensures OnlyString(old(sector[..]), sector[..], off, step)
  {
    hide Word, InRange, OnString;
    ghost var s := sector[..];
    StoreAt(s, off, step, k, v);
    sector[off + step * k] := v;
    assert sector[..] == s[At(off, step, k) := v];
  }

  lemma OnlyStringTrans(s: seq<Byte>, t: seq<Byte>, u: seq<Byte>, off: nat, step: nat)
    requires OnlyString(s, t, off, step) && OnlyString(t, u, off, step)
    ensures OnlyString(s, u, off, step)
  {
    hide OnString;
  }

  /** Byte k of the 32-bit register, counted from the low end. */
  function RegisterByte(r: bv32, k: nat): Byte
    requires k < 4
  {
    if k == 3 then (r >> 24) as bv8
    else if k == 2 then ((r >> 16) & 0xff) as bv8
    else if k == 1 then ((r >> 8) & 0xff) as bv8
    else (r & 0xff) as bv8
  }

  lemma RegisterBytes(r: Rem4)
    ensures RegisterByte(Pack(r), 3) == r.r3 && RegisterByte(Pack(r), 2) == r.r2
    ensures RegisterByte(Pack(r), 1) == r.r1 && RegisterByte(Pack(r), 0) == r.r0
  {
    PackTop(r);
  }

  method EncodeString(sector: array<Byte>, off: nat, step: nat)
    requires InRange(sector.Length, off, step)
    modifies sector
    ensures Word(sector[..], off, step) == Encoded(old(Word(sector[..], off, step)))
    ensures OnlyString(old(sector[..]), sector[..], off, step)
  {
    hide Pack, Ecc, Word, At, InRange, OnString, OnlyString, RegisterByte, Encoded;
    ghost var s0 := sector[..];
    var ecc := EccBlock(sector, off, step);
    ghost var r := Ecc(Word(s0, off, step)[..DATA]);
    RegisterBytes(r);
    Store(sector, off, step, 32, RegisterByte(ecc, 3));
    ghost var s1 := sector[..];
    Store(sector, off, step, 33, RegisterByte(ecc, 2));
    ghost var s2 := sector[..];
    OnlyStringTrans(s0, s1, s2, off, step);
    Store(sector, off, step, 34, RegisterByte(ecc, 1));
    ghost var s3 := sector[..];
    OnlyStringTrans(s0, s2, s3, off, step);
    Store(sector, off, step, 35, RegisterByte(ecc, 0));
    OnlyStringTrans(s0, s3, sector[..], off, step);
    FourStores(Word(s0, off, step), r);
  }

  lemma FourStores(w: seq<Byte>, r: Rem4)
    requires |w| == LEN && r == Ecc(w[..DATA])
    ensures w[32 := r.r3][33 := r.r2][34 := r.r1][35 := r.r0] == Encoded(w)
  {
    hide Ecc;
  }

  /** rs_encode_string writes a code word with the same data. */
  lemma EncodedIsCode(w: seq<Byte>)
    requires |w| == LEN
    ensures IsCode(Encoded(w)) && Encoded(w)[..DATA] == w[..DATA]
  {
    hide Ecc;
    assert Encoded(w)[..DATA] == w[..DATA];
    assert Encoded(w)[DATA..] == Bytes(Ecc(w[..DATA]));
  }

  /** It does not matter to the check bytes what was there before. */
  lemma EncodedDeterminedByData(w: seq<Byte>, c: seq<Byte>)
    requires |w| == LEN && IsCode(c) && c[..DATA] == w[..DATA]
    ensures c == Encoded(w)
  {
    hide Ecc;
    assert c == c[..DATA] + c[DATA..];
  }

  // ---------------------------------------------------------- syndromes

  /** Syndrome j summed over the last i symbols of the word. */
  function TailSum(w: seq<Byte>, j: nat, i: nat): Byte
    requires |w| == LEN && i <= LEN
  {
    if i == 0 then 0 else Add(TailSum(w, j, i - 1), Mul(w[LEN - i], Exp(j * (i - 1))))
  }

  lemma {:induction false} TailSumIsEval(w: seq<Byte>, j: nat, i: nat)
    requires |w| == LEN && i <= LEN
    ensures Eval(w, Exp(j)) == Add(TailSum(w, j, i), Mul(Exp(j * i), Eval(w[..LEN - i], Exp(j))))
  {
    hide Add, Mul, Exp, Horner;
    var z := Exp(j);
    if i == 0 {
      assert w[..LEN] == w;
      ExpUnit();
      MulOne(Eval(w, z));
      AddLaws(Eval(w, z), 0, 0);
    } else {
      TailSumIsEval(w, j, i - 1);
      var init, last := w[..LEN - i], w[LEN - i];
      assert w[..LEN - i + 1][..LEN - i] == init;
      var p := Exp(j * (i - 1));
      HornerIs(z, Eval(init, z), last);
      MulDistrib(p, Mul(z, Eval(init, z)), last);
      MulAssoc(p, z, Eval(init, z));
      MulExpExp(j * (i - 1), j);
      assert j * (i - 1) + j == j * i;
      MulComm(p, last);
      var t, m := TailSum(w, j, i - 1), Mul(Exp(j * i), Eval(init, z));
      AddLaws(m, Mul(last, p), 0);
      AddLaws(t, Mul(last, p), m);
    }
  }

  lemma TailSumWhole(w: seq<Byte>, j: nat)
    requires |w| == LEN
    ensures TailSum(w, j, LEN) == Eval(w, Exp(j))
  {
    hide Add, Mul, Exp, TailSum, Horner;
    TailSumIsEval(w, j, LEN);
    assert w[..0] == [];
    MulNonzero(Exp(j * LEN), 0);
    AddLaws(TailSum(w, j, LEN), 0, 0);
  }

  /** t_exp[t_log[a] + n] is a*2^n. */
  lemma ExpOfSum(a: Byte, n: nat)
    ensures a != 0 ==> Mul(a, Exp(n)) == Exp(Log(a) + n) && Log(a) < 255
    ensures a == 0 ==> Mul(a, Exp(n)) == 0
  {
    hide *;
    MulNonzero(a, Exp(n));
    if a != 0 {
      ExpLog(a);
      MulExpExp(Log(a), n);
    }
  }

  lemma TailStep(w: seq<Byte>, j: nat, i: nat)
    requires |w| == LEN && i < LEN
    ensures var v := w[LEN - 1 - i];
      TailSum(w, j, i + 1) == if v == 0 then TailSum(w, j, i) else Add(TailSum(w, j, i), Exp(Log(v) + j * i))
    ensures w[LEN - 1 - i] != 0 ==> Log(w[LEN - 1 - i]) < 255
  {
    hide Add, Mul, Exp, Log;
    ExpOfSum(w[LEN - 1 - i], j * i);
    AddLaws(TailSum(w, j, i), 0, 0);
  }

  function TailSums(w: seq<Byte>, i: nat): Poly
    requires |w| == LEN && i <= LEN
  {
    [1, TailSum(w, 0, i), TailSum(w, 1, i), TailSum(w, 2, i), TailSum(w, 3, i)]
  }

  lemma TailSumsStep(w: seq<Byte>, i: nat)
    requires |w| == LEN && i < LEN
    ensures var v, s, l := w[LEN - 1 - i], TailSums(w, i), Log(w[LEN - 1 - i]);
      (v == 0 ==> TailSums(w, i + 1) == s) &&
      (v != 0 ==> l < 255) &&
      (v != 0 ==>
        TailSums(w, i + 1) ==
        [s[0], Add(s[1], v), Add(s[2], Exp(l + i)), Add(s[3], Exp(l + 2 * i)), Add(s[4], Exp(l + 3 * i))])
  {
    hide Add, Mul, Exp, Log, TailSum;
    TailStep(w, 0, i);
    TailStep(w, 1, i);
    TailStep(w, 2, i);
    TailStep(w, 3, i);
    LogOfByte(w[LEN - 1 - i]);
    assert 0 * i == 0 && 1 * i == i;
  }

  lemma TailSumsEnds(w: seq<Byte>)
    requires |w| == LEN
    ensures TailSums(w, 0) == [1, 0, 0, 0, 0] && TailSums(w, LEN) == Syndromes(w)
  {
    hide Add, Mul, Exp, Eval;
    TailSumWhole(w, 0);
    TailSumWhole(w, 1);
    TailSumWhole(w, 2);
    TailSumWhole(w, 3);
  }

  /** The loop at rs.c:172-181. */
  method ComputeSyndromes(sector: array<Byte>, off: nat, step: nat) returns (syn: Poly)
    requires InRange(sector.Length, off, step)
    ensures syn == Syndromes(Word(sector[..], off, step))
  {
    hide Add, Mul, Exp, Log, Word, InRange, TailSums, Syndromes;
    ghost var w := Word(sector[..], off, step);
    TailSumsEnds(w);
    syn := [1, 0, 0, 0, 0];
    for i := 0 to LEN
      invariant syn == TailSums(w, i)
    {
      WordAt(sector[..], off, step, LEN - 1 - i);
      TailSumsStep(w, i);
      var v := sector[off + step * (LEN - 1 - i)];
      if v != 0 {
        var lv := Log(v);
        syn := [syn[0], Add(syn[1], v), Add(syn[2], TExp(lv + i)),
                Add(syn[3], TExp(lv + 2 * i)), Add(syn[4], TExp(lv + 3 * i))];
      }
    }
  }

  lemma LogOfByte(v: Byte)
    ensures v != 0 ==> Exp(Log(v)) == v
  {
    hide *;
    if v != 0 {
      ExpLog(v);
    }
  }
}
