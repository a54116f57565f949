/**
 Arithmetic in GF(2^8) with the field polynomial of src/rs.c.  Addition is exclusive or;
 multiplication adds logarithms to base 2, which is what the source's table look-ups do.
 `Exp` and `Log` are the meaning of t_exp and t_log: see `ExpTablesCorrect` and `LogTableCorrect`.
 */
module Gf256 {
  import opened RsTables

  type Byte = bv8

  /** x to the power n. */
  function Exp(n: nat): Byte {
    if n == 0 then 1 else Xtime(Exp(n - 1))
  }

  /** b times x to the power n. */
  function XtimeN(n: nat, b: Byte): Byte {
    if n == 0 then b else Xtime(XtimeN(n - 1, b))
  }

  function FindLog(a: Byte, n: nat): (r: nat)
    requires n <= 254
    ensures n <= r <= 254
    decreases 254 - n
  {
    if n == 254 || Exp(n) == a then n else FindLog(a, n + 1)
  }

  /** The discrete logarithm; t_log[0], which means nothing, is 0. */
  function Log(a: Byte): nat {
    if a == 0 then 0 else FindLog(a, 0)
  }

  /** The product as the source computes it. */
  function Mul(a: Byte, b: Byte): Byte {
    if a == 0 || b == 0 then 0 else Exp(Log(a) + Log(b))
  }

  function Inv(a: Byte): Byte {
    Exp(255 - Log(a))
  }
}

/** Every entry of t_exp and t_log is the Exp or Log of its index. */
module Gf256Tables {
  import opened RsTables
  import opened Gf256

  /** A byte counter, to walk a table page entry by entry. */
  function Count(n: nat): Byte {
    if n == 0 then 0 else Count(n - 1) + 1
  }

  lemma ByteSucc(i: Byte)
    requires i != 255
    ensures (i + 1) as nat == i as nat + 1
  {
  }

  lemma ByteRange(i: Byte)
    ensures i as nat < 256
    ensures i as nat == 255 <==> i == 255
    ensures i != 0 ==> (i - 1) as nat == i as nat - 1
  {
  }

  lemma {:induction false} CountOfByte(i: Byte)
    ensures Count(i as nat) == i
    decreases i as nat
  {
    if i != 0 {
      ByteRange(i);
      CountOfByte(i - 1);
    }
  }

  /** The counter does not wrap below 256. */
  lemma {:induction false} CountIsByte(n: nat)
    requires n < 256
    ensures Count(n) as nat == n
    ensures n < 255 ==> Count(n) != 255
  {
    if n > 0 {
      CountIsByte(n - 1);
      ByteSucc(Count(n - 1));
    }
    ByteRange(Count(n));
  }

  lemma PageStarts()
    ensures ExpPage0(0) == Exp(0) && ExpPage1(0) == Exp(1) && ExpPage2(0) == Exp(2)
    ensures ExpPage0(255) == Exp(0)
  {
    assert Exp(1) == 2 && Exp(2) == 4;
  }

  lemma {:induction false} ExpPage0Is(n: nat)
    requires n < 256
    ensures ExpPage0(Count(n)) == Exp(n)
  {
    hide ExpPage0, Xtime;
    if n == 0 {
      PageStarts();
    } else {
      ExpPage0Is(n - 1);
      CountIsByte(n - 1);
      ExpPage0Step(Count(n - 1));
    }
  }

  lemma LogFound(a: Byte, k: nat, n: nat)
    requires k <= n < 255 && Exp(n) == a
    requires forall m :: k <= m < n ==> Exp(m) != a
    ensures FindLog(a, k) == n
    decreases n - k
  {
  }

  lemma ExpBelow255Distinct(m: nat, n: nat)
    requires m < n < 255
    ensures Exp(m) != Exp(n)
  {
    ExpPage0Is(m);
    ExpPage0Is(n);
    CountIsByte(m);
    CountIsByte(n);
    ExpThenLog(Count(m));
    ExpThenLog(Count(n));
  }

  lemma XtimeFacts(a: Byte, b: Byte)
    ensures Xtime(a ^ b) == Xtime(a) ^ Xtime(b)
    ensures Xtime(a) == 0 <==> a == 0
    ensures Xtime(a) == Xtime(b) <==> a == b
  {
  }

  lemma {:induction false} ExpNonzero(n: nat)
    ensures Exp(n) != 0
  {
    if n > 0 {
      ExpNonzero(n - 1);
      XtimeFacts(Exp(n - 1), 0);
    }
  }

  lemma ExpUnit()
    ensures Exp(0) == 1 && Exp(255) == 1
  {
    hide ExpPage0;
    ExpPage0Is(255);
    CountIsByte(255);
    ByteRange(Count(255));
    PageStarts();
  }

  lemma {:induction false} ExpPeriod(n: nat)
    ensures Exp(n + 255) == Exp(n)
  {
    if n == 0 {
      ExpUnit();
    } else {
      ExpPeriod(n - 1);
    }
  }

  /** Logarithm and exponential are inverse on the 255 nonzero bytes. */
  lemma LogExp(n: nat)
    requires n < 255
    ensures Log(Exp(n)) == n
  {
    forall m | 0 <= m < n ensures Exp(m) != Exp(n) {
      ExpBelow255Distinct(m, n);
    }
    ExpNonzero(n);
    LogFound(Exp(n), 0, n);
  }

  lemma LogTableCorrect(a: Byte)
    ensures LogTable(a) as nat == Log(a)
    ensures a != 0 ==> Exp(Log(a)) == a
  {
    hide Exp, ExpPage0, LogTable, FindLog;
    var i := LogTable(a);
    if a == 0 {
      LogTableZero();
    } else {
      LogThenExp(a);
      CountOfByte(i);
      ByteRange(i);
      ExpPage0Is(i as nat);
      LogExp(i as nat);
    }
  }

  lemma ExpLog(a: Byte)
    requires a != 0
    ensures Log(a) < 255 && Exp(Log(a)) == a
  {
    hide *;
    LogTableCorrect(a);
    LogBound(a);
  }

  lemma LogBound(a: Byte)
    ensures Log(a) < 255
  {
  }

  lemma LogTableZero()
    ensures LogTable(0) as nat == 0
  {
  }

  lemma {:induction false} ExpPage1Is(n: nat)
    requires n < 256
    ensures ExpPage1(Count(n)) == Exp(n + 1)
  {
    hide ExpPage1, Xtime;
    if n == 0 {
      PageStarts();
    } else {
      ExpPage1Is(n - 1);
      CountIsByte(n - 1);
      ExpPage1Step(Count(n - 1));
    }
  }

  lemma {:induction false} ExpPage2Is(n: nat)
    requires n < 256
    ensures ExpPage2(Count(n)) == Exp(n + 2)
  {
    hide ExpPage2, Xtime;
    if n == 0 {
      PageStarts();
    } else {
      ExpPage2Is(n - 1);
      CountIsByte(n - 1);
      ExpPage2Step(Count(n - 1));
    }
  }

  /** t_exp has 768 entries so that no index needs reducing: three pages, 255 entries to the period. */
  lemma ExpTablesCorrect(n: nat)
    requires n < 256
    ensures ExpPage0(Count(n)) == Exp(n)
    ensures ExpPage1(Count(n)) == Exp(n + 256)
    ensures ExpPage2(Count(n)) == Exp(n + 512)
    ensures Count(n) as nat == n
  {
    hide *;
    CountIsByte(n);
    ExpPage0Is(n);
    ExpPage1Is(n);
    ExpPage2Is(n);
    ExpPeriod(n + 1);
    ExpPeriod(n + 2);
    ExpPeriod(n + 257);
  }
}

/** GF(2^8) is a field. */
module Gf256Laws {
  import opened RsTables
  import opened Gf256
  import opened Gf256Tables

  lemma {:induction false} ExpMod(n: nat)
    ensures Exp(n) == Exp(n % 255)
  {
    if n >= 255 {
      ExpPeriod(n - 255);
      ExpMod(n - 255);
    }
  }

  lemma LogExpMod(n: nat)
    ensures Log(Exp(n)) == n % 255
  {
    ExpMod(n);
    LogExp(n % 255);
  }

  lemma {:induction false} XtimeNExp(n: nat, m: nat)
    ensures XtimeN(n, Exp(m)) == Exp(n + m)
  {
    if n > 0 {
      XtimeNExp(n - 1, m);
    }
  }

  lemma AddLaws(a: Byte, b: Byte, c: Byte)
    ensures Add(a, b) == Add(b, a)
    ensures Add(a, Add(b, c)) == Add(Add(a, b), c)
    ensures Add(a, 0) == a && Add(0, a) == a && Add(a, a) == 0
  {
  }

  /** Every byte is its own negative. */
  lemma AddEqual(a: Byte, b: Byte)
    ensures Add(a, b) == 0 <==> a == b
  {
  }

  lemma XtimeAdd(a: Byte, b: Byte)
    ensures Xtime(Add(a, b)) == Add(Xtime(a), Xtime(b))
  {
    XtimeFacts(a, b);
  }

  lemma {:induction false} XtimeNLinear(n: nat, a: Byte, b: Byte)
    ensures XtimeN(n, Add(a, b)) == Add(XtimeN(n, a), XtimeN(n, b))
  {
    hide Add, Xtime;
    if n > 0 {
      XtimeNLinear(n - 1, a, b);
      XtimeAdd(XtimeN(n - 1, a), XtimeN(n - 1, b));
    }
  }

  lemma {:induction false} XtimeNZero(n: nat)
    ensures XtimeN(n, 0) == 0
  {
    if n > 0 {
      XtimeNZero(n - 1);
      XtimeFacts(0, 0);
    }
  }

  lemma MulByLogs(a: Byte, b: Byte)
    ensures a != 0 && b != 0 ==> Mul(a, b) == Exp(Log(a) + Log(b))
    ensures a == 0 || b == 0 ==> Mul(a, b) == 0
  {
    hide Exp, Log;
  }

  lemma ModSum(n: nat, m: nat)
    ensures (n % 255 + m % 255) % 255 == (n + m) % 255
  {
  }

  /** Adding exponents is multiplying powers, whatever the exponents. */
  lemma MulExpExp(n: nat, m: nat)
    ensures Mul(Exp(n), Exp(m)) == Exp(n + m)
  {
    hide *;
    ExpNonzero(n);
    ExpNonzero(m);
    LogExpMod(n);
    LogExpMod(m);
    MulByLogs(Exp(n), Exp(m));
    ExpMod(n % 255 + m % 255);
    ExpMod(n + m);
    ModSum(n, m);
  }

  lemma MulExp(n: nat, b: Byte)
    ensures Mul(Exp(n), b) == XtimeN(n, b)
  {
    hide *;
    ExpNonzero(n);
    if b == 0 {
      XtimeNZero(n);
      MulByLogs(Exp(n), b);
    } else {
      ExpLog(b);
      MulExpExp(n, Log(b));
      XtimeNExp(n, Log(b));
    }
  }

  lemma MulComm(a: Byte, b: Byte)
    ensures Mul(a, b) == Mul(b, a)
  {
    hide *;
    MulByLogs(a, b);
    MulByLogs(b, a);
  }

  lemma MulOne(a: Byte)
    ensures Mul(a, 1) == a && Mul(1, a) == a
  {
    hide *;
    ExpUnit();
    MulByLogs(a, 1);
    if a != 0 {
      ExpLog(a);
      MulExpExp(Log(a), 0);
    }
    MulComm(a, 1);
  }

  lemma MulNonzero(a: Byte, b: Byte)
    ensures Mul(a, b) == 0 <==> a == 0 || b == 0
  {
    hide *;
    MulByLogs(a, b);
    ExpNonzero(Log(a) + Log(b));
  }

  lemma MulExpAssoc(n: nat, m: nat, k: nat)
    ensures Mul(Exp(n), Mul(Exp(m), Exp(k))) == Mul(Mul(Exp(n), Exp(m)), Exp(k))
  {
    hide *;
    MulExpExp(m, k);
    MulExpExp(n, m + k);
    MulExpExp(n, m);
    MulExpExp(n + m, k);
  }

  lemma MulAssoc(a: Byte, b: Byte, c: Byte)
    ensures Mul(a, Mul(b, c)) == Mul(Mul(a, b), c)
  {
    hide Exp, Log;
    if a != 0 && b != 0 && c != 0 {
      hide *;
      ExpLog(a);
      ExpLog(b);
      ExpLog(c);
      MulExpAssoc(Log(a), Log(b), Log(c));
    }
  }

  lemma MulDistribLeft(a: Byte, b: Byte, c: Byte)
    ensures Mul(a, Add(b, c)) == Add(Mul(a, b), Mul(a, c))
  {
    hide *;
    if a == 0 {
      MulByLogs(a, b);
      MulByLogs(a, c);
      MulByLogs(a, Add(b, c));
      AddLaws(0, 0, 0);
    } else {
      ExpLog(a);
      MulExp(Log(a), b);
      MulExp(Log(a), c);
      MulExp(Log(a), Add(b, c));
      XtimeNLinear(Log(a), b, c);
    }
  }

  lemma MulDistrib(a: Byte, b: Byte, c: Byte)
    ensures Mul(a, Add(b, c)) == Add(Mul(a, b), Mul(a, c))
    ensures Mul(Add(b, c), a) == Add(Mul(b, a), Mul(c, a))
  {
    hide *;
    MulDistribLeft(a, b, c);
    MulComm(a, Add(b, c));
    MulComm(a, b);
    MulComm(a, c);
  }

  lemma MulInv(a: Byte)
    requires a != 0
    ensures Inv(a) == Exp(255 - Log(a))
    ensures Inv(a) != 0 && Mul(a, Inv(a)) == 1 && Mul(Inv(a), a) == 1
  {
    hide Exp, Log, Mul;
    ExpLog(a);
    ExpNonzero(255 - Log(a));
    MulExpExp(Log(a), 255 - Log(a));
    ExpUnit();
    MulComm(a, Inv(a));
  }

  /** Cancellation. */
  lemma MulCancel(a: Byte, b: Byte, c: Byte)
    requires a != 0 && Mul(a, b) == Mul(a, c)
    ensures b == c
  {
    hide *;
    MulDistrib(a, b, c);
    MulNonzero(a, Add(b, c));
    AddEqual(b, c);
    AddEqual(Mul(a, b), Mul(a, c));
  }
}
