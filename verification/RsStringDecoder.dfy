/** rs_decode_string (src/rs.c:154-337), in place on one string of the sector. */
module RsStringDecoder {
  import opened RsTables
  import opened Gf256
  import opened RsCode
  import opened RsEval
  import opened RsDecoder
  import opened RsStrings
  import opened RsBerlekamp

  lemma LogBelow(a: Byte)
    ensures Log(a) < 255
  {
  }

  lemma RootStep(sigma: Poly, e: nat)
    requires e < 256
    ensures FirstRoot(sigma, e) == if Locator(sigma, e) == 0 then e else FirstRoot(sigma, e + 1)
    ensures FirstRoot(sigma, 256) == 256
  {
    hide Locator;
  }

  /** The search at rs.c:278-287; 256 stands for no root. */
  method SearchRoot(sigma: array<Byte>) returns (e: nat)
    requires sigma.Length == 5
    ensures e == FirstRoot(sigma[..], 0)
  {
    hide Exp, Log, Add, FirstRoot;
    var ls1, ls2 := Log(sigma[1]), Log(sigma[2]);
    LogBelow(sigma[1]);
    LogBelow(sigma[2]);
    e := 0;
    RootStep(sigma[..], 0);
    while e < 256
      invariant e <= 256 && FirstRoot(sigma[..], 0) == FirstRoot(sigma[..], e)
    {
      RootStep(sigma[..], e);
      var res := sigma[0];
      MulZero(0, res);
      if sigma[1] != 0 {
        res := Add(res, TExp(255 - e + ls1));
      }
      res := Add(res, TExp(2 * (255 - e) + ls2));
      if res == 0 {
        return;
      }
      e := e + 1;
    }
  }

  /** rs.c:300-307 for one of the two errors. */
  method ComputeError(omega: array<Byte>, e: nat, f: nat) returns (err: Byte)
    requires omega.Length == 5 && e <= 35 && f <= 35
    ensures err == ErrorValue(omega[..], e, f)
  {
    hide Exp, Log, Add;
    LogBelow(omega[1]);
    LogBelow(omega[2]);
    err := omega[0];
    MulZero(0, err);
    if omega[1] != 0 {
      err := Add(err, TExp(Log(omega[1]) + 255 - e));
    }
    MulZero(0, err);
    if omega[2] != 0 {
      err := Add(err, TExp(Log(omega[2]) + 2 * (255 - e)));
    }
    assert err == Evaluator(omega[..], e);
    LogBelow(err);
    var sum := (Log(err) + e) % 256;
    LogBelow(Add(1, TExp(255 + f - e)));
    var div := Log(Add(1, TExp(255 + f - e)));
    err := TExp(255 + sum - div);
  }

  lemma PackEqual(r: Rem4, s: Rem4)
    ensures Pack(r) == Pack(s) <==> r == s
  {
    hide Pack;
    RegisterBytes(r);
    RegisterBytes(s);
  }

  lemma TailWord(w: seq<Byte>)
    requires |w| == LEN
    ensures w[DATA..] == Bytes(Rem4(w[32], w[33], w[34], w[35]))
  {
  }

  lemma BytesEqual(r: Rem4, s: Rem4)
    ensures Bytes(r) == Bytes(s) <==> r == s
  {
    assert Bytes(r)[0] == r.r3 && Bytes(r)[1] == r.r2 && Bytes(r)[2] == r.r1 && Bytes(r)[3] == r.r0;
    assert Bytes(s)[0] == s.r3 && Bytes(s)[1] == s.r2 && Bytes(s)[2] == s.r1 && Bytes(s)[3] == s.r0;
  }

  lemma CodeTest(w: seq<Byte>)
    requires |w| == LEN
    ensures IsCode(w) <==> Pack(Rem4(w[32], w[33], w[34], w[35])) == Pack(Ecc(w[..DATA]))
  {
    hide Pack, Ecc, Bytes;
    var ref := Rem4(w[32], w[33], w[34], w[35]);
    PackEqual(ref, Ecc(w[..DATA]));
    BytesEqual(ref, Ecc(w[..DATA]));
    TailWord(w);
  }

  lemma CheckBytesAt(s: seq<Byte>, off: nat, step: nat)
    requires InRange(|s|, off, step)
    ensures off + step * 35 < |s| && off + step * 34 < |s| && off + step * 33 < |s| && off + step * 32 < |s|
    ensures var w := Word(s, off, step);
      w[32] == s[off + step * 32] && w[33] == s[off + step * 33] &&
      w[34] == s[off + step * 34] && w[35] == s[off + step * 35]
  {
    hide Word, InRange;
    WordAt(s, off, step, 32);
    WordAt(s, off, step, 33);
    WordAt(s, off, step, 34);
    WordAt(s, off, step, 35);
  }

  /** The comparison at rs.c:163 tells code words from others. */
  method Matches(sector: array<Byte>, off: nat, step: nat) returns (ok: bool)
    requires InRange(sector.Length, off, step)
    ensures ok <==> IsCode(Word(sector[..], off, step))
  {
    hide Pack, Ecc, Word, InRange, IsCode;
    var ecc := EccBlock(sector, off, step);
    CheckBytesAt(sector[..], off, step);
    CodeTest(Word(sector[..], off, step));
    var ref := Pack(Rem4(sector[off + step * 32], sector[off + step * 33], sector[off + step * 34],
      sector[off + step * 35]));
    ok := ref == ecc;
  }

  /** sector[off + step*(35-e)] ^= v */
  method FixSymbol(sector: array<Byte>, off: nat, step: nat, e: nat, v: Byte)
    requires InRange(sector.Length, off, step) && e < LEN
    modifies sector
    ensures Word(sector[..], off, step) == Fix(old(Word(sector[..], off, step)), e, v)
    ensures OnlyString(old(sector[..]), sector[..], off, step)
  {
    hide Word, InRange, OnlyString, Add;
    WordAt(sector[..], off, step, LEN - 1 - e);
    Store(sector, off, step, LEN - 1 - e, Add(sector[off + step * (LEN - 1 - e)], v));
  }

  lemma OnlyStringRefl(s: seq<Byte>, off: nat, step: nat)
    ensures OnlyString(s, s, off, step)
  {
  }

  method DecodeString(sector: array<Byte>, off: nat, step: nat) returns (code: int)
    requires InRange(sector.Length, off, step)
    modifies sector
    ensures Decoded(Word(sector[..], off, step), code) == DecodeWord(old(Word(sector[..], off, step)))
    ensures OnlyString(old(sector[..]), sector[..], off, step)
  {
    hide Word, InRange, OnlyString, IsCode, BmRun, Syndromes, FirstRoot, ErrorValue, Fix, Add, Log, Exp;
    ghost var s0 := sector[..];
    ghost var w := Word(s0, off, step);
    OnlyStringRefl(s0, off, step);
    var same := Matches(sector, off, step);
    if same {
      return 0;
    }
    var syn := ComputeSyndromes(sector, off, step);
    SyndromesStart(w);
    var sigma, omega := BerlekampMassey(syn);
    assert sector[..] == s0;
    LogOne();
    if sigma[3] != 0 || sigma[4] != 0 {
      return -1;
    }
    if sigma[2] != 0 && sigma[0] != 0 {
      var ls2 := Log(sigma[2]);
      LogBelow(sigma[2]);
      var e := SearchRoot(sigma);
      if e > 35 {
        return -1;
      }
      var f := ls2 - e - Log(sigma[0]);
      if f < 0 {
        f := f + 255;
      }
      if f > 35 {
        return -1;
      }
      var err1 := ComputeError(omega, e, f);
      var err2 := ComputeError(omega, f, e);
      FixSymbol(sector, off, step, e, err1);
      ghost var s1 := sector[..];
      FixSymbol(sector, off, step, f, err2);
      OnlyStringTrans(s0, s1, sector[..], off, step);
      return 2;
    } else if sigma[1] != 0 && sigma[0] != 0 {
      var e := Log(sigma[1]) - Log(sigma[0]);
      if e > 35 {
        return -1;
      }
      FixSymbol(sector, off, step, e, Add(sigma[1], omega[1]));
      return 1;
    } else {
      return -1;
    }
  }

  lemma SyndromesStart(w: seq<Byte>)
    ensures Syndromes(w)[0] == 1
  {
    hide Eval, Exp;
  }
}
