/**
 The 36x36 product code of src/rs.c:339-378: rs_encode and rs_decode on a whole sector, with
 their overlapping in-place layout moves, and what the pair guarantees.
 */
module RsSector {
  import opened Gf256
  import opened RsCode
  import opened RsDecoder
  import opened RsStrings

  const SIZE := 1296
  const PAYLOAD := 1024

  type Sector = s: seq<Byte> | |s| == SIZE witness seq(SIZE, _ => 0)

  function Row(s: Sector, r: nat): (w: seq<Byte>)
    requires r < LEN
    ensures |w| == LEN
  {
    Word(s, LEN * r, 1)
  }

  function Col(s: Sector, c: nat): (w: seq<Byte>)
    requires c < LEN
    ensures |w| == LEN
  {
    Word(s, c, LEN)
  }

  lemma RowAt(s: Sector, r: nat, k: nat)
    requires r < LEN && k < LEN
    ensures Row(s, r)[k] == s[36 * r + k]
  {
  }

  lemma ColAt(s: Sector, c: nat, k: nat)
    requires c < LEN && k < LEN
    ensures Col(s, c)[k] == s[36 * k + c]
  {
  }

  lemma OnRow(j: nat, r: nat)
    requires j < SIZE && r < LEN
    ensures OnString(j, LEN * r, 1) <==> j / 36 == r
  {
    if j / 36 == r {
      assert j == At(LEN * r, 1, j % 36);
    }
  }

  lemma OnCol(j: nat, c: nat)
    requires j < SIZE && c < LEN
    ensures OnString(j, c, LEN) <==> j % 36 == c
  {
    if j % 36 == c {
      assert j == At(c, LEN, j / 36);
    }
  }

  /** The sector after the first n rows have been decoded. */
  function RowPass(s: Sector, n: nat): Sector
    requires n <= LEN
  {
    seq(SIZE, j requires 0 <= j < SIZE => if j / 36 < n then DecodeWord(Row(s, j / 36)).word[j % 36] else s[j])
  }

  /** The sector after the first n columns have been decoded. */
  function ColPass(s: Sector, n: nat): Sector
    requires n <= LEN
  {
    seq(SIZE, j requires 0 <= j < SIZE => if j % 36 < n then DecodeWord(Col(s, j % 36)).word[j / 36] else s[j])
  }

  lemma RowPassRow(s: Sector, n: nat, r: nat)
    requires n <= LEN && r < LEN
    ensures Row(RowPass(s, n), r) == if r < n then DecodeWord(Row(s, r)).word else Row(s, r)
  {
    hide DecodeWord, Row;
    forall k | 0 <= k < LEN
      ensures Row(RowPass(s, n), r)[k] == (if r < n then DecodeWord(Row(s, r)).word else Row(s, r))[k]
    {
      RowAt(RowPass(s, n), r, k);
      RowAt(s, r, k);
      assert (36 * r + k) / 36 == r && (36 * r + k) % 36 == k;
    }
  }

  lemma ColPassCol(s: Sector, n: nat, c: nat)
    requires n <= LEN && c < LEN
    ensures Col(ColPass(s, n), c) == if c < n then DecodeWord(Col(s, c)).word else Col(s, c)
  {
    hide DecodeWord, Col;
    forall k | 0 <= k < LEN
      ensures Col(ColPass(s, n), c)[k] == (if c < n then DecodeWord(Col(s, c)).word else Col(s, c))[k]
    {
      ColAt(ColPass(s, n), c, k);
      ColAt(s, c, k);
      assert (36 * k + c) / 36 == k && (36 * k + c) % 36 == c;
    }
  }

  lemma RowPassStep(s: Sector, t: Sector, r: nat)
    requires r < LEN
    requires Row(t, r) == DecodeWord(Row(RowPass(s, r), r)).word
    requires OnlyString(RowPass(s, r), t, LEN * r, 1)
    ensures t == RowPass(s, r + 1)
  {
    hide DecodeWord, Row, OnString;
    RowPassRow(s, r, r);
    forall j | 0 <= j < SIZE ensures t[j] == RowPass(s, r + 1)[j] {
      OnRow(j, r);
      if j / 36 == r {
        RowAt(t, r, j % 36);
      } else {
        assert t[j] == RowPass(s, r)[j];
      }
    }
  }

  lemma ColPassStep(s: Sector, t: Sector, c: nat)
    requires c < LEN
    requires Col(t, c) == DecodeWord(Col(ColPass(s, c), c)).word
    requires OnlyString(ColPass(s, c), t, c, LEN)
    ensures t == ColPass(s, c + 1)
  {
    hide DecodeWord, Col, OnString;
    ColPassCol(s, c, c);
    forall j | 0 <= j < SIZE ensures t[j] == ColPass(s, c + 1)[j] {
      OnCol(j, c);
      if j % 36 == c {
        ColAt(t, c, j / 36);
      } else {
        assert t[j] == ColPass(s, c)[j];
      }
    }
  }

  /** Symbols reported corrected in the first n rows; rows that cannot be decoded count nothing. */
  function RowCount(s: Sector, n: nat): nat
    requires n <= LEN
  {
    hide DecodeWord, Row;
    if n == 0 then 0
    else
      var code := DecodeWord(Row(s, n - 1)).code;
      RowCount(s, n - 1) + if code == -1 then 0 else code
  }

  predicate Lost(s: Sector, c: nat)
    requires c < DATA
  {
    DecodeWord(Col(s, c)).code == -1
  }

  /** The first column from c on that cannot be decoded; 32 if there is none. */
  function FirstBadCol(s: Sector, c: nat): (r: nat)
    requires c <= DATA
    ensures c <= r <= DATA
    decreases DATA - c
  {
    hide Lost;
    if c == DATA || Lost(s, c) then c else FirstBadCol(s, c + 1)
  }

  lemma {:induction false} FirstBadColIs(s: Sector, c: nat)
    requires c <= DATA
    ensures var r := FirstBadCol(s, c); (forall k :: c <= k < r ==> !Lost(s, k)) && (r < DATA ==> Lost(s, r))
    decreases DATA - c
  {
    hide Lost;
    if c < DATA && !Lost(s, c) {
      FirstBadColIs(s, c + 1);
    }
  }

  /** Symbols corrected in the first n columns. */
  function ColCount(s: Sector, n: nat): nat
    requires n <= DATA
  {
    hide DecodeWord, Col;
    if n == 0 then 0
    else
      var code := DecodeWord(Col(s, n - 1)).code;
      ColCount(s, n - 1) + if code == -1 then 0 else code
  }

  /** What rs_decode returns. */
  function DecodeCode(s: Sector): int {
    var t := RowPass(s, LEN);
    if FirstBadCol(t, 0) < DATA then -1 else RowCount(s, LEN) + ColCount(t, DATA)
  }

  /** The 1024 data bytes of a sector in encoded layout. */
  function Unpack(s: Sector): (p: seq<Byte>)
    ensures |p| == PAYLOAD
  {
    seq(PAYLOAD, j requires 0 <= j < PAYLOAD => s[36 * (j / 32) + j % 32])
  }
}

/** The sector codec as the source runs it. */
module RsSectorCodec {
  import opened Gf256
  import opened RsCode
  import opened RsEval
  import opened RsDecoder
  import opened RsStrings
  import opened RsStringDecoder
  import opened RsSector

  lemma RowInRange(r: nat)
    requires r < LEN
    ensures InRange(SIZE, LEN * r, 1)
  {
  }

  lemma ColInRange(c: nat)
    requires c < LEN
    ensures InRange(SIZE, c, LEN)
  {
  }

  lemma PassStarts(s: Sector)
    ensures RowPass(s, 0) == s && ColPass(s, 0) == s
  {
    hide DecodeWord, Row, Col;
  }

  method DecodeRows(sector: array<Byte>) returns (ecount: nat)
    requires sector.Length == SIZE
    modifies sector
    ensures sector[..] == RowPass(old(sector[..]), LEN) && ecount == RowCount(old(sector[..]), LEN)
  {
    hide DecodeWord, InRange, OnlyString, Word, RowPass;
    ghost var s: Sector := sector[..];
    PassStarts(s);
    ecount := 0;
    for i := 0 to LEN
      invariant sector[..] == RowPass(s, i) && ecount == RowCount(s, i)
    {
      RowInRange(i);
      RowPassRow(s, i, i);
      var e := DecodeString(sector, LEN * i, 1);
      if e != -1 {
        ecount := ecount + e;
      }
      RowPassStep(s, sector[..], i);
    }
  }

  method DecodeColumns(sector: array<Byte>) returns (ecount: int)
    requires sector.Length == SIZE
    modifies sector
    ensures var s := old(sector[..]); var bad := FirstBadCol(s, 0);
      if bad < DATA then ecount == -1 && sector[..] == ColPass(s, bad + 1)
      else ecount == ColCount(s, DATA) && sector[..] == ColPass(s, DATA)
  {
    hide DecodeWord, InRange, OnlyString, Word, ColPass;
    ghost var s: Sector := sector[..];
    PassStarts(s);
    ecount := 0;
    for i := 0 to DATA
      invariant sector[..] == ColPass(s, i) && i <= FirstBadCol(s, 0) && ecount == ColCount(s, i)
      invariant FirstBadCol(s, 0) == FirstBadCol(s, i)
    {
      ColInRange(i);
      ColPassCol(s, i, i);
      var e := DecodeString(sector, i, LEN);
      ColPassStep(s, sector[..], i);
      if e == -1 {
        return -1;
      }
      ecount := ecount + e;
    }
  }

  function Moved(s: Sector, dst: nat, src: nat, n: nat): Sector
    requires dst + n <= SIZE && src + n <= SIZE
  {
    seq(SIZE, j requires 0 <= j < SIZE => if dst <= j < dst + n then s[j - dst + src] else s[j])
  }

  lemma MovedForward(s: Sector, dst: nat, src: nat, i: nat)
    requires dst <= src && dst + i < SIZE && src + i < SIZE
    ensures Moved(s, dst, src, i)[src + i] == s[src + i]
    ensures Moved(s, dst, src, i)[dst + i := s[src + i]] == Moved(s, dst, src, i + 1)
  {
  }

  lemma MovedBackward(s: Sector, dst: nat, src: nat, n: nat)
    requires 0 < src < dst && dst + n <= SIZE && src + n <= SIZE
    ensures Moved(s, dst, src, n)[src - 1] == s[src - 1]
    ensures Moved(s, dst, src, n)[dst - 1 := s[src - 1]] == Moved(s, dst - 1, src - 1, n + 1)
  {
  }

  /** memmove(sector + dst, sector + src, n) */
  method Memmove(sector: array<Byte>, dst: nat, src: nat, n: nat)
    requires sector.Length == SIZE && dst + n <= SIZE && src + n <= SIZE
    modifies sector
    ensures sector[..] == Moved(old(sector[..]), dst, src, n)
  {
    hide Moved;
    ghost var s: Sector := sector[..];
    if dst <= src {
      MovedNothing(s, dst, src);
      for i := 0 to n
        invariant sector[..] == Moved(s, dst, src, i)
      {
        MovedForward(s, dst, src, i);
        assert sector[src + i] == sector[..][src + i];
        sector[dst + i] := sector[src + i];
      }
    } else {
      MovedNothing(s, dst + n, src + n);
      for i := n downto 0
        invariant sector[..] == Moved(s, dst + i, src + i, n - i)
      {
        MovedBackward(s, dst + i + 1, src + i + 1, n - i - 1);
        assert sector[src + i] == sector[..][src + i];
        sector[dst + i] := sector[src + i];
      }
    }
  }

  lemma MovedNothing(s: Sector, dst: nat, src: nat)
    requires dst <= SIZE && src <= SIZE
    ensures Moved(s, dst, src, 0) == s
  {
  }

  /** Rows below i closed up to 32 bytes each. */
  function Closing(s: Sector, i: nat): Sector
    requires i <= DATA
  {
    seq(SIZE, j requires 0 <= j < SIZE => if j < 32 * i then s[36 * (j / 32) + j % 32] else s[j])
  }

  lemma ClosingStep(s: Sector, i: nat)
    requires 1 <= i < DATA
    ensures Moved(Closing(s, i), 32 * i, 36 * i, 32) == Closing(s, i + 1)
  {
    forall j | 0 <= j < SIZE ensures Moved(Closing(s, i), 32 * i, 36 * i, 32)[j] == Closing(s, i + 1)[j] {
      if 32 * i <= j < 32 * i + 32 {
        assert j / 32 == i && j % 32 == j - 32 * i;
      }
    }
  }

  lemma ClosingEnds(s: Sector)
    ensures Closing(s, 1) == s
    ensures Closing(s, DATA)[..PAYLOAD] == Unpack(s) && Closing(s, DATA)[PAYLOAD..] == s[PAYLOAD..]
  {
    forall j | 0 <= j < 32 ensures s[36 * (j / 32) + j % 32] == s[j] {
      assert j / 32 == 0 && j % 32 == j;
    }
  }

  /** rs.c:374-375: close the gaps the check bytes leave. */
  method CloseGaps(sector: array<Byte>)
    requires sector.Length == SIZE
    modifies sector
    ensures sector[..PAYLOAD] == Unpack(old(sector[..]))
    ensures sector[PAYLOAD..] == old(sector[PAYLOAD..])
  {
    hide Moved, Closing, Unpack;
    ghost var s: Sector := sector[..];
    ClosingEnds(s);
    for i := 1 to DATA
      invariant sector[..] == Closing(s, i)
    {
      ClosingStep(s, i);
      Memmove(sector, i * 32, i * 36, 32);
    }
    assert sector[..PAYLOAD] == sector[..][..PAYLOAD] && sector[PAYLOAD..] == sector[..][PAYLOAD..];
  }

  /** Rows above i spread to 36 bytes each. */
  function Opening(s: Sector, i: nat): Sector {
    seq(SIZE, j requires 0 <= j < SIZE =>
      if 36 * (i + 1) <= j < 36 * 32 && j % 36 < 32 then s[32 * (j / 36) + j % 36] else s[j])
  }

  lemma OpeningStep(s: Sector, i: nat)
    requires 1 <= i < DATA
    ensures Moved(Opening(s, i), 36 * i, 32 * i, 32) == Opening(s, i - 1)
  {
    forall j | 0 <= j < SIZE ensures Moved(Opening(s, i), 36 * i, 32 * i, 32)[j] == Opening(s, i - 1)[j] {
      if 36 * i <= j < 36 * i + 36 {
        assert j / 36 == i && j % 36 == j - 36 * i;
      }
    }
  }

  lemma OpeningEnds(s: Sector)
    ensures Opening(s, 31) == s && Unpack(Opening(s, 0)) == s[..PAYLOAD]
  {
    forall j | 0 <= j < PAYLOAD ensures Opening(s, 0)[36 * (j / 32) + j % 32] == s[j] {
      var m := 36 * (j / 32) + j % 32;
      assert m / 36 == j / 32 && m % 36 == j % 32;
    }
  }

  /** rs.c:343-344: spread the rows to make room for check bytes, last row first. */
  method OpenGaps(sector: array<Byte>)
    requires sector.Length == SIZE
    modifies sector
    ensures Unpack(sector[..]) == old(sector[..PAYLOAD])
  {
    hide Moved, Opening, Unpack;
    ghost var s: Sector := sector[..];
    OpeningEnds(s);
    var i := 31;
    while i > 0
      invariant 0 <= i <= 31 && sector[..] == Opening(s, i)
    {
      OpeningStep(s, i);
      Memmove(sector, 36 * i, 32 * i, 32);
      i := i - 1;
    }
  }

  /** rs_decode: the result, and the whole sector afterwards.  When a column cannot be decoded the
      layout is left encoded. */
  method Decode(sector: array<Byte>) returns (e: int)
    requires sector.Length == SIZE
    modifies sector
    ensures var s := old(sector[..]); var t := RowPass(s, LEN);
      e == DecodeCode(s) &&
      if e == -1 then sector[..] == ColPass(t, FirstBadCol(t, 0) + 1)
      else sector[..PAYLOAD] == Unpack(ColPass(t, DATA)) && sector[PAYLOAD..] == ColPass(t, DATA)[PAYLOAD..]
  {
    hide DecodeWord, RowPass, ColPass, FirstBadCol, RowCount, ColCount, Unpack;
    var rows := DecodeRows(sector);
    var cols := DecodeColumns(sector);
    if cols == -1 {
      return -1;
    }
    CloseGaps(sector);
    e := rows + cols;
  }

  // ---------------------------------------------------------- rs_encode

  /** The encoded form of a payload: the data in place, and every row and data column a code word. */
  predicate IsEncoding(p: seq<Byte>, c: Sector) {
    Unpack(c) == p &&
    (forall i :: 0 <= i < DATA ==> IsCode(Col(c, i))) &&
    (forall i :: 0 <= i < LEN ==> IsCode(Row(c, i)))
  }

  /** The data columns written so far, data unchanged. */
  predicate ColumnsEncoded(p: seq<Byte>, s: Sector, n: nat) {
    Unpack(s) == p && n <= DATA && forall i :: 0 <= i < n ==> IsCode(Col(s, i))
  }

  lemma ColumnWritten(p: seq<Byte>, s: Sector, t: Sector, n: nat)
    requires n < DATA && ColumnsEncoded(p, s, n)
    requires Col(t, n) == Encoded(Col(s, n)) && OnlyString(s, t, n, LEN)
    ensures ColumnsEncoded(p, t, n + 1)
  {
    hide IsCode, Col, Encoded, OnString;
    EncodedIsCode(Col(s, n));
    forall i | 0 <= i < n ensures Col(t, i) == Col(s, i) {
      forall k | 0 <= k < LEN ensures Col(t, i)[k] == Col(s, i)[k] {
        ColAt(t, i, k);
        ColAt(s, i, k);
        OnCol(36 * k + i, n);
      }
    }
    forall j | 0 <= j < PAYLOAD ensures Unpack(t)[j] == Unpack(s)[j] {
      var r, k := j / 32, j % 32;
      OnCol(36 * r + k, n);
      assert (36 * r + k) % 36 == k;
      if k == n {
        ColAt(t, n, r);
        ColAt(s, n, r);
        assert Encoded(Col(s, n))[..DATA][r] == Col(s, n)[..DATA][r];
      }
    }
  }

  predicate RowsEncoded(p: seq<Byte>, s: Sector, n: nat) {
    ColumnsEncoded(p, s, DATA) && n <= LEN && forall i :: 0 <= i < n ==> IsCode(Row(s, i))
  }

  /** Writing the check bytes of row n leaves every other cell alone. */
  lemma RowCell(s: Sector, t: Sector, n: nat, r: nat, k: nat)
    requires n < LEN && r < LEN && k < LEN && (r != n || k < DATA)
    requires Row(t, n) == Encoded(Row(s, n)) && OnlyString(s, t, LEN * n, 1)
    ensures t[36 * r + k] == s[36 * r + k]
  {
    hide IsCode, Row, Encoded, OnString;
    EncodedIsCode(Row(s, n));
    OnRow(36 * r + k, n);
    assert (36 * r + k) / 36 == r;
    if r == n {
      RowAt(t, n, k);
      RowAt(s, n, k);
      assert Encoded(Row(s, n))[..DATA][k] == Row(s, n)[..DATA][k];
    }
  }

  lemma RowWritten(p: seq<Byte>, s: Sector, t: Sector, n: nat)
    requires n < LEN && RowsEncoded(p, s, n)
    requires Row(t, n) == Encoded(Row(s, n)) && OnlyString(s, t, LEN * n, 1)
    ensures RowsEncoded(p, t, n + 1)
  {
    hide IsCode, Col, Row, Encoded, OnString, OnlyString;
    EncodedIsCode(Row(s, n));
    forall i | 0 <= i < n ensures Row(t, i) == Row(s, i) {
      forall k | 0 <= k < LEN ensures Row(t, i)[k] == Row(s, i)[k] {
        RowAt(t, i, k);
        RowAt(s, i, k);
        RowCell(s, t, n, i, k);
      }
    }
    forall i | 0 <= i < DATA ensures Col(t, i) == Col(s, i) {
      forall k | 0 <= k < LEN ensures Col(t, i)[k] == Col(s, i)[k] {
        ColAt(t, i, k);
        ColAt(s, i, k);
        RowCell(s, t, n, k, i);
      }
    }
    forall j | 0 <= j < PAYLOAD ensures Unpack(t)[j] == Unpack(s)[j] {
      RowCell(s, t, n, j / 32, j % 32);
    }
  }

  /** rs_encode turns the payload in the first 1024 bytes into its encoding. */
  method Encode(sector: array<Byte>)
    requires sector.Length == SIZE
    modifies sector
    ensures IsEncoding(old(sector[..PAYLOAD]), sector[..])
  {
    hide Unpack, IsCode, Word, Encoded, OnlyString, InRange;
    ghost var p := sector[..PAYLOAD];
    OpenGaps(sector);
    for i := 0 to DATA
      invariant ColumnsEncoded(p, sector[..], i)
    {
      ghost var s := sector[..];
      ColInRange(i);
      EncodeString(sector, i, LEN);
      ColumnWritten(p, s, sector[..], i);
    }
    for i := 0 to LEN
      invariant RowsEncoded(p, sector[..], i)
    {
      ghost var s := sector[..];
      RowInRange(i);
      EncodeString(sector, LEN * i, 1);
      RowWritten(p, s, sector[..], i);
    }
  }
}

/** What rs_decode gives back after damage. */
module RsSectorTheorems {
  import opened RsTables
  import opened Gf256
  import opened Gf256Laws
  import opened RsCode
  import opened RsEval
  import opened RsDecoder
  import opened RsSingleError
  import opened RsSector
  import opened RsSectorCodec

  /** A word that differs from a code word in at most one place. */
  predicate AtMostOneWrong(w: seq<Byte>, c: seq<Byte>) {
    |w| == LEN && |c| == LEN &&
    forall i, j :: 0 <= i < LEN && 0 <= j < LEN && w[i] != c[i] && w[j] != c[j] ==> i == j
  }

  lemma OneWrongIsFix(w: seq<Byte>, c: seq<Byte>, i: nat)
    requires AtMostOneWrong(w, c) && i < LEN && w[i] != c[i]
    ensures Add(c[i], w[i]) != 0 && w == Fix(c, LEN - 1 - i, Add(c[i], w[i]))
  {
    hide Add;
    AddEqual(c[i], w[i]);
    AddLaws(c[i], c[i], w[i]);
    AddLaws(w[i], 0, 0);
  }

  /** At most one wrong symbol: the word is restored and the count is exact. */
  lemma NearWordDecodes(w: seq<Byte>, c: seq<Byte>)
    requires IsCode(c) && AtMostOneWrong(w, c)
    ensures DecodeWord(w) == Decoded(c, if w == c then 0 else 1)
  {
    hide IsCode, Fix, BmRun, CorrectWord;
    if w != c {
      var i :| 0 <= i < LEN && w[i] != c[i];
      OneWrongIsFix(w, c, i);
      hide DecodeWord;
      SingleErrorCorrected(c, LEN - 1 - i, Add(c[i], w[i]));
    }
  }

  /** All rows but possibly one come back from the row pass as they were written. */
  predicate RowsRecover(s: Sector, c: Sector, bad: int) {
    forall r :: 0 <= r < LEN && r != bad ==> DecodeWord(Row(s, r)).word == Row(c, r)
  }

  /** After the row pass every data column has its only wrong symbols in row `bad`. */
  lemma ColumnsNearCode(c: Sector, s: Sector, bad: int, i: nat)
    requires RowsRecover(s, c, bad) && i < DATA
    ensures AtMostOneWrong(Col(RowPass(s, LEN), i), Col(c, i))
  {
    hide DecodeWord, Row, Col, RowPass;
    var t := RowPass(s, LEN);
    forall k | 0 <= k < LEN && k != bad ensures Col(t, i)[k] == Col(c, i)[k] {
      ColAt(t, i, k);
      ColAt(c, i, k);
      RowPassRow(s, LEN, k);
      RowAt(t, k, i);
      RowAt(c, k, i);
    }
  }

  lemma {:induction false} NoBadColumn(t: Sector, i: nat)
    requires i <= DATA && forall k :: i <= k < DATA ==> DecodeWord(Col(t, k)).code != -1
    ensures FirstBadCol(t, i) == DATA
    decreases DATA - i
  {
    hide DecodeWord, Col;
    if i < DATA {
      NoBadColumn(t, i + 1);
    }
  }

  /** One row beyond repair does not matter: the column pass repairs what it left behind. */
  lemma DecodeRestores(p: seq<Byte>, c: Sector, s: Sector, bad: int)
    requires IsEncoding(p, c) && RowsRecover(s, c, bad)
    ensures DecodeCode(s) >= 0
    ensures Unpack(ColPass(RowPass(s, LEN), DATA)) == p
  {
    hide DecodeWord, Row, Col, RowPass, ColPass, IsCode, AtMostOneWrong, RowsRecover, FirstBadCol;
    var t := RowPass(s, LEN);
    forall i | 0 <= i < DATA
      ensures DecodeWord(Col(t, i)).word == Col(c, i) && DecodeWord(Col(t, i)).code != -1
    {
      ColumnsNearCode(c, s, bad, i);
      NearWordDecodes(Col(t, i), Col(c, i));
    }
    NoBadColumn(t, 0);
    var u := ColPass(t, DATA);
    forall j | 0 <= j < PAYLOAD ensures Unpack(u)[j] == p[j] {
      var r, k := j / 32, j % 32;
      ColPassCol(t, DATA, k);
      ColAt(u, k, r);
      ColAt(c, k, r);
      assert Unpack(c)[j] == c[36 * r + k];
    }
  }

  /** A whole row replaced by arbitrary bytes, every other row with at most one wrong byte. */
  lemma RowLossRepaired(p: seq<Byte>, c: Sector, s: Sector, bad: int)
    requires IsEncoding(p, c)
    requires forall r :: 0 <= r < LEN && r != bad ==> AtMostOneWrong(Row(s, r), Row(c, r))
    ensures DecodeCode(s) >= 0
    ensures Unpack(ColPass(RowPass(s, LEN), DATA)) == p
  {
    hide DecodeWord, Row, Col, RowPass, ColPass, IsCode, AtMostOneWrong, Unpack;
    forall r | 0 <= r < LEN && r != bad ensures DecodeWord(Row(s, r)).word == Row(c, r) {
      NearWordDecodes(Row(s, r), Row(c, r));
    }
    DecodeRestores(p, c, s, bad);
  }

  // ---------------------------------------------------------- the exact count

  /** Wrong bytes among the first n of the sector. */
  function WrongBytes(s: Sector, c: Sector, n: nat): nat
    requires n <= SIZE
  {
    if n == 0 then 0 else WrongBytes(s, c, n - 1) + if s[n - 1] == c[n - 1] then 0 else 1
  }

  lemma {:induction false} WrongInRow(s: Sector, c: Sector, r: nat, k: nat)
    requires r < LEN && k <= LEN && AtMostOneWrong(Row(s, r), Row(c, r))
    ensures WrongBytes(s, c, 36 * r + k)
         == WrongBytes(s, c, 36 * r) + if Row(s, r)[..k] == Row(c, r)[..k] then 0 else 1
  {
    hide Row;
    var w, v := Row(s, r), Row(c, r);
    if k == 0 {
    } else {
      WrongInRow(s, c, r, k - 1);
      RowAt(s, r, k - 1);
      RowAt(c, r, k - 1);
      assert w[..k] == w[..k - 1] + [w[k - 1]] && v[..k] == v[..k - 1] + [v[k - 1]];
      if w[..k - 1] != v[..k - 1] {
        var i :| 0 <= i < k - 1 && w[..k - 1][i] != v[..k - 1][i];
        assert w[i] != v[i];
        assert w[..k][i] != v[..k][i];
      }
    }
  }

  lemma {:induction false} RowCountIsWrong(p: seq<Byte>, c: Sector, s: Sector, n: nat)
    requires IsEncoding(p, c) && n <= LEN
    requires forall r :: 0 <= r < LEN ==> AtMostOneWrong(Row(s, r), Row(c, r))
    ensures RowCount(s, n) == WrongBytes(s, c, 36 * n)
  {
    hide DecodeWord, Row, Col, IsCode, AtMostOneWrong, Unpack;
    if n > 0 {
      RowCountIsWrong(p, c, s, n - 1);
      NearWordDecodes(Row(s, n - 1), Row(c, n - 1));
      WrongInRow(s, c, n - 1, LEN);
      assert Row(s, n - 1)[..LEN] == Row(s, n - 1) && Row(c, n - 1)[..LEN] == Row(c, n - 1);
    }
  }

  lemma {:induction false} CleanColumnsCountNothing(t: Sector, n: nat)
    requires n <= DATA && forall k :: 0 <= k < DATA ==> DecodeWord(Col(t, k)).code == 0
    ensures ColCount(t, n) == 0
  {
    hide DecodeWord, Col;
    if n > 0 {
      CleanColumnsCountNothing(t, n - 1);
    }
  }

  /** At most one wrong byte in every row: the payload comes back, and the result counts them all. */
  lemma ScatteredErrorsCounted(p: seq<Byte>, c: Sector, s: Sector)
    requires IsEncoding(p, c)
    requires forall r :: 0 <= r < LEN ==> AtMostOneWrong(Row(s, r), Row(c, r))
    ensures DecodeCode(s) == WrongBytes(s, c, SIZE)
    ensures Unpack(ColPass(RowPass(s, LEN), DATA)) == p
  {
    hide DecodeWord, Row, Col, RowPass, ColPass, IsCode, AtMostOneWrong, Unpack, FirstBadCol, RowCount, WrongBytes;
    var t := RowPass(s, LEN);
    RowLossRepaired(p, c, s, -1);
    forall i | 0 <= i < DATA ensures DecodeWord(Col(t, i)).code == 0 {
      ColumnRestored(p, c, s, i);
      ColumnClean(p, c, i);
    }
    CleanColumnsCountNothing(t, DATA);
    RowCountIsWrong(p, c, s, LEN);
  }

  lemma ColumnClean(p: seq<Byte>, c: Sector, i: nat)
    requires IsEncoding(p, c) && i < DATA
    ensures DecodeWord(Col(c, i)).code == 0
  {
    hide IsCode, Col, Row, Unpack;
  }

  lemma ColumnRestored(p: seq<Byte>, c: Sector, s: Sector, i: nat)
    requires IsEncoding(p, c) && i < DATA
    requires forall r :: 0 <= r < LEN ==> AtMostOneWrong(Row(s, r), Row(c, r))
    ensures Col(RowPass(s, LEN), i) == Col(c, i)
  {
    hide DecodeWord, Row, Col, RowPass, IsCode, AtMostOneWrong, Unpack;
    var t := RowPass(s, LEN);
    forall k | 0 <= k < LEN ensures Col(t, i)[k] == Col(c, i)[k] {
      NearWordDecodes(Row(s, k), Row(c, k));
      ColAt(t, i, k);
      ColAt(c, i, k);
      RowPassRow(s, LEN, k);
      RowAt(t, k, i);
      RowAt(c, k, i);
    }
  }

  /** rs_decode undoes rs_encode, finding nothing to correct. */
  lemma EncodeThenDecode(p: seq<Byte>, c: Sector)
    requires IsEncoding(p, c)
    ensures DecodeCode(c) == 0 && Unpack(ColPass(RowPass(c, LEN), DATA)) == p
  {
    hide Row, DecodeCode, IsEncoding, Unpack, ColPass, RowPass;
    ScatteredErrorsCounted(p, c, c);
    NothingWrong(c, SIZE);
  }

  lemma {:induction false} NothingWrong(c: Sector, n: nat)
    requires n <= SIZE
    ensures WrongBytes(c, c, n) == 0
  {
    if n > 0 {
      NothingWrong(c, n - 1);
    }
  }
}
