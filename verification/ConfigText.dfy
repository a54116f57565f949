/** Text as src/cfgopts.c sees it: pieces handed out by fgets, Str_Trim (src/str.c), strtok, and printed numbers. */
module ConfigText {

  const NL := '\n'
  /** fgets(line, 1024, f) takes at most this many characters. */
  const PIECE: nat := 1023

  predicate Blank(c: char) {
    c == ' ' || ('\t' <= c <= '\r')
  }

  predicate AllBlank(s: string) {
    forall i :: 0 <= i < |s| ==> Blank(s[i])
  }

  predicate OneLine(s: string) {
    forall i :: 0 <= i < |s| ==> s[i] != NL
  }

  predicate Trimmed(s: string) {
    s == "" || (!Blank(s[0]) && !Blank(s[|s| - 1]))
  }

  function LTrim(s: string): string {
    if s != "" && Blank(s[0]) then LTrim(s[1..]) else s
  }

  function RTrim(s: string): string {
    if s != "" && Blank(s[|s| - 1]) then RTrim(s[..|s| - 1]) else s
  }

  function Trim(s: string): string {
    RTrim(LTrim(s))
  }

  lemma {:induction false} LTrimDrops(a: string, u: string)
    requires AllBlank(a)
    ensures LTrim(a + u) == LTrim(u)
  {
    if a == "" {
      assert a + u == u;
    } else {
      assert Blank((a + u)[0]);
      assert (a + u)[1..] == a[1..] + u;
      LTrimDrops(a[1..], u);
    }
  }

  lemma {:induction false} RTrimDrops(u: string, b: string)
    requires AllBlank(b)
    ensures RTrim(u + b) == RTrim(u)
  {
    if b == "" {
      assert u + b == u;
    } else {
      assert Blank((u + b)[|u + b| - 1]);
      assert (u + b)[..|u + b| - 1] == u + b[..|b| - 1];
      RTrimDrops(u, b[..|b| - 1]);
    }
  }

  lemma AllBlankAppend(a: string, b: string)
    requires AllBlank(a) && AllBlank(b)
    ensures AllBlank(a + b)
  {
  }

  /** What is left between blanks is the trimmed text. */
  lemma TrimIs(a: string, t: string, b: string)
    requires AllBlank(a) && AllBlank(b) && Trimmed(t)
    ensures Trim(a + t + b) == t
  {
    if t == "" {
      assert a + t + b == (a + b) + "";
      LTrimDrops(a + b, "");
    } else {
      assert a + t + b == a + (t + b);
      LTrimDrops(a, t + b);
      assert (t + b)[0] == t[0];
      RTrimDrops(t, b);
    }
  }

  lemma {:induction false} LTrimSplit(s: string)
    ensures exists a :: AllBlank(a) && s == a + LTrim(s)
    ensures LTrim(s) == "" || !Blank(LTrim(s)[0])
  {
    if s != "" && Blank(s[0]) {
      LTrimSplit(s[1..]);
      var a :| AllBlank(a) && s[1..] == a + LTrim(s[1..]);
      AllBlankAppend(s[..1], a);
      assert s == (s[..1] + a) + LTrim(s);
    } else {
      assert AllBlank("") && s == "" + LTrim(s);
    }
  }

  lemma {:induction false} RTrimSplit(s: string)
    ensures exists b :: AllBlank(b) && s == RTrim(s) + b
    ensures RTrim(s) == "" || !Blank(RTrim(s)[|RTrim(s)| - 1])
  {
    if s != "" && Blank(s[|s| - 1]) {
      RTrimSplit(s[..|s| - 1]);
      var b :| AllBlank(b) && s[..|s| - 1] == RTrim(s[..|s| - 1]) + b;
      AllBlankAppend(b, s[|s| - 1..]);
      assert s == RTrim(s) + (b + s[|s| - 1..]);
    } else {
      assert AllBlank("") && s == RTrim(s) + "";
    }
  }

  /** Trimming takes off blanks only, and all of them. */
  lemma TrimSplit(s: string) returns (a: string, b: string)
    ensures AllBlank(a) && AllBlank(b) && s == a + Trim(s) + b && Trimmed(Trim(s))
  {
    LTrimSplit(s);
    a :| AllBlank(a) && s == a + LTrim(s);
    RTrimSplit(LTrim(s));
    b :| AllBlank(b) && LTrim(s) == Trim(s) + b;
    assert s == a + (Trim(s) + b);
    assert Trim(s) != "" ==> LTrim(s)[0] == Trim(s)[0];
  }

  lemma TrimTrimmed(s: string)
    requires Trimmed(s)
    ensures Trim(s) == s
  {
    TrimIs("", s, "");
    assert "" + s + "" == s;
  }

  lemma TrimLine(s: string)
    ensures Trim(s + [NL]) == Trim(s) && Trimmed(Trim(s)) && |Trim(s)| <= |s|
    ensures OneLine(s) ==> OneLine(Trim(s))
  {
    var a, b := TrimSplit(s);
    assert s + [NL] == a + Trim(s) + (b + [NL]);
    AllBlankAppend(b, [NL]);
    TrimIs(a, Trim(s), b + [NL]);
    assert forall i :: 0 <= i < |Trim(s)| ==> Trim(s)[i] == s[|a| + i];
  }

  // ---------------------------------------------------------------- fgets

  /** Where fgets stops that has taken k characters so far. */
  function Stop(text: string, k: nat): (n: nat)
    requires k <= |text| && k <= PIECE
    ensures k <= n <= |text| && n <= PIECE
    decreases |text| - k
  {
    if k == |text| || k == PIECE then k
    else if text[k] == NL then k + 1
    else Stop(text, k + 1)
  }

  function PieceLength(text: string): (n: nat)
    ensures n <= |text| && n <= PIECE && (text != "" ==> n > 0)
  {
    Stop(text, 0)
  }

  /** Reading the last piece runs into the end of the file: no newline and room left in the buffer. */
  predicate Hits(text: string) {
    PieceLength(text) == |text| < PIECE && (text == "" || text[|text| - 1] != NL)
  }

  /** The trimmed lines that repeated calls of Str_Trim(fgets()) return. */
  function Lines(text: string): (t: seq<string>)
    decreases |text|
  {
    if text == "" then []
    else [Trim(text[..PieceLength(text)])] + Lines(text[PieceLength(text)..])
  }

  /** The last of these calls sets the end-of-file mark although it returns a line. */
  predicate Ragged(text: string)
    decreases |text|
  {
    text != "" && (Hits(text) || Ragged(text[PieceLength(text)..]))
  }

  /** The lines as fprintf("%s\n") leaves them. */
  function Text(lines: seq<string>): string {
    if lines == [] then "" else lines[0] + [NL] + Text(lines[1..])
  }

  function TrimAll(lines: seq<string>): (t: seq<string>)
    ensures |t| == |lines| && forall i :: 0 <= i < |t| ==> t[i] == Trim(lines[i])
  {
    seq(|lines|, i requires 0 <= i < |lines| => Trim(lines[i]))
  }

  predicate Fit(line: string) {
    OneLine(line) && |line| < PIECE
  }

  predicate AllFit(lines: seq<string>) {
    forall i :: 0 <= i < |lines| ==> Fit(lines[i])
  }

  predicate AllTrimmed(lines: seq<string>) {
    forall i :: 0 <= i < |lines| ==> Trimmed(lines[i])
  }

  lemma {:induction false} StopIs(text: string, k: nat, n: nat)
    requires k < n <= |text| && n <= PIECE && text[n - 1] == NL
    requires forall i :: k <= i < n - 1 ==> text[i] != NL
    ensures Stop(text, k) == n
    decreases n - k
  {
    if k < n - 1 {
      StopIs(text, k + 1, n);
    }
  }

  lemma FirstPiece(line: string, more: string)
    requires Fit(line)
    ensures PieceLength(line + [NL] + more) == |line| + 1 && !Hits(line + [NL] + more)
    ensures (line + [NL] + more)[..|line| + 1] == line + [NL]
    ensures (line + [NL] + more)[|line| + 1..] == more
  {
    var text := line + [NL] + more;
    forall i | 0 <= i < |line|
      ensures text[i] != NL
    {
      assert text[i] == line[i];
    }
    StopIs(text, 0, |line| + 1);
  }

  /** Short printed lines are read back one by one, trimmed, and the end of the file is not met early. */
  lemma {:induction false} LinesOfText(lines: seq<string>)
    requires AllFit(lines)
    ensures Lines(Text(lines)) == TrimAll(lines) && !Ragged(Text(lines))
  {
    if lines != [] {
      assert Fit(lines[0]);
      var more := Text(lines[1..]);
      FirstPiece(lines[0], more);
      TrimLine(lines[0]);
      LinesOfText(lines[1..]);
      assert TrimAll(lines) == [Trim(lines[0])] + TrimAll(lines[1..]);
    }
  }

  lemma {:induction false} LinesTrimmed(text: string)
    ensures AllTrimmed(Lines(text))
    decreases |text|
  {
    if text != "" {
      var a, b := TrimSplit(text[..PieceLength(text)]);
      LinesTrimmed(text[PieceLength(text)..]);
    }
  }

  lemma TrimAllTrimmed(lines: seq<string>)
    requires AllTrimmed(lines)
    ensures TrimAll(lines) == lines
  {
    forall i | 0 <= i < |lines|
      ensures TrimAll(lines)[i] == lines[i]
    {
      TrimTrimmed(lines[i]);
    }
  }

  lemma {:induction false} TextAppend(a: seq<string>, b: seq<string>)
    ensures Text(a + b) == Text(a) + Text(b)
  {
    if a == [] {
      assert a + b == b;
    } else {
      assert (a + b)[1..] == a[1..] + b;
      TextAppend(a[1..], b);
    }
  }

  // --------------------------------------------------------------- strtok

  function SkipEqual(s: string): (t: string)
    ensures |t| <= |s| && (t == "" || t[0] != '=')
  {
    if s != "" && s[0] == '=' then SkipEqual(s[1..]) else s
  }

  /** The position of the first '=', or the end. */
  function EqualAt(s: string): (e: nat)
    ensures e <= |s| && (e < |s| ==> s[e] == '=') && forall i :: 0 <= i < e ==> s[i] != '='
  {
    if s == "" || s[0] == '=' then 0 else 1 + EqualAt(s[1..])
  }

  datatype Option<T> = None | Some(value: T)

  /** strtok(line, "=") and then strtok(NULL, ""): the trimmed name and the raw rest. */
  function Split(line: string): Option<(string, string)> {
    var s := SkipEqual(line);
    if s == "" then None
    else
      var e := EqualAt(s);
      Some((Trim(s[..e]), if e == |s| then "" else s[e + 1..]))
  }

  lemma SplitAt(name: string, rest: string)
    requires name != "" && forall i :: 0 <= i < |name| ==> name[i] != '='
    ensures Split(name + "=" + rest) == Some((Trim(name), rest))
  {
    var s := name + "=" + rest;
    assert s[0] == name[0];
    assert forall i :: 0 <= i < |name| ==> s[i] == name[i];
    assert s[|name|] == '=';
    assert EqualAt(s) == |name|;
    assert s[..|name|] == name && s[|name| + 1..] == rest;
  }

  // -------------------------------------------------------------- numbers

  predicate IsDigit(c: char) {
    '0' <= c <= '9'
  }

  function Digits(n: nat): (s: string)
    ensures s != "" && forall i :: 0 <= i < |s| ==> IsDigit(s[i])
  {
    (if n < 10 then "" else Digits(n / 10)) + [(n % 10) as char + '0']
  }

  function ValueOf(s: string): nat
    requires forall i :: 0 <= i < |s| ==> IsDigit(s[i])
  {
    if s == "" then 0
    else
      assert IsDigit(s[|s| - 1]);
      10 * ValueOf(s[..|s| - 1]) + (s[|s| - 1] - '0') as nat
  }

  lemma {:induction false} ValueOfDigits(n: nat)
    ensures ValueOf(Digits(n)) == n
  {
    var d := [(n % 10) as char + '0'];
    if n >= 10 {
      ValueOfDigits(n / 10);
      assert (Digits(n / 10) + d)[..|Digits(n / 10) + d| - 1] == Digits(n / 10);
    } else {
      assert ("" + d)[..0] == "";
    }
  }

  /** The leading digits. */
  function Run(s: string): (r: string)
    ensures r <= s && forall i :: 0 <= i < |r| ==> IsDigit(r[i])
  {
    if s == "" || !IsDigit(s[0]) then "" else [s[0]] + Run(s[1..])
  }

  lemma {:induction false} RunAll(s: string)
    requires forall i :: 0 <= i < |s| ==> IsDigit(s[i])
    ensures Run(s) == s
  {
    if s != "" {
      RunAll(s[1..]);
    }
  }

  /** fprintf("%d"). */
  function Decimal(n: int): string {
    if n < 0 then "-" + Digits(-n) else Digits(n)
  }

  /** sscanf("%d") on trimmed text; None when nothing is assigned. */
  function Scan(s: string): Option<int> {
    if s != "" && (s[0] == '-' || s[0] == '+') then
      if Run(s[1..]) == "" then None
      else Some(if s[0] == '-' then -(ValueOf(Run(s[1..])) as int) else ValueOf(Run(s[1..])))
    else if Run(s) == "" then None
    else Some(ValueOf(Run(s)))
  }

  lemma ScanDecimal(n: int)
    ensures Scan(Decimal(n)) == Some(n) && Trimmed(Decimal(n)) && OneLine(Decimal(n)) && Decimal(n) != ""
  {
    var m := if n < 0 then -n else n;
    RunAll(Digits(m));
    ValueOfDigits(m);
    if n < 0 {
      assert Decimal(n)[1..] == Digits(m);
    }
  }

  function LowerChar(c: char): char {
    if 'A' <= c <= 'Z' then (c as int + 32) as char else c
  }

  function Lower(s: string): string {
    if s == "" then "" else [LowerChar(s[0])] + Lower(s[1..])
  }
}
