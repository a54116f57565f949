/** What input_config and update_config (src/cfgopts.c) make of the trimmed lines of a configuration file. */
module ConfigModel {
  import opened ConfigText

  datatype Value = Flag(on: bool) | Number(n: int) | Words(text: string)

  predicate SameType(v: Value, w: Value) {
    v.Flag? == w.Flag? && v.Number? == w.Number?
  }

  predicate SameTypes(a: seq<Value>, b: seq<Value>) {
    |a| == |b| && forall k :: 0 <= k < |a| ==> SameType(a[k], b[k])
  }

  function Show(v: Value): string {
    match v
    case Flag(on) => if on then "TRUE" else "FALSE"
    case Number(n) => Decimal(n)
    case Words(text) => text
  }

  /** The line that write_token prints. */
  function Print(key: string, v: Value): string {
    key + " = " + Show(v)
  }

  /** parse_input_config_entry: None is its return value -1. */
  function Parse(prior: Value, rest: string): Option<Value> {
    var next := Trim(rest);
    match prior
    case Words(_) => Some(Words(next))
    case Number(_) =>
      if rest == "" then None
      else if Scan(next).Some? then Some(Number(Scan(next).value))
      else Some(prior)
    case Flag(_) =>
      if rest == "" then None
      else if Lower(next) == "false" then Some(Flag(false))
      else if Lower(next) == "true" then Some(Flag(true))
      else Some(prior)
  }

  /** What a saved value is after loading. */
  function Settled(v: Value): Value {
    if v.Words? then Words(Trim(v.text)) else v
  }

  predicate GoodKey(key: string) {
    key != "" && Trimmed(key) && key[0] != '#' && key[0] != '[' &&
    forall i :: 0 <= i < |key| ==> key[i] != '=' && key[i] != NL
  }

  predicate Distinct(keys: seq<string>) {
    forall i, j :: 0 <= i < j < |keys| ==> keys[i] != keys[j]
  }

  predicate GoodKeys(keys: seq<string>) {
    Distinct(keys) && forall k :: 0 <= k < |keys| ==> GoodKey(keys[k])
  }

  predicate GoodHeader(h: string) {
    Fit(h) && Trimmed(h) && "[" <= h
  }

  /** Every setting prints as one short line. */
  predicate Printable(keys: seq<string>, vals: seq<Value>) {
    |keys| == |vals| && forall k :: 0 <= k < |keys| ==> Fit(Print(keys[k], vals[k]))
  }

  function Index(keys: seq<string>, key: string): (k: nat)
    ensures k <= |keys| && (k < |keys| ==> keys[k] == key)
    ensures forall i :: 0 <= i < k ==> keys[i] != key
  {
    if keys == [] || keys[0] == key then 0 else 1 + Index(keys[1..], key)
  }

  /** The table entry that a line of the section names; |keys| when it names none. */
  function Match(keys: seq<string>, line: string): (k: nat)
    ensures k <= |keys|
  {
    if "#" <= line || Split(line).None? then |keys| else Index(keys, Split(line).value.0)
  }

  // ---------------------------------------------------------------- load

  function LoadLine(keys: seq<string>, vals: seq<Value>, line: string): (r: (seq<Value>, nat))
    requires |keys| == |vals|
    ensures |r.0| == |vals|
  {
    var k := Match(keys, line);
    if k == |keys| then (vals, 0)
    else
      match Parse(vals[k], Split(line).value.1)
      case None => (vals, 0)
      case Some(v) => (vals[k := v], 1)
  }

  function LoadBody(keys: seq<string>, vals: seq<Value>, body: seq<string>): (r: (seq<Value>, nat))
    requires |keys| == |vals|
    ensures |r.0| == |vals|
    decreases |body|
  {
    if body == [] then (vals, 0)
    else
      var first := LoadLine(keys, vals, body[0]);
      var more := LoadBody(keys, first.0, body[1..]);
      (more.0, first.1 + more.1)
  }

  predicate Starts(line: string, h: string) {
    h <= line
  }

  /** The first line from i on that starts with h, or the end. */
  function First(t: seq<string>, h: string, i: nat): (j: nat)
    requires i <= |t|
    ensures i <= j <= |t| && (j < |t| ==> Starts(t[j], h))
    ensures forall k :: i <= k < j ==> !Starts(t[k], h)
    decreases |t| - i
  {
    if i == |t| || Starts(t[i], h) then i else First(t, h, i + 1)
  }

  function Find(t: seq<string>, h: string): (i: nat)
    ensures i <= |t| && (i < |t| ==> Starts(t[i], h))
    ensures forall k :: 0 <= k < i ==> !Starts(t[k], h)
  {
    First(t, h, 0)
  }

  /** The header line is there and reading it did not run into the end of the file. */
  predicate Usable(t: seq<string>, ragged: bool, h: string) {
    Find(t, h) < |t| && (ragged ==> Find(t, h) < |t| - 1)
  }

  function SectionEnd(t: seq<string>, h: string): (e: nat)
    requires Find(t, h) < |t|
    ensures Find(t, h) < e <= |t| && (e < |t| ==> Starts(t[e], "["))
    ensures forall k :: Find(t, h) < k < e ==> !Starts(t[k], "[")
  {
    First(t, "[", Find(t, h) + 1)
  }

  function Body(t: seq<string>, h: string): seq<string>
    requires Find(t, h) < |t|
  {
    t[Find(t, h) + 1..SectionEnd(t, h)]
  }

  /** input_config: the table afterwards and the number of records read. */
  function Load(t: seq<string>, ragged: bool, keys: seq<string>, vals: seq<Value>, h: string): (r: (seq<Value>, nat))
    requires |keys| == |vals|
    ensures |r.0| == |vals|
  {
    if Usable(t, ragged, h) then LoadBody(keys, vals, Body(t, h)) else (vals, 0)
  }

  // ---------------------------------------------------------------- save

  function SaveLine(keys: seq<string>, vals: seq<Value>, line: string): seq<string>
    requires |keys| == |vals|
  {
    if "#" <= line then [line]
    else
      var k := Match(keys, line);
      if k == |keys| then [] else [Print(keys[k], vals[k])]
  }

  function SaveBody(keys: seq<string>, vals: seq<Value>, body: seq<string>): seq<string>
    requires |keys| == |vals|
  {
    if body == [] then [] else SaveLine(keys, vals, body[0]) + SaveBody(keys, vals, body[1..])
  }

  function Seen(keys: seq<string>, body: seq<string>): set<nat> {
    if body == [] then {} else {Match(keys, body[0])} + Seen(keys, body[1..])
  }

  function Count(keys: seq<string>, body: seq<string>): nat {
    if body == [] then 0 else (if Match(keys, body[0]) < |keys| then 1 else 0) + Count(keys, body[1..])
  }

  /** The entries from the k-th on that were not seen. */
  function Rest(keys: seq<string>, vals: seq<Value>, seen: set<nat>, k: nat): seq<string>
    requires |keys| == |vals| && k <= |keys|
    decreases |keys| - k
  {
    if k == |keys| then []
    else (if k in seen then [] else [Print(keys[k], vals[k])]) + Rest(keys, vals, seen, k + 1)
  }

  /** The tokens written after the section's own lines; none when the count of rewritten lines is that of the table. */
  function New(keys: seq<string>, vals: seq<Value>, body: seq<string>): seq<string>
    requires |keys| == |vals|
  {
    if Count(keys, body) == |keys| then [] else Rest(keys, vals, Seen(keys, body), 0)
  }

  function Section(keys: seq<string>, vals: seq<Value>, body: seq<string>): seq<string>
    requires |keys| == |vals|
  {
    SaveBody(keys, vals, body) + New(keys, vals, body)
  }

  /** The sections after this one; a next header on a last line without a newline is dropped. */
  function Tail(t: seq<string>, ragged: bool, e: nat): seq<string>
    requires e <= |t|
  {
    if e == |t| || (ragged && e == |t| - 1) then [] else [""] + t[e..]
  }

  /** The lines that update_config leaves and the number it returns. */
  function Save(t: seq<string>, ragged: bool, keys: seq<string>, vals: seq<Value>, h: string): (seq<string>, nat)
    requires |keys| == |vals|
  {
    if Usable(t, ragged, h) then
      (t[..Find(t, h) + 1] + Section(keys, vals, Body(t, h)) + Tail(t, ragged, SectionEnd(t, h)),
       Count(keys, Body(t, h)) + |New(keys, vals, Body(t, h))|)
    else
      (t + [h] + Rest(keys, vals, {}, 0) + [""], |keys|)
  }
}

/** Saved settings come back, a second save changes nothing, other sections read the same. */
module ConfigTheorems {
  import opened ConfigText
  import opened ConfigModel

  // ------------------------------------------------------------ one line

  lemma OneLinePart(a: string, b: string)
    requires OneLine(a + b)
    ensures OneLine(a) && OneLine(b)
  {
    assert forall i :: 0 <= i < |a| ==> (a + b)[i] == a[i];
    assert forall i :: 0 <= i < |b| ==> (a + b)[|a| + i] == b[i];
  }

  /** A printed line is trimmed down to the key, the equals sign and what
      precedes the blanks at the end of the value. */
  lemma PrintTrims(key: string, v: string) returns (rest: string)
    requires GoodKey(key)
    ensures Trim(key + " = " + v) == key + " " + "=" + rest
    ensures Trim(rest) == Trim(v) && (rest == "" <==> Trim(v) == "")
  {
    var a, b := TrimSplit(v);
    var t := Trim(v);
    var left := key + " =";
    assert Trimmed(left);
    if t == "" {
      rest := "";
      AllBlankAppend(" ", v);
      assert AllBlank(v) by { assert v == a + b; AllBlankAppend(a, b); }
      TrimIs("", left, " " + v);
      assert "" + left + (" " + v) == key + " = " + v;
      assert left == key + " " + "=" + rest;
      TrimIs("", "", "");
    } else {
      rest := " " + a + t;
      var line := key + " " + "=" + rest;
      assert line[0] == key[0] && line[|line| - 1] == t[|t| - 1];
      TrimIs("", line, b);
      assert "" + line + b == key + " = " + v;
      AllBlankAppend(" ", a);
      TrimIs(" " + a, t, "");
      assert " " + a + t + "" == rest;
    }
  }

  lemma ParseShow(v: Value, prior: Value, rest: string)
    requires SameType(v, prior) && Trim(rest) == Trim(Show(v)) && (rest == "" <==> Trim(Show(v)) == "")
    ensures Parse(prior, rest) == Some(Settled(v))
  {
    match v
    case Number(n) =>
      ScanDecimal(n);
      TrimTrimmed(Decimal(n));
    case Flag(on) =>
      TrimTrimmed(Show(v));
      assert Lower("TRUE") == "true" && Lower("FALSE") == "false";
    case Words(_) =>
  }

  // ---------------------------------------------------------- values written by hand

  /** s is the capital letters t with any of them small. */
  predicate InAnyCase(s: string, t: string) {
    |s| == |t| && forall i :: 0 <= i < |t| ==> 'A' <= t[i] <= 'Z' && (s[i] == t[i] || s[i] as int == t[i] as int + 32)
  }

  lemma {:induction false} SameLower(s: string, t: string)
    requires InAnyCase(s, t)
    ensures Lower(s) == Lower(t)
    decreases |s|
  {
    if s != "" {
      SameLower(s[1..], t[1..]);
    }
  }

  /** TRUE and FALSE are read in any case and with any blanks around them. */
  lemma FlagByHand(prior: Value, a: string, s: string, b: string, on: bool)
    requires prior.Flag? && AllBlank(a) && AllBlank(b) && InAnyCase(s, if on then "TRUE" else "FALSE")
    ensures Parse(prior, a + s + b) == Some(Flag(on))
  {
    hide Trim, Lower, Trimmed, InAnyCase;
    SameLower(s, if on then "TRUE" else "FALSE");
    LettersTrimmed(s, if on then "TRUE" else "FALSE");
    TrimIs(a, s, b);
    LowerFlags();
  }

  lemma LettersTrimmed(s: string, t: string)
    requires InAnyCase(s, t) && t != ""
    ensures Trimmed(s) && s != ""
  {
  }

  lemma LowerFlags()
    ensures Lower("TRUE") == "true" && Lower("FALSE") == "false"
  {
  }

  lemma {:induction false} RunBefore(s: string, more: string)
    requires (forall i :: 0 <= i < |s| ==> IsDigit(s[i])) && (more == "" || !IsDigit(more[0]))
    ensures Run(s + more) == s
    decreases |s|
  {
    if s == "" {
      assert s + more == more;
    } else {
      assert (s + more)[1..] == s[1..] + more;
      RunBefore(s[1..], more);
    }
  }

  /** A number is read with any blanks in front of it and anything but a digit behind it. */
  lemma NumberByHand(prior: Value, a: string, n: int, more: string, b: string)
    requires prior.Number? && AllBlank(a) && AllBlank(b) && Trimmed(Decimal(n) + more)
    requires more == "" || !IsDigit(more[0])
    ensures Parse(prior, a + (Decimal(n) + more) + b) == Some(Number(n))
  {
    hide Trim, Decimal, Scan;
    var s := Decimal(n) + more;
    TrimIs(a, s, b);
    ScanBefore(n, more);
    assert a + s + b != "" by { ScanDecimal(n); }
  }

  lemma ScanBefore(n: int, more: string)
    requires more == "" || !IsDigit(more[0])
    ensures Scan(Decimal(n) + more) == Some(n)
  {
    hide Digits, Run, ValueOf;
    var m := if n < 0 then -n else n;
    RunBefore(Digits(m), more);
    ValueOfDigits(m);
    if n < 0 {
      assert (Decimal(n) + more)[1..] == Digits(m) + more;
    } else {
      assert (Digits(m) + more)[0] == Digits(m)[0];
    }
  }

  /** Without a digit the old number stays; an empty text counts as no entry. */
  lemma OtherByHand(prior: Value, s: string)
    requires prior.Number? && forall i :: 0 <= i < |s| ==> !IsDigit(s[i])
    ensures Parse(prior, s) == if s == "" then None else Some(prior)
  {
    TrimInside(s);
  }

  lemma TrimInside(s: string)
    ensures forall i :: 0 <= i < |Trim(s)| ==> Trim(s)[i] in s
  {
    var a, b := TrimSplit(s);
    assert s == a + Trim(s) + b;
    forall i | 0 <= i < |Trim(s)| ensures Trim(s)[i] in s {
      assert s[|a| + i] == Trim(s)[i];
    }
  }

  lemma KeyTrims(key: string)
    requires GoodKey(key)
    ensures Trim(key + " ") == key
    ensures forall i :: 0 <= i < |key + " "| ==> (key + " ")[i] != '='
  {
    TrimIs("", key, " ");
    assert "" + key + " " == key + " ";
  }

  lemma IndexIs(keys: seq<string>, k: nat)
    requires Distinct(keys) && k < |keys|
    ensures Index(keys, keys[k]) == k
  {
  }

  /** A written setting, read back over any prior value of its type. */
  lemma WrittenLine(keys: seq<string>, k: nat, v: Value)
    requires GoodKeys(keys) && k < |keys|
    ensures var line := Trim(Print(keys[k], v));
            && Match(keys, line) == k && !Starts(line, "[")
            && forall prior :: SameType(v, prior) ==> Parse(prior, Split(line).value.1) == Some(Settled(v))
  {
    hide Trim, Parse;
    var key := keys[k];
    var line := Trim(Print(key, v));
    var rest := PrintTrims(key, Show(v));
    KeyTrims(key);
    SplitAt(key + " ", rest);
    assert line == (key + " ") + "=" + rest;
    assert line[0] == key[0];
    IndexIs(keys, k);
    forall prior | SameType(v, prior)
      ensures Parse(prior, rest) == Some(Settled(v))
    {
      ParseShow(v, prior, rest);
    }
  }

  // ------------------------------------------------------------- a section

  /** Every line that names an entry is the one this table prints. */
  predicate Printed(keys: seq<string>, vals: seq<Value>, body: seq<string>)
    requires |keys| == |vals|
  {
    forall i :: 0 <= i < |body| ==>
      var m := Match(keys, body[i]);
      m < |keys| ==> body[i] == Trim(Print(keys[m], vals[m]))
  }

  /** Loading such lines settles the entries they name and counts every one. */
  lemma {:induction false} LoadPrinted(keys: seq<string>, vals: seq<Value>, prior: seq<Value>, body: seq<string>)
    requires GoodKeys(keys) && |keys| == |vals| && SameTypes(vals, prior) && Printed(keys, vals, body)
    ensures var r := LoadBody(keys, prior, body);
            && r.1 == Count(keys, body)
            && forall k :: 0 <= k < |keys| ==> r.0[k] == if k in Seen(keys, body) then Settled(vals[k]) else prior[k]
    decreases |body|
  {
    hide Match, Parse, Trim, Print, GoodKeys, Split;
    if body != [] {
      var m := Match(keys, body[0]);
      var next := LoadLine(keys, prior, body[0]).0;
      if m < |keys| {
        WrittenLine(keys, m, vals[m]);
        assert next == prior[m := Settled(vals[m])];
      }
      assert forall i :: 0 <= i < |body[1..]| ==> body[1..][i] == body[i + 1];
      LoadPrinted(keys, vals, next, body[1..]);
    }
  }

  lemma TrimAllAppend(a: seq<string>, b: seq<string>)
    ensures TrimAll(a + b) == TrimAll(a) + TrimAll(b)
  {
  }

  lemma {:induction false} BodyAppend(keys: seq<string>, vals: seq<Value>, a: seq<string>, b: seq<string>)
    requires |keys| == |vals|
    ensures SaveBody(keys, vals, a + b) == SaveBody(keys, vals, a) + SaveBody(keys, vals, b)
    ensures Seen(keys, a + b) == Seen(keys, a) + Seen(keys, b)
    ensures Count(keys, a + b) == Count(keys, a) + Count(keys, b)
    decreases |a|
  {
    hide SaveLine, Match;
    if a == [] {
      assert a + b == b;
    } else {
      assert (a + b)[1..] == a[1..] + b && (a + b)[0] == a[0];
      BodyAppend(keys, vals, a[1..], b);
    }
  }

  /** A list of written lines, as the next reader finds it: which entries
      it names, and that saving rewrites it alike. */
  predicate Again(keys: seq<string>, vals: seq<Value>, lines: seq<string>, seen: set<nat>, count: nat)
    requires |keys| == |vals|
  {
    var s := TrimAll(lines);
    && Printed(keys, vals, s)
    && SaveBody(keys, vals, s) == lines
    && Count(keys, s) == count
    && (forall k :: 0 <= k < |keys| ==> (k in Seen(keys, s) <==> k in seen))
    && (forall i :: 0 <= i < |s| ==> !Starts(s[i], "["))
  }

  lemma AgainAppend(keys: seq<string>, vals: seq<Value>, a: seq<string>, sa: set<nat>,
    ca: nat, b: seq<string>, sb: set<nat>, cb: nat)
    requires |keys| == |vals| && Again(keys, vals, a, sa, ca) && Again(keys, vals, b, sb, cb)
    ensures Again(keys, vals, a + b, sa + sb, ca + cb)
  {
    hide Match, Trim, Print, SaveBody, Seen, Count;
    TrimAllAppend(a, b);
    BodyAppend(keys, vals, TrimAll(a), TrimAll(b));
  }

  lemma AgainNone(keys: seq<string>, vals: seq<Value>)
    requires |keys| == |vals|
    ensures Again(keys, vals, [], {}, 0)
  {
  }

  lemma AgainPrint(keys: seq<string>, vals: seq<Value>, k: nat)
    requires GoodKeys(keys) && |keys| == |vals| && k < |keys|
    ensures Again(keys, vals, [Print(keys[k], vals[k])], {k}, 1)
  {
    hide Split, Trim, Print, Parse;
    WrittenLine(keys, k, vals[k]);
    var line := Trim(Print(keys[k], vals[k]));
    assert TrimAll([Print(keys[k], vals[k])]) == [line];
    BodyOne(keys, vals, line);
  }

  lemma BodyOne(keys: seq<string>, vals: seq<Value>, line: string)
    requires |keys| == |vals|
    ensures SaveBody(keys, vals, [line]) == SaveLine(keys, vals, line)
    ensures Seen(keys, [line]) == {Match(keys, line)}
    ensures Count(keys, [line]) == if Match(keys, line) < |keys| then 1 else 0
  {
    hide SaveLine, Match;
    assert [line][1..] == [];
  }

  /** The lines of the section that are kept or rewritten. */
  lemma {:induction false} BodyAgain(keys: seq<string>, vals: seq<Value>, body: seq<string>)
    requires GoodKeys(keys) && |keys| == |vals| && AllTrimmed(body)
    requires forall i :: 0 <= i < |body| ==> !Starts(body[i], "[")
    ensures Again(keys, vals, SaveBody(keys, vals, body), Seen(keys, body), Count(keys, body))
    decreases |body|
  {
    hide Again, Split, Trim, Print, Trimmed, GoodKeys, Index;
    if body == [] {
      AgainNone(keys, vals);
    } else {
      var line := body[0];
      assert forall i :: 0 <= i < |body[1..]| ==> body[1..][i] == body[i + 1];
      BodyAgain(keys, vals, body[1..]);
      LineAgain(keys, vals, line);
      AgainAppend(keys, vals, SaveLine(keys, vals, line), {Match(keys, line)},
        if Match(keys, line) < |keys| then 1 else 0,
                  SaveBody(keys, vals, body[1..]), Seen(keys, body[1..]), Count(keys, body[1..]));
    }
  }

  lemma LineAgain(keys: seq<string>, vals: seq<Value>, line: string)
    requires GoodKeys(keys) && |keys| == |vals| && Trimmed(line) && !Starts(line, "[")
    ensures Again(keys, vals, SaveLine(keys, vals, line), {Match(keys, line)},
      if Match(keys, line) < |keys| then 1 else 0)
  {
    hide Split, Trim, Print, Trimmed, GoodKeys, Index;
    var k := Match(keys, line);
    if "#" <= line {
      TrimTrimmed(line);
      assert TrimAll([line]) == [line];
      BodyOne(keys, vals, line);
    } else if k < |keys| {
      AgainPrint(keys, vals, k);
    } else {
      AgainNone(keys, vals);
    }
  }

  ghost function Unseen(keys: seq<string>, seen: set<nat>, k: nat): set<nat> {
    set j: nat | k <= j < |keys| && j !in seen
  }

  lemma UnseenStep(keys: seq<string>, seen: set<nat>, k: nat)
    requires k <= |keys|
    ensures Unseen(keys, seen, k) ==
            if k == |keys| then {} else if k in seen then Unseen(keys, seen, k + 1) else {k} + Unseen(keys, seen, k + 1)
  {
  }

  /** The entries added after them. */
  lemma {:induction false} RestAgain(keys: seq<string>, vals: seq<Value>, seen: set<nat>, k: nat)
    requires GoodKeys(keys) && |keys| == |vals| && k <= |keys|
    ensures var rest := Rest(keys, vals, seen, k);
            Again(keys, vals, rest, Unseen(keys, seen, k), |rest|)
    decreases |keys| - k
  {
    hide Again, Split, Trim, Print, GoodKeys, Index, Match, Unseen;
    UnseenStep(keys, seen, k);
    if k == |keys| {
      AgainNone(keys, vals);
    } else {
      RestAgain(keys, vals, seen, k + 1);
      var later := Unseen(keys, seen, k + 1);
      if k in seen {
        assert Rest(keys, vals, seen, k) == Rest(keys, vals, seen, k + 1);
      } else {
        AgainPrint(keys, vals, k);
        AgainAppend(keys, vals, [Print(keys[k], vals[k])], {k}, 1, Rest(keys, vals, seen, k + 1), later,
          |Rest(keys, vals, seen, k + 1)|);
      }
    }
  }

  /** A save of a section with these lines has a line for the k-th entry. */
  predicate Named(keys: seq<string>, body: seq<string>, k: nat) {
    Count(keys, body) != |keys| || k in Seen(keys, body)
  }

  /** The section as the next reader finds it, with the blank line in front of the next header or without. */
  lemma SectionAgain(keys: seq<string>, vals: seq<Value>, body: seq<string>, blank: seq<string>)
    requires GoodKeys(keys) && |keys| == |vals| && AllTrimmed(body) && (blank == [] || blank == [""])
    requires forall i :: 0 <= i < |body| ==> !Starts(body[i], "[")
    ensures var s := TrimAll(Section(keys, vals, body)) + blank;
            && Printed(keys, vals, s)
            && Section(keys, vals, s) == Section(keys, vals, body)
            && Count(keys, s) == Count(keys, body) + |New(keys, vals, body)|
            && (forall k :: 0 <= k < |keys| ==> (k in Seen(keys, s) <==> Named(keys, body, k)))
            && (forall i :: 0 <= i < |s| ==> !Starts(s[i], "["))
  {
    hide Split, Trim, Print, GoodKeys, Index, Match, SaveBody, Count, Seen, Rest, TrimAll, Printed, SaveLine;
    var seen := Seen(keys, body);
    var extra := if Count(keys, body) == |keys| then {} else Unseen(keys, seen, 0);
    NewAgain(keys, vals, body, extra);
    BodyAgain(keys, vals, body);
    AgainAppend(keys, vals, SaveBody(keys, vals, body), seen, Count(keys, body),
      New(keys, vals, body), extra, |New(keys, vals, body)|);
    var t := TrimAll(Section(keys, vals, body));
    var s := t + blank;
    assert Again(keys, vals, Section(keys, vals, body), seen + extra, Count(keys, body) + |New(keys, vals, body)|);
    BlankAdds(keys, vals, t, blank);
    RestNone(keys, vals, Seen(keys, s), 0, Count(keys, body) == |keys|);
  }

  lemma NewAgain(keys: seq<string>, vals: seq<Value>, body: seq<string>, extra: set<nat>)
    requires GoodKeys(keys) && |keys| == |vals|
    requires extra == if Count(keys, body) == |keys| then {} else Unseen(keys, Seen(keys, body), 0)
    ensures Again(keys, vals, New(keys, vals, body), extra, |New(keys, vals, body)|)
  {
    hide Again, Split, Trim, Print, GoodKeys, Index, Match, SaveBody, Count, Seen;
    AgainNone(keys, vals);
    RestAgain(keys, vals, Seen(keys, body), 0);
  }

  lemma BlankAdds(keys: seq<string>, vals: seq<Value>, t: seq<string>, blank: seq<string>)
    requires |keys| == |vals| && (blank == [] || blank == [""])
    ensures var s := t + blank;
            && SaveBody(keys, vals, s) == SaveBody(keys, vals, t) && Count(keys, s) == Count(keys, t)
            && (forall k :: 0 <= k < |keys| ==> (k in Seen(keys, s) <==> k in Seen(keys, t)))
            && (Printed(keys, vals, t) ==> Printed(keys, vals, s))
  {
    hide Split, Trim, Print, Index, SaveBody, Count, Seen;
    if blank == [] {
      assert t + blank == t;
    } else {
      BlankMatches(keys);
      BodyOne(keys, vals, "");
      BodyAppend(keys, vals, t, blank);
    }
  }

  lemma BlankMatches(keys: seq<string>)
    ensures Match(keys, "") == |keys|
  {
  }

  lemma {:induction false} RestNone(keys: seq<string>, vals: seq<Value>, seen: set<nat>, k: nat, skip: bool)
    requires |keys| == |vals| && k <= |keys|
    requires !skip ==> forall j :: k <= j < |keys| ==> j in seen
    ensures !skip ==> Rest(keys, vals, seen, k) == []
    decreases |keys| - k
  {
    if k < |keys| {
      RestNone(keys, vals, seen, k + 1, skip);
    }
  }
}
