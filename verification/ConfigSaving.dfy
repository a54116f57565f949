/** Saving and loading whole files: what comes back, when a second save changes nothing, and what other sections see. */
module ConfigSaving {
  import opened ConfigText
  import opened ConfigModel
  import opened ConfigTheorems

  function Update(text: string, keys: seq<string>, vals: seq<Value>, h: string): string
    requires |keys| == |vals|
  {
    Text(Save(Lines(text), Ragged(text), keys, vals, h).0)
  }

  function Input(text: string, keys: seq<string>, vals: seq<Value>, h: string): (r: (seq<Value>, nat))
    requires |keys| == |vals|
    ensures |r.0| == |vals|
  {
    Load(Lines(text), Ragged(text), keys, vals, h)
  }

  predicate Short(text: string) {
    forall i :: 0 <= i < |Lines(text)| ==> |Lines(text)[i]| < PIECE
  }

  /** A table and a header that print as short single lines. */
  predicate Writable(keys: seq<string>, vals: seq<Value>, h: string) {
    |keys| == |vals| && GoodKeys(keys) && Printable(keys, vals) && GoodHeader(h)
  }

  // ------------------------------------------------ the lines of a saved file

  lemma {:induction false} StopBefore(text: string, k: nat)
    requires k <= |text| && k <= PIECE
    ensures forall i :: k <= i < Stop(text, k) - 1 ==> text[i] != NL
    decreases |text| - k
  {
    if k < |text| && k != PIECE && text[k] != NL {
      StopBefore(text, k + 1);
    }
  }

  lemma PieceIsOneLine(text: string)
    requires text != ""
    ensures OneLine(Trim(text[..PieceLength(text)]))
  {
    var n := PieceLength(text);
    StopBefore(text, 0);
    var front := text[..n - 1];
    assert text[..n] == front + [text[n - 1]];
    if text[n - 1] == NL {
      TrimLine(front);
    } else {
      var a, b := TrimSplit(text[..n]);
      assert text[..n][n - 1] != NL;
      assert OneLine(text[..n]);
      assert text[..n] == a + (Trim(text[..n]) + b);
      OneLinePart(a, Trim(text[..n]) + b);
      OneLinePart(Trim(text[..n]), b);
    }
  }

  lemma {:induction false} LinesOneLine(text: string)
    ensures forall i :: 0 <= i < |Lines(text)| ==> OneLine(Lines(text)[i])
    decreases |text|
  {
    hide Trim, OneLine;
    if text != "" {
      PieceIsOneLine(text);
      LinesOneLine(text[PieceLength(text)..]);
    }
  }

  lemma {:induction false} BodyFits(keys: seq<string>, vals: seq<Value>, body: seq<string>)
    requires Printable(keys, vals) && AllFit(body)
    ensures AllFit(SaveBody(keys, vals, body))
    decreases |body|
  {
    hide Fit, Print, Match;
    if body != [] {
      BodyFits(keys, vals, body[1..]);
      assert Fit(body[0]);
    }
  }

  lemma {:induction false} RestFits(keys: seq<string>, vals: seq<Value>, seen: set<nat>, k: nat)
    requires Printable(keys, vals) && k <= |keys|
    ensures AllFit(Rest(keys, vals, seen, k))
    decreases |keys| - k
  {
    hide Fit, Print;
    if k < |keys| {
      RestFits(keys, vals, seen, k + 1);
    }
  }

  lemma AllFitAppend(a: seq<string>, b: seq<string>)
    requires AllFit(a) && AllFit(b)
    ensures AllFit(a + b)
  {
  }

  lemma TailFits(t: seq<string>, ragged: bool, e: nat)
    requires e <= |t| && AllFit(t)
    ensures AllFit(Tail(t, ragged, e))
  {
    assert Fit("");
  }

  lemma HeaderFits(h: string)
    requires GoodHeader(h)
    ensures AllFit([h]) && AllFit([""])
  {
  }

  lemma SaveFits(t: seq<string>, ragged: bool, keys: seq<string>, vals: seq<Value>, h: string)
    requires |keys| == |vals| && Printable(keys, vals) && GoodHeader(h) && AllFit(t)
    ensures AllFit(Save(t, ragged, keys, vals, h).0)
  {
    hide Fit, Print, Match, Find, SectionEnd, SaveBody, Rest, Tail, Seen, Count, Printable;
    RestFits(keys, vals, {}, 0);
    HeaderFits(h);
    AllFitAppend(t, [h]);
    AllFitAppend(t + [h], Rest(keys, vals, {}, 0));
    AllFitAppend(t + [h] + Rest(keys, vals, {}, 0), [""]);
    if Usable(t, ragged, h) {
      var body := Body(t, h);
      BodyFits(keys, vals, body);
      RestFits(keys, vals, Seen(keys, body), 0);
      AllFitAppend(SaveBody(keys, vals, body), New(keys, vals, body));
      AllFitAppend(t[..Find(t, h) + 1], Section(keys, vals, body));
      TailFits(t, ragged, SectionEnd(t, h));
      AllFitAppend(t[..Find(t, h) + 1] + Section(keys, vals, body), Tail(t, ragged, SectionEnd(t, h)));
    }
  }

  /** The next reader gets the written lines, trimmed, and never meets the end of the file early. */
  lemma Reread(text: string, keys: seq<string>, vals: seq<Value>, h: string)
    requires Short(text) && Writable(keys, vals, h)
    ensures var text' := Update(text, keys, vals, h);
            && Lines(text') == TrimAll(Save(Lines(text), Ragged(text), keys, vals, h).0)
            && !Ragged(text') && AllTrimmed(Lines(text)) && AllFit(Lines(text))
  {
    hide Save, Lines, Ragged, OneLine, Text, TrimAll, GoodKeys, Printable;
    LinesOneLine(text);
    LinesTrimmed(text);
    SaveFits(Lines(text), Ragged(text), keys, vals, h);
    LinesOfText(Save(Lines(text), Ragged(text), keys, vals, h).0);
  }

  // ------------------------------------------------------------ the layout

  lemma FirstIs(t: seq<string>, h: string, i: nat, j: nat)
    requires i <= j <= |t| && (j < |t| ==> Starts(t[j], h))
    requires forall k :: i <= k < j ==> !Starts(t[k], h)
    ensures First(t, h, i) == j
  {
  }

  /** Lines up to the header, then lines that start no section, then nothing or a blank line and the next header. */
  lemma Layout(p: seq<string>, s: seq<string>, w: seq<string>, h: string)
    requires p != [] && Find(p, h) == |p| - 1
    requires forall i :: 0 <= i < |s| ==> !Starts(s[i], "[")
    requires w == [] || (w[0] == "" && (|w| == 1 || Starts(w[1], "[")))
    ensures var t := p + s + w;
            var n := if w == [] then 0 else 1;
            && Find(t, h) == |p| - 1 && SectionEnd(t, h) == |p| + |s| + n
            && Body(t, h) == s + w[..n]
  {
    hide Starts, First;
    var t := p + s + w;
    var n := if w == [] then 0 else 1;
    assert forall k :: 0 <= k < |p| ==> t[k] == p[k];
    FirstIs(t, h, 0, |p| - 1);
    var e := |p| + |s| + n;
    forall k | |p| <= k < e
      ensures !Starts(t[k], "[")
    {
      if k < |p| + |s| {
        assert t[k] == s[k - |p|];
      } else {
        BlankStartsNothing();
        assert t[k] == w[0];
      }
    }
    assert e < |t| ==> t[e] == w[1];
    FirstIs(t, "[", |p|, e);
  }

  lemma BlankStartsNothing()
    ensures !Starts("", "[")
  {
  }

  /** The section that a save rewrites; a new one starts empty. */
  function Existing(t: seq<string>, ragged: bool, h: string): seq<string> {
    if Usable(t, ragged, h) then Body(t, h) else []
  }

  /** The header is not on a last line without a newline. */
  predicate Sound(t: seq<string>, ragged: bool, h: string) {
    Usable(t, ragged, h) || Find(t, h) == |t|
  }

  lemma TailTrims(t: seq<string>, ragged: bool, e: nat)
    requires AllTrimmed(t) && e <= |t|
    ensures TrimAll(Tail(t, ragged, e)) == Tail(t, ragged, e)
  {
    TrimAllTrimmed(Tail(t, ragged, e));
  }

  lemma ExistingFacts(t: seq<string>, ragged: bool, h: string)
    requires AllTrimmed(t)
    ensures AllTrimmed(Existing(t, ragged, h))
    ensures forall i :: 0 <= i < |Existing(t, ragged, h)| ==> !Starts(Existing(t, ragged, h)[i], "[")
  {
    hide Starts, Trimmed, Find;
  }

  lemma TrimAllThree(a: seq<string>, b: seq<string>, c: seq<string>)
    ensures TrimAll(a + b + c) == TrimAll(a) + TrimAll(b) + TrimAll(c)
  {
    TrimAllAppend(a + b, c);
    TrimAllAppend(a, b);
  }

  /** The saved lines, trimmed: up to the header, the section, the rest. */
  lemma UsableForm(t: seq<string>, ragged: bool, keys: seq<string>, vals: seq<Value>, h: string)
    requires Usable(t, ragged, h) && AllTrimmed(t) && GoodKeys(keys) && |keys| == |vals|
    ensures var s := TrimAll(Section(keys, vals, Body(t, h)));
            && TrimAll(Save(t, ragged, keys, vals, h).0) == t[..Find(t, h) + 1] + s + Tail(t, ragged, SectionEnd(t, h))
            && forall i :: 0 <= i < |s| ==> !Starts(s[i], "[")
  {
    hide Trim, Trimmed, GoodKeys, Section, Starts, First, Find, SectionEnd, TrimAll, Tail;
    TrimAllTrimmed(t[..Find(t, h) + 1]);
    TailTrims(t, ragged, SectionEnd(t, h));
    TrimAllThree(t[..Find(t, h) + 1], Section(keys, vals, Body(t, h)), Tail(t, ragged, SectionEnd(t, h)));
    ExistingFacts(t, ragged, h);
    SectionAgain(keys, vals, Body(t, h), []);
    assert TrimAll(Section(keys, vals, Body(t, h))) + [] == TrimAll(Section(keys, vals, Body(t, h)));
  }

  lemma Cut(p: seq<string>, s: seq<string>, w: seq<string>)
    ensures (p + s + w)[..|p|] == p && (w != [] ==> (p + s + w)[|p| + |s| + 1..] == w[1..] && w[..1] == [w[0]])
  {
  }

  lemma RelaidUsable(t: seq<string>, ragged: bool, keys: seq<string>, vals: seq<Value>, h: string)
    requires Usable(t, ragged, h) && AllTrimmed(t) && GoodKeys(keys) && |keys| == |vals|
    ensures var t' := TrimAll(Save(t, ragged, keys, vals, h).0);
            && Usable(t', false, h) && t'[..Find(t', h) + 1] == t[..Find(t, h) + 1]
            && Tail(t', false, SectionEnd(t', h)) == Tail(t, ragged, SectionEnd(t, h))
            && Body(t', h) == TrimAll(Section(keys, vals, Body(t, h)))
               + (if Tail(t, ragged, SectionEnd(t, h)) == [] then [] else [""])
  {
    hide AllTrimmed, GoodKeys, Section, Starts, First, TrimAll, Save, Body;
    var p := t[..Find(t, h) + 1];
    var s := TrimAll(Section(keys, vals, Body(t, h)));
    var w := Tail(t, ragged, SectionEnd(t, h));
    UsableForm(t, ragged, keys, vals, h);
    FirstIs(p, h, 0, |p| - 1);
    TailShape(t, ragged, SectionEnd(t, h));
    Layout(p, s, w, h);
    Cut(p, s, w);
  }

  lemma TailShape(t: seq<string>, ragged: bool, e: nat)
    requires e <= |t|
    ensures var w := Tail(t, ragged, e);
            w == [] || (w[0] == "" && |w| > 1 && w[1] == t[e] && w[1..] == t[e..])
  {
  }

  /** The saved lines, trimmed, when no usable header was there. */
  lemma NewForm(t: seq<string>, ragged: bool, keys: seq<string>, vals: seq<Value>, h: string)
    requires !Usable(t, ragged, h) && AllTrimmed(t) && |keys| == |vals| && GoodHeader(h)
    ensures TrimAll(Save(t, ragged, keys, vals, h).0) == t + [h] + TrimAll(Rest(keys, vals, {}, 0)) + [""]
    ensures Section(keys, vals, []) == Rest(keys, vals, {}, 0)
  {
    hide Trim, Usable, TrimAll;
    assert Trimmed("");
    TrimAllTrimmed(t + [h]);
    TrimAllTrimmed([""]);
    TrimAllThree(t + [h], Rest(keys, vals, {}, 0), [""]);
  }

  lemma NewLines(keys: seq<string>, vals: seq<Value>)
    requires GoodKeys(keys) && |keys| == |vals|
    ensures forall k :: 0 <= k < |TrimAll(Rest(keys, vals, {}, 0))| ==>
      !Starts(TrimAll(Rest(keys, vals, {}, 0))[k], "[")
  {
    hide GoodKeys, Rest, Printed, SaveBody, Count, Seen, TrimAll, Starts;
    RestAgain(keys, vals, {}, 0);
  }

  lemma RelaidNew(t: seq<string>, ragged: bool, keys: seq<string>, vals: seq<Value>, h: string)
    requires Find(t, h) == |t| && AllTrimmed(t) && GoodKeys(keys) && |keys| == |vals| && GoodHeader(h)
    ensures var t' := TrimAll(Save(t, ragged, keys, vals, h).0);
            && Usable(t', false, h) && t'[..Find(t', h) + 1] == t + [h] && Tail(t', false, SectionEnd(t', h)) == []
            && Section(keys, vals, []) == Rest(keys, vals, {}, 0)
            && Body(t', h) == TrimAll(Section(keys, vals, [])) + [""]
  {
    hide AllTrimmed, GoodKeys, Starts, First, GoodHeader, TrimAll, Save, Section, Rest, Body;
    var p := t + [h];
    var s := TrimAll(Rest(keys, vals, {}, 0));
    NewForm(t, ragged, keys, vals, h);
    NewLines(keys, vals);
    HeaderStarts(h);
    FirstIs(p, h, 0, |t|);
    Layout(p, s, [""], h);
    Cut(p, s, [""]);
  }

  lemma HeaderStarts(h: string)
    ensures Starts(h, h)
  {
  }

  // ------------------------------------------------------------- main results

  /** An entry that a save gives a line in the section. */
  predicate Written(text: string, keys: seq<string>, h: string, k: nat) {
    Sound(Lines(text), Ragged(text), h) && Named(keys, Existing(Lines(text), Ragged(text), h), k)
  }

  lemma SavedSection(t: seq<string>, ragged: bool, keys: seq<string>, vals: seq<Value>,
    h: string) returns (blank: seq<string>)
    requires Sound(t, ragged, h) && AllTrimmed(t) && GoodKeys(keys) && |keys| == |vals| && GoodHeader(h)
    ensures var t' := TrimAll(Save(t, ragged, keys, vals, h).0);
            && (blank == [] || blank == [""]) && Usable(t', false, h)
            && Body(t', h) == TrimAll(Section(keys, vals, Existing(t, ragged, h))) + blank
            && Save(t, ragged, keys, vals, h).1
               == Count(keys, Existing(t, ragged, h)) + |New(keys, vals, Existing(t, ragged, h))|
  {
    hide Trim, Trimmed, GoodKeys, GoodHeader, Section, Find, SectionEnd, Body, Tail;
    if Usable(t, ragged, h) {
      RelaidUsable(t, ragged, keys, vals, h);
      blank := if Tail(t, ragged, SectionEnd(t, h)) == [] then [] else [""];
    } else {
      RelaidNew(t, ragged, keys, vals, h);
      blank := [""];
      RestLength(keys, vals, 0);
    }
  }

  lemma {:induction false} RestLength(keys: seq<string>, vals: seq<Value>, k: nat)
    requires |keys| == |vals| && k <= |keys|
    ensures |Rest(keys, vals, {}, k)| == |keys| - k
    decreases |keys| - k
  {
    hide Print;
    if k < |keys| {
      RestLength(keys, vals, k + 1);
    }
  }

  lemma SavedThenLoadedLines(t: seq<string>, ragged: bool, keys: seq<string>,
    vals: seq<Value>, prior: seq<Value>, h: string)
    requires Sound(t, ragged, h) && AllTrimmed(t) && GoodKeys(keys) &&
      |keys| == |vals| && GoodHeader(h) && SameTypes(vals, prior)
    ensures var saved := Save(t, ragged, keys, vals, h);
            var r := Load(TrimAll(saved.0), false, keys, prior, h);
            && r.1 == saved.1
            && forall k :: 0 <= k < |keys| ==>
                 r.0[k] == if Named(keys, Existing(t, ragged, h), k) then Settled(vals[k]) else prior[k]
  {
    hide Trim, Trimmed, GoodKeys, GoodHeader, Section, Find, SectionEnd, Body, Tail, Save, New, Existing, Usable;
    var blank := SavedSection(t, ragged, keys, vals, h);
    var body := Existing(t, ragged, h);
    ExistingFacts(t, ragged, h);
    SectionAgain(keys, vals, body, blank);
    LoadPrinted(keys, vals, prior, TrimAll(Section(keys, vals, body)) + blank);
  }

  lemma HeaderTwice(t: seq<string>, h: string, u: seq<string>)
    requires t != [] && Find(t, h) == |t| - 1 && Starts(h, "[")
    ensures var t' := t + [h] + u;
            Find(t', h) == |t| - 1 && SectionEnd(t', h) == |t| && Body(t', h) == []
  {
    hide Starts, First;
    var t' := t + [h] + u;
    assert forall k :: 0 <= k < |t| ==> t'[k] == t[k];
    assert t'[|t|] == h;
    FindIs(t', h, |t| - 1);
    EndIs(t', h, |t|);
  }

  /** A header on the last line without a newline: the section is written below a second copy and is not found again. */
  lemma UnsoundLoads(t: seq<string>, ragged: bool, keys: seq<string>, vals: seq<Value>, h: string)
    requires !Sound(t, ragged, h) && AllTrimmed(t) && |keys| == |vals| && GoodHeader(h)
    ensures var t' := TrimAll(Save(t, ragged, keys, vals, h).0);
            && Usable(t', false, h) && Find(t', h) == |t| - 1 && SectionEnd(t', h) == |t| && Body(t', h) == []
            && t' == t + [h] + TrimAll(Rest(keys, vals, {}, 0)) + [""]
  {
    hide AllTrimmed, Find, SectionEnd, Body, TrimAll, Save, Rest, Fit, Trimmed;
    NewForm(t, ragged, keys, vals, h);
    HeaderStarts(h);
    HeaderLine(h, h);
    HeaderTwice(t, h, TrimAll(Rest(keys, vals, {}, 0)) + [""]);
    assert t + [h] + TrimAll(Rest(keys, vals, {}, 0)) + [""] == t + [h] + (TrimAll(Rest(keys, vals, {}, 0)) + [""]);
  }

  /** Saving and then loading into any old table: exactly the written entries come back, with their strings trimmed. */
  lemma SaveThenLoad(text: string, keys: seq<string>, vals: seq<Value>, prior: seq<Value>, h: string)
    requires Short(text) && Writable(keys, vals, h) && SameTypes(vals, prior)
    ensures forall k :: 0 <= k < |keys| ==>
      Input(Update(text, keys, vals, h), keys, prior, h).0[k]
      == if Written(text, keys, h, k) then Settled(vals[k]) else prior[k]
    ensures Sound(Lines(text), Ragged(text), h) ==>
      Input(Update(text, keys, vals, h), keys, prior, h).1 == Save(Lines(text), Ragged(text), keys, vals, h).1
  {
    hide Save, Lines, Ragged, Text, TrimAll, GoodKeys, Printable, GoodHeader,
      Short, Existing, Sound, Named, Usable, Body, Find;
    Reread(text, keys, vals, h);
    if Sound(Lines(text), Ragged(text), h) {
      SavedThenLoadedLines(Lines(text), Ragged(text), keys, vals, prior, h);
    } else {
      UnsoundLoads(Lines(text), Ragged(text), keys, vals, h);
    }
  }

  /** Some other value of the same type. */
  function Other(v: Value): (w: Value)
    ensures SameType(v, w) && w != Settled(v)
  {
    match v
    case Flag(on) => Flag(!on)
    case Number(n) => Number(n + 1)
    case Words(text) => assert |Trim(text) + "x"| > |Trim(text)|; Words(Trim(text) + "x")
  }

  /** Every setting comes back into every table exactly when every entry gets a line. */
  lemma SaveThenLoadIff(text: string, keys: seq<string>, vals: seq<Value>, h: string)
    requires Short(text) && Writable(keys, vals, h)
    ensures (forall prior, k | SameTypes(vals, prior) && 0 <= k < |keys| ::
              Input(Update(text, keys, vals, h), keys, prior, h).0[k] == Settled(vals[k]))
            <==> (forall k :: 0 <= k < |keys| ==> Written(text, keys, h, k))
  {
    hide Input, Update, Short, Written, Settled, GoodKeys, GoodHeader;
    forall prior | SameTypes(vals, prior)
      ensures forall k :: 0 <= k < |keys| ==>
        Input(Update(text, keys, vals, h), keys, prior, h).0[k]
        == if Written(text, keys, h, k) then Settled(vals[k]) else prior[k]
    {
      SaveThenLoad(text, keys, vals, prior, h);
    }
    var prior := seq(|vals|, i requires 0 <= i < |vals| => Other(vals[i]));
    assert SameTypes(vals, prior);
    assert forall k :: 0 <= k < |keys| ==> prior[k] != Settled(vals[k]);
  }

  lemma SecondSaveLines(t: seq<string>, ragged: bool, keys: seq<string>, vals: seq<Value>, h: string)
    requires Sound(t, ragged, h) && AllTrimmed(t) && GoodKeys(keys) && |keys| == |vals| && GoodHeader(h)
    ensures var first := Save(t, ragged, keys, vals, h).0;
            var second := Save(TrimAll(first), false, keys, vals, h).0;
            if Usable(t, ragged, h) then second == first else first == second + [""]
  {
    hide Trim, Trimmed, GoodKeys, GoodHeader, Section, Find, SectionEnd, Body, Tail, New, TrimAll;
    var body := Existing(t, ragged, h);
    ExistingFacts(t, ragged, h);
    if Usable(t, ragged, h) {
      RelaidUsable(t, ragged, keys, vals, h);
      SectionAgain(keys, vals, body, if Tail(t, ragged, SectionEnd(t, h)) == [] then [] else [""]);
    } else {
      RelaidNew(t, ragged, keys, vals, h);
      SectionAgain(keys, vals, body, [""]);
    }
  }

  lemma UnsoundSecond(t: seq<string>, ragged: bool, keys: seq<string>, vals: seq<Value>, h: string)
    requires !Sound(t, ragged, h) && AllTrimmed(t) && |keys| == |vals| && GoodHeader(h)
    ensures var first := Save(t, ragged, keys, vals, h).0;
            var second := Save(TrimAll(first), false, keys, vals, h).0;
            |Text(second)| > |Text(first)|
  {
    hide AllTrimmed, GoodHeader, Find, SectionEnd, Body, Section, TrimAll, Rest, Text, Save, Usable, Sound;
    var rest := Rest(keys, vals, {}, 0);
    var t' := TrimAll(Save(t, ragged, keys, vals, h).0);
    UnsoundLoads(t, ragged, keys, vals, h);
    SaveParts(t, ragged, keys, vals, h);
    NewForm(t, ragged, keys, vals, h);
    SaveParts(t', false, keys, vals, h);
    Longer(t, [h], rest, TrimAll(rest));
  }

  /** What a save writes, by its cases. */
  lemma SaveParts(t: seq<string>, ragged: bool, keys: seq<string>, vals: seq<Value>, h: string)
    requires |keys| == |vals|
    ensures if Usable(t, ragged, h) then
              Save(t, ragged, keys, vals, h).0
              == t[..Find(t, h) + 1] + Section(keys, vals, Body(t, h)) + Tail(t, ragged, SectionEnd(t, h))
            else Save(t, ragged, keys, vals, h).0 == t + [h] + Rest(keys, vals, {}, 0) + [""]
    ensures !Sound(t, ragged, h) ==> !Usable(t, ragged, h)
  {
    hide Rest, Section, Body, Find, SectionEnd, Tail;
  }

  lemma Longer(t: seq<string>, h: seq<string>, rest: seq<string>, s: seq<string>)
    ensures var t' := t + h + s + [""];
            && t'[..|t|] == t && t'[|t|..] == h + s + [""]
            && |Text(t + rest + ([""] + (h + s + [""])))| > |Text(t + h + rest + [""])|
  {
    hide Text;
    BlankText();
    TextAppend(t + rest, [""] + (h + s + [""]));
    TextAppend(t, rest);
    TextAppend([""], h + s + [""]);
    TextAppend(h + s, [""]);
    TextAppend(h, s);
    TextAppend(t + h + rest, [""]);
    TextAppend(t + h, rest);
    TextAppend(t, h);
  }

  /** Saving the same settings again leaves the file alone exactly when the header
      was found; a new section loses its last blank line. */
  lemma SaveTwice(text: string, keys: seq<string>, vals: seq<Value>, h: string)
    requires Short(text) && Writable(keys, vals, h)
    ensures var once := Update(text, keys, vals, h);
            var twice := Update(once, keys, vals, h);
            && (twice == once <==> Usable(Lines(text), Ragged(text), h))
            && (Find(Lines(text), h) == |Lines(text)| ==> once == twice + [NL])
            && (!Sound(Lines(text), Ragged(text), h) ==> |twice| > |once|)
  {
    hide Save, Lines, Ragged, Text, TrimAll, GoodKeys, Printable, GoodHeader, Short, Find;
    Reread(text, keys, vals, h);
    var t := Lines(text);
    var first := Save(t, Ragged(text), keys, vals, h).0;
    var second := Save(TrimAll(first), false, keys, vals, h).0;
    if Sound(t, Ragged(text), h) {
      SecondSaveLines(t, Ragged(text), keys, vals, h);
      TextAppend(second, [""]);
      BlankText();
    } else {
      UnsoundSecond(t, Ragged(text), keys, vals, h);
    }
  }

  lemma BlankText()
    ensures Text([""]) == [NL]
  {
    assert Text([""][1..]) == "";
  }

  // --------------------------------------------------------- other sections

  /** Neither header could be mistaken for the other. */
  predicate Apart(h: string, h': string) {
    "[" <= h' && !Starts(h, h') && !Starts(h', h)
  }

  lemma ApartLines(line: string, h: string, h': string)
    requires Apart(h, h')
    ensures !(Starts(line, h) && Starts(line, h'))
    ensures Starts(line, h') ==> Starts(line, "[")
  {
    Prefixes(line, h, h');
    Prefixes(line, h', h);
  }

  lemma Prefixes(line: string, a: string, b: string)
    ensures |a| <= |b| && a <= line && b <= line ==> a <= b
  {
    if |a| <= |b| && a <= line && b <= line {
      assert a == b[..|a|];
    }
  }

  /** The header is looked for past lines that do not start with it. */
  lemma FindSkips(a: seq<string>, u: seq<string>, h: string)
    requires forall k :: 0 <= k < |a| ==> !Starts(a[k], h)
    ensures Find(a + u, h) == |a| + Find(u, h)
    ensures Find(u, h) < |u| ==> SectionEnd(a + u, h) == |a| + SectionEnd(u, h) && Body(a + u, h) == Body(u, h)
  {
    hide Starts, First;
    var t := a + u;
    FindIs(t, h, |a| + Find(u, h));
    if Find(u, h) < |u| {
      var e := SectionEnd(u, h);
      assert forall k :: |a| <= k < |t| ==> t[k] == u[k - |a|];
      EndIs(t, h, |a| + e);
      SlicePast(a, u, Find(u, h) + 1, e);
    }
  }

  lemma SlicePast(a: seq<string>, u: seq<string>, i: nat, j: nat)
    requires i <= j <= |u|
    ensures (a + u)[|a| + i..|a| + j] == u[i..j]
  {
  }

  lemma FindIs(t: seq<string>, h: string, i: nat)
    requires i <= |t| && (i < |t| ==> Starts(t[i], h)) && forall k :: 0 <= k < i ==> !Starts(t[k], h)
    ensures Find(t, h) == i
  {
    FirstIs(t, h, 0, i);
  }

  lemma EndIs(t: seq<string>, h: string, e: nat)
    requires Find(t, h) < e <= |t| &&
      (e < |t| ==> Starts(t[e], "[")) && forall k :: Find(t, h) < k < e ==> !Starts(t[k], "[")
    ensures SectionEnd(t, h) == e
  {
    FirstIs(t, "[", Find(t, h) + 1, e);
  }

  /** A section in front of another header does not depend on what that header starts. */
  lemma LoadFront(p: seq<string>, x: seq<string>, ragged: bool, keys: seq<string>, vals: seq<Value>, h: string)
    requires |keys| == |vals| && Find(p, h) < |p| && x != [] && Starts(x[0], "[")
    ensures Load(p + x, ragged, keys, vals, h) == LoadBody(keys, vals, Body(p, h))
  {
    hide Starts, First, LoadBody;
    var t := p + x;
    assert forall k :: 0 <= k < |p| ==> t[k] == p[k];
    assert t[|p|] == x[0];
    FindIs(t, h, Find(p, h));
    EndIs(t, h, SectionEnd(p, h));
    assert t[Find(p, h) + 1..SectionEnd(p, h)] == Body(p, h);
  }

  lemma LoadSkips(a: seq<string>, u: seq<string>, ragged: bool, keys: seq<string>, vals: seq<Value>, h: string)
    requires |keys| == |vals| && forall k :: 0 <= k < |a| ==> !Starts(a[k], h)
    ensures Load(a + u, ragged, keys, vals, h) == Load(u, ragged, keys, vals, h)
  {
    hide Starts, First, LoadBody, Find, SectionEnd, Body;
    FindSkips(a, u, h);
  }

  /** A header on an unfinished last line and a finished one that nothing follows both load nothing. */
  lemma RaggedLoads(u: seq<string>, ragged: bool, keys: seq<string>, vals: seq<Value>, h: string)
    requires |keys| == |vals|
    ensures Load(u, ragged, keys, vals, h) == Load(u, false, keys, vals, h)
  {
  }

  lemma NotThere(a: seq<string>, keys: seq<string>, vals: seq<Value>, h: string)
    requires |keys| == |vals| && forall k :: 0 <= k < |a| ==> !Starts(a[k], h)
    ensures Load(a, false, keys, vals, h) == (vals, 0)
  {
    FindIs(a, h, |a|);
  }

  lemma OthersUsable(t: seq<string>, ragged: bool, keys: seq<string>, vals: seq<Value>, h: string, keys': seq<string>,
    vals': seq<Value>, h': string)
    requires Usable(t, ragged, h) && AllTrimmed(t) && GoodKeys(keys) && |keys| == |vals| &&
      "[" <= h && Apart(h, h') && |keys'| == |vals'|
    ensures Load(TrimAll(Save(t, ragged, keys, vals, h).0), false, keys', vals', h') == Load(t, false, keys', vals', h')
  {
    hide AllTrimmed, GoodKeys, Section, Starts, First, Apart, Load, TrimAll, Save, Body;
    var i := Find(t, h);
    var e := SectionEnd(t, h);
    var s := TrimAll(Section(keys, vals, Body(t, h)));
    var w := Tail(t, ragged, e);
    UsableForm(t, ragged, keys, vals, h);
    ApartLines(t[i], h, h');
    HeaderLine(t[i], h);
    if Find(t, h') < i {
      var p := t[..i];
      FindIs(p, h', Find(t, h'));
      assert t[i..][0] == t[i];
      Around(t, i, s, w);
      LoadFront(p, t[i..], false, keys', vals', h');
      LoadFront(p, [t[i]] + s + w, false, keys', vals', h');
    } else {
      OthersBehind(t, ragged, s, keys', vals', h, h');
    }
  }

  lemma Around(t: seq<string>, i: nat, s: seq<string>, w: seq<string>)
    requires i < |t|
    ensures t == t[..i] + t[i..] && t[..i + 1] + s + w == t[..i] + ([t[i]] + s + w)
  {
  }

  lemma HeaderLine(line: string, h: string)
    requires "[" <= h && Starts(line, h)
    ensures Starts(line, "[")
  {
  }

  lemma OthersBehind(t: seq<string>, ragged: bool, s: seq<string>, keys': seq<string>,
    vals': seq<Value>, h: string, h': string)
    requires Usable(t, ragged, h) && Apart(h, h') && |keys'| == |vals'| && Find(t, h') >= Find(t, h)
    requires forall k :: 0 <= k < |s| ==> !Starts(s[k], "[")
    ensures Load(t[..Find(t, h) + 1] + s + Tail(t, ragged, SectionEnd(t, h)), false, keys', vals', h')
            == Load(t, false, keys', vals', h')
  {
    hide Starts, First, Apart, Load;
    var i, e := Find(t, h), SectionEnd(t, h);
    forall k | 0 <= k < e
      ensures !Starts(t[k], h')
    {
      ApartLines(t[k], h, h');
    }
    assert t == t[..e] + t[e..];
    LoadSkips(t[..e], t[e..], false, keys', vals', h');
    forall k | 0 <= k < |s|
      ensures !Starts(s[k], h')
    {
      ApartLines(s[k], h, h');
    }
    ApartLines("", h, h');
    BlankStartsNothing();
    var a := t[..i + 1] + s;
    if Tail(t, ragged, e) == [] {
      assert a + Tail(t, ragged, e) == a;
      NotThere(a, keys', vals', h');
      LastHeader(t[e..], keys', vals', h');
    } else {
      assert a + Tail(t, ragged, e) == (a + [""]) + t[e..];
      LoadSkips(a + [""], t[e..], false, keys', vals', h');
    }
  }

  lemma LastHeader(u: seq<string>, keys: seq<string>, vals: seq<Value>, h: string)
    requires |u| <= 1 && |keys| == |vals|
    ensures Load(u, false, keys, vals, h) == (vals, 0)
  {
  }

  lemma OthersNew(t: seq<string>, ragged: bool, keys: seq<string>, vals: seq<Value>, h: string, keys': seq<string>,
    vals': seq<Value>, h': string)
    requires !Usable(t, ragged, h) && AllTrimmed(t) && GoodKeys(keys) && |keys| == |vals| && GoodHeader(h) &&
      Apart(h, h') && |keys'| == |vals'|
    ensures Load(TrimAll(Save(t, ragged, keys, vals, h).0), false, keys', vals', h') == Load(t, false, keys', vals', h')
  {
    hide AllTrimmed, GoodKeys, Starts, First, Apart, Load, Section, TrimAll, Save, Rest;
    NewForm(t, ragged, keys, vals, h);
    var s := TrimAll(Rest(keys, vals, {}, 0)) + [""];
    assert TrimAll(Save(t, ragged, keys, vals, h).0) == t + ([h] + s);
    HeaderStarts(h);
    HeaderLine(h, h);
    if Find(t, h') < |t| {
      LoadFront(t, [h] + s, false, keys', vals', h');
      LoadWhole(t, keys', vals', h');
    } else {
      NewLines(keys, vals);
      NoneStarts(h, s, h');
      LoadSkips(t, [h] + s, false, keys', vals', h');
      NotThere([h] + s, keys', vals', h');
      NotThere(t, keys', vals', h');
    }
  }

  lemma LoadWhole(t: seq<string>, keys: seq<string>, vals: seq<Value>, h: string)
    requires |keys| == |vals| && Find(t, h) < |t|
    ensures Load(t, false, keys, vals, h) == LoadBody(keys, vals, Body(t, h))
  {
  }

  lemma NoneStarts(h: string, s: seq<string>, h': string)
    requires Apart(h, h') && s != [] && s[|s| - 1] == "" && forall k :: 0 <= k < |s| - 1 ==> !Starts(s[k], "[")
    ensures forall k :: 0 <= k < |[h] + s| ==> !Starts(([h] + s)[k], h')
  {
    hide Starts, Apart;
    BlankStartsNothing();
    HeaderStarts(h);
    forall k | 0 <= k < |[h] + s|
      ensures !Starts(([h] + s)[k], h')
    {
      ApartLines(([h] + s)[k], h, h');
    }
  }

  /** Every other section loads into every table what it loaded before. */
  lemma OtherSectionsKept(text: string, keys: seq<string>, vals: seq<Value>, h: string, keys': seq<string>,
    vals': seq<Value>, h': string)
    requires Short(text) && Writable(keys, vals, h) && Apart(h, h') && |keys'| == |vals'|
    ensures Input(Update(text, keys, vals, h), keys', vals', h') == Input(text, keys', vals', h')
  {
    hide Save, Lines, Ragged, Text, TrimAll, GoodKeys, Printable, Short, Find, Load, Apart;
    Reread(text, keys, vals, h);
    var t := Lines(text);
    RaggedLoads(t, Ragged(text), keys', vals', h');
    if Usable(t, Ragged(text), h) {
      OthersUsable(t, Ragged(text), keys, vals, h, keys', vals', h');
    } else {
      OthersNew(t, Ragged(text), keys, vals, h, keys', vals', h');
    }
  }

  // ------------------------------------------------------------ other lines

  /** Without the blank lines. */
  function Solid(lines: seq<string>): seq<string> {
    if lines == [] then [] else (if lines[0] == "" then [] else [lines[0]]) + Solid(lines[1..])
  }

  lemma {:induction false} SolidAppend(a: seq<string>, b: seq<string>)
    ensures Solid(a + b) == Solid(a) + Solid(b)
    decreases |a|
  {
    if a == [] {
      assert a + b == b;
    } else {
      assert (a + b)[1..] == a[1..] + b;
      SolidAppend(a[1..], b);
    }
  }

  lemma SolidThree(a: seq<string>, b: seq<string>, c: seq<string>)
    ensures Solid(a + b + c) == Solid(a) + Solid(b) + Solid(c)
  {
    SolidAppend(a + b, c);
    SolidAppend(a, b);
  }

  lemma SolidTail(t: seq<string>, ragged: bool, e: nat)
    requires e <= |t| && (e < |t| ==> Starts(t[e], "["))
    ensures Solid(Tail(t, ragged, e)) == if ragged && e == |t| - 1 then [] else Solid(t[e..])
    ensures ragged && e == |t| - 1 ==> Solid(t[e..]) == [t[e]]
  {
    SolidAppend([""], t[e..]);
    if e == |t| - 1 {
      assert t[e..] == [t[e]] && [t[e]][1..] == [];
    }
  }

  /** The header and what is above it, the section, and the next header with what is below it. */
  function Rewritten(t: seq<string>, keys: seq<string>, vals: seq<Value>, h: string): seq<string>
    requires Find(t, h) < |t| && |keys| == |vals|
  {
    t[..Find(t, h) + 1] + TrimAll(Section(keys, vals, Body(t, h))) + t[SectionEnd(t, h)..]
  }

  /** The next header ends the file without a newline. */
  predicate NextUnfinished(text: string, h: string)
    requires Find(Lines(text), h) < |Lines(text)|
  {
    Ragged(text) && SectionEnd(Lines(text), h) == |Lines(text)| - 1
  }

  /** Up to blank lines a save keeps every line above and below the section, comments and unknown lines included,
      trimmed and in order, if and only if the next header is a finished line; otherwise that header is lost, and
      nothing else. */
  lemma OtherLinesKeptIff(text: string, keys: seq<string>, vals: seq<Value>, h: string)
    requires Short(text) && Writable(keys, vals, h) && Usable(Lines(text), Ragged(text), h)
    ensures var t, saved := Lines(text), Solid(Lines(Update(text, keys, vals, h)));
      && (saved == Solid(Rewritten(t, keys, vals, h)) <==> !NextUnfinished(text, h))
      && (NextUnfinished(text, h) ==> Solid(Rewritten(t, keys, vals, h)) == saved + [t[|t| - 1]])
  {
    hide Save, Lines, Ragged, Text, TrimAll, GoodKeys, Printable, GoodHeader,
      Short, Find, SectionEnd, Section, Body, Solid, Tail;
    Reread(text, keys, vals, h);
    var t, ragged := Lines(text), Ragged(text);
    var s, e := TrimAll(Section(keys, vals, Body(t, h))), SectionEnd(t, h);
    UsableForm(t, ragged, keys, vals, h);
    SolidThree(t[..Find(t, h) + 1], s, Tail(t, ragged, e));
    SolidThree(t[..Find(t, h) + 1], s, t[e..]);
    SolidTail(t, ragged, e);
  }

  /** Without a usable header all lines stay in front of the new section. */
  lemma OldLinesInFront(text: string, keys: seq<string>, vals: seq<Value>, h: string)
    requires Short(text) && Writable(keys, vals, h) && !Usable(Lines(text), Ragged(text), h)
    ensures Lines(Update(text, keys, vals, h)) == Lines(text) + [h] + TrimAll(Rest(keys, vals, {}, 0)) + [""]
  {
    hide Save, Lines, Ragged, Text, TrimAll, GoodKeys, Printable, Short, Find, Rest;
    Reread(text, keys, vals, h);
    NewForm(Lines(text), Ragged(text), keys, vals, h);
  }

  // ---------------------------------------------------------- counterexamples

  lemma SettingMatches(keys: seq<string>, line: string, rest: string)
    requires line == "a =" + rest && keys != [] && keys[0] == "a"
    ensures Match(keys, line) == 0 && !("#" <= line) && !Starts(line, "[")
  {
    hide Split;
    assert GoodKey("a");
    KeyTrims("a");
    SplitAt("a ", rest);
    assert "a" + " " == "a ";
    assert line == "a " + "=" + rest;
    assert line[0] == 'a' && "#"[0] == '#' && "["[0] == '[';
  }

  /** A last line that no newline ends. */
  lemma LastPiece(line: string)
    requires Fit(line) && line != "" && Trimmed(line)
    ensures Lines(line) == [line] && Ragged(line)
  {
    StopEnds(line, 0);
    TrimTrimmed(line);
    assert line[..|line|] == line && line[|line|..] == "";
  }

  lemma {:induction false} StopEnds(line: string, k: nat)
    requires Fit(line) && k <= |line|
    ensures Stop(line, k) == |line|
    decreases |line| - k
  {
    if k < |line| {
      StopEnds(line, k + 1);
    }
  }

  lemma FirstLine(line: string, more: string)
    requires Fit(line) && Trimmed(line)
    ensures Lines(line + [NL] + more) == [line] + Lines(more) && Ragged(line + [NL] + more) == Ragged(more)
  {
    hide Trim;
    FirstPiece(line, more);
    TrimLine(line);
    TrimTrimmed(line);
    NoneRagged();
  }

  lemma NoneRagged()
    ensures !Ragged("") && Lines("") == []
  {
  }

  /** The next header is lost when it ends the file without a newline. */
  lemma LastHeaderDropped()
    ensures Update("[S]\na = 1\n[T]", ["a"], [Words("x")], "[S]") == "[S]\na = x\n"
  {
    hide Lines, Ragged, Text, Match, Starts, Print, First;
    var text, t := "[S]\na = 1\n[T]", ["[S]", "a = 1", "[T]"];
    LastPiece("[T]");
    FirstLine("a = 1", "[T]");
    FirstLine("[S]", "a = 1\n[T]");
    assert "a = 1" + [NL] + "[T]" == "a = 1\n[T]" && "[S]" + [NL] + "a = 1\n[T]" == text;
    assert Lines(text) == t && Ragged(text);
    assert "a = 1" == "a =" + " 1";
    SettingMatches(["a"], "a = 1", " 1");
    Headers();
    FindIs(t, "[S]", 0);
    EndIs(t, "[S]", 2);
    assert t[1..2] == ["a = 1"] && t[..1] == ["[S]"];
    BodyOne(["a"], [Words("x")], "a = 1");
    PrintsAs();
    assert New(["a"], [Words("x")], ["a = 1"]) == [];
    assert Save(t, true, ["a"], [Words("x")], "[S]").0 == ["[S]", "a = x"];
    TwoLines("[S]", "a = x");
  }

  lemma Headers()
    ensures Starts("[S]", "[S]") && Starts("[T]", "[")
  {
  }

  lemma PrintsAs()
    ensures Print("a", Words("x")) == "a = x"
  {
  }

  lemma TwoLines(a: string, b: string)
    ensures Text([a, b]) == a + [NL] + b + [NL]
  {
    TextAppend([a], [b]);
    assert [a] + [b] == [a, b] && [a][1..] == [] && [b][1..] == [];
  }

  const TWICE := "[S]\na = 1\na = 2\n"

  lemma TwiceLines()
    ensures Lines(TWICE) == ["[S]", "a = 1", "a = 2"] && !Ragged(TWICE)
  {
    hide Lines, Ragged;
    NoneRagged();
    FirstLine("a = 2", "");
    FirstLine("a = 1", "a = 2\n");
    FirstLine("[S]", "a = 1\na = 2\n");
    assert "a = 2" + [NL] + "" == "a = 2\n" && "a = 1" + [NL] + "a = 2\n" == "a = 1\na = 2\n";
    assert "[S]" + [NL] + "a = 1\na = 2\n" == TWICE;
  }

  lemma TwiceBody()
    ensures var t := ["[S]", "a = 1", "a = 2"];
      Find(t, "[S]") == 0 && SectionEnd(t, "[S]") == 3 && Body(t, "[S]") == ["a = 1", "a = 2"]
  {
    hide Starts, First;
    var t := ["[S]", "a = 1", "a = 2"];
    assert "a = 1" == "a =" + " 1" && "a = 2" == "a =" + " 2";
    SettingMatches(["a"], "a = 1", " 1");
    SettingMatches(["a"], "a = 2", " 2");
    Headers();
    FindIs(t, "[S]", 0);
    EndIs(t, "[S]", 3);
    assert t[1..3] == ["a = 1", "a = 2"];
  }

  lemma TwiceCounts()
    ensures var body := ["a = 1", "a = 2"];
      Count(["a", "b"], body) == 2 && 0 in Seen(["a", "b"], body) && 1 !in Seen(["a", "b"], body)
  {
    hide Match;
    var body := ["a = 1", "a = 2"];
    assert "a = 1" == "a =" + " 1" && "a = 2" == "a =" + " 2";
    SettingMatches(["a", "b"], "a = 1", " 1");
    SettingMatches(["a", "b"], "a = 2", " 2");
    assert body[1..] == ["a = 2"] && body[1..][1..] == [];
  }

  /** Two lines for one key are as many as the table has entries, so the other
      entry is not written and keeps its old value. */
  lemma DuplicateHidesKey()
    ensures var keys, vals := ["a", "b"], [Words("x"), Words("y")];
      Input(Update(TWICE, keys, vals, "[S]"), keys, [Words(""), Words("old")], "[S]").0 == [Words("x"), Words("old")]
  {
    hide Lines, Ragged, Update, Input, Find, SectionEnd, Body, Count, Seen;
    TwiceLines();
    TwiceBody();
    TwiceCounts();
    ExampleWritable();
    SaveThenLoad(TWICE, ["a", "b"], [Words("x"), Words("y")], [Words(""), Words("old")], "[S]");
    TrimTrimmed("x");
  }

  lemma ExampleWritable()
    ensures Writable(["a", "b"], [Words("x"), Words("y")], "[S]")
  {
  }
}
