/** src/cfgopts.c and Str_Trim as they run: a line buffer filled from the file
    and trimmed in place, values stored one by one. */
module ConfigFile {
  import opened ConfigText
  import opened ConfigModel
  import opened ConfigTheorems
  import opened ConfigSaving

  /** Str_Trim on a buffer that holds n characters; the new length. */
  method StrTrim(buffer: array<char>, n: nat) returns (m: nat)
    requires n <= buffer.Length
    modifies buffer
    ensures m <= n && buffer[..m] == Trim(old(buffer[..n]))
  {
    hide Trim, Blank;
    var i := 0;
    while i < n && Blank(buffer[i])
      invariant i <= n && AllBlank(old(buffer[..n])[..i]) && buffer[..] == old(buffer[..])
    {
      i := i + 1;
    }
    ghost var was := buffer[..n];
    var len := n;
    if 0 < i < n {
      len := n - i;
      Move(buffer, i, len);
      assert was[i..] == old(buffer[..])[i..n];
    }
    assert buffer[..len] == if i < n then was[i..] else was;
    m := Unblanked(buffer, len);
    ghost var cur := buffer[..len];
    assert m > 0 ==> cur[m - 1] == buffer[m - 1];
    assert AllBlank(was[..i]) && (i < n ==> !Blank(was[i]));
    Trimming(was, i, cur, m);
    assert cur[..m] == buffer[..m];
  }

  /** The length without the blanks at the end. */
  method Unblanked(buffer: array<char>, n: nat) returns (m: nat)
    requires n <= buffer.Length
    ensures m <= n && AllBlank(buffer[..n][m..]) && (m > 0 ==> !Blank(buffer[m - 1]))
  {
    hide Blank;
    m := n;
    while m > 0 && Blank(buffer[m - 1])
      invariant m <= n && AllBlank(buffer[..n][m..])
    {
      m := m - 1;
    }
  }

  lemma Trimming(was: string, i: nat, s: string, m: nat)
    requires i <= |was| && AllBlank(was[..i]) && (i < |was| ==> !Blank(was[i]))
    requires s == if i < |was| then was[i..] else was
    requires m <= |s| && AllBlank(s[m..]) && (m > 0 ==> !Blank(s[m - 1]))
    ensures Trim(was) == s[..m]
  {
    hide Trim, Blank;
    if i < |was| {
      assert was == was[..i] + s[..m] + s[m..];
      assert m > 0 ==> s[..m][0] == was[i];
      TrimIs(was[..i], s[..m], s[m..]);
    } else {
      assert was[..i] == was;
      assert AllBlank(was);
      TrimIs("", "", was);
      assert "" + "" + was == was;
    }
  }

  /** memmove to the front of the buffer. */
  method Move(buffer: array<char>, i: nat, len: nat)
    requires 0 < i && i + len <= buffer.Length
    modifies buffer
    ensures buffer[..len] == old(buffer[i..i + len])
  {
    var k := 0;
    while k < len
      invariant k <= len
      invariant forall j :: 0 <= j < k ==> buffer[j] == old(buffer[i + j])
      invariant forall j :: k <= j < buffer.Length ==> buffer[j] == old(buffer[j])
    {
      buffer[k] := buffer[i + k];
      k := k + 1;
    }
  }

  /** An open file with the line buffer of its reader. */
  class Reader {
    var rest: string
    var eof: bool
    const line: array<char>
    var len: nat

    constructor (text: string)
      ensures Valid() && fresh(line) && At(Lines(text), Ragged(text), 0, false)
    {
      rest, eof, len := text, false, 0;
      line := new char[PIECE + 1];
    }

    ghost predicate Valid()
      reads this`len
    {
      line.Length == PIECE + 1 && len <= PIECE
    }

    /** i of the lines t have been read; over: a read has failed. */
    ghost predicate At(t: seq<string>, ragged: bool, i: nat, over: bool)
      reads this`rest, this`eof
    {
      && i <= |t| && Lines(rest) == t[i..]
      && (i < |t| ==> Ragged(rest) == ragged)
      && eof == (over || (ragged && i == |t| > 0))
    }

    /** fgets(line, 1024, file). */
    method Gets() returns (ok: bool)
      requires Valid()
      modifies this`rest, this`eof, this`len, line
      ensures Valid() && ok == (old(rest) != "")
      ensures ok ==> line[..len] == old(rest)[..PieceLength(old(rest))]
      ensures rest == old(rest)[PieceLength(old(rest))..]
      ensures eof == (old(eof) || Hits(old(rest)))
    {
      if rest == "" {
        eof := true;
        return false;
      }
      var k := 0;
      var more := true;
      while more && k < PIECE && k < |rest|
        invariant rest == old(rest) && eof == old(eof)
        invariant k <= PIECE && k <= |rest| && line[..k] == rest[..k]
        invariant more ==> Stop(rest, k) == PieceLength(rest) && (k > 0 ==> rest[k - 1] != NL)
        invariant !more ==> k == PieceLength(rest) && k > 0 && rest[k - 1] == NL
        decreases more, |rest| - k
      {
        line[k] := rest[k];
        more := rest[k] != NL;
        k := k + 1;
      }
      if more && k < PIECE {
        eof := true;
      }
      len := k;
      rest := rest[k..];
      ok := true;
    }

    /** Str_Trim(fgets()). */
    method Next(ghost t: seq<string>, ghost ragged: bool, ghost i: nat, ghost over: bool) returns (ok: bool)
      requires Valid() && At(t, ragged, i, over)
      modifies this`rest, this`eof, this`len, line
      ensures Valid() && ok == (i < |t|)
      ensures ok ==> line[..len] == t[i] && At(t, ragged, i + 1, over)
      ensures !ok ==> At(t, ragged, i, true)
    {
      hide Trim, Hits;
      ok := Gets();
      if ok {
        LinesStep(old(rest));
        assert t[i..][0] == t[i] && t[i..][1..] == t[i + 1..];
        len := StrTrim(line, len);
      } else {
        NoLines();
      }
    }
  }

  lemma NoLines()
    ensures Hits("") && Lines("") == []
  {
  }

  lemma LinesStep(text: string)
    requires text != ""
    ensures var more := text[PieceLength(text)..];
            && Lines(text) == [Trim(text[..PieceLength(text)])] + Lines(more)
            && (Lines(more) == [] <==> more == "")
            && (more != "" ==> !Hits(text) && Ragged(more) == Ragged(text))
            && (more == "" ==> Hits(text) == Ragged(text))
  {
    hide Trim;
  }

  /** Reads up to the header; at the end of the file afterwards exactly when there is no usable one. */
  method FindHeader(f: Reader, ghost t: seq<string>, ghost ragged: bool, h: string)
    requires f.Valid() && f.At(t, ragged, 0, false)
    modifies f`rest, f`eof, f`len, f.line
    ensures f.Valid()
    ensures if Find(t, h) < |t| then f.At(t, ragged, Find(t, h) + 1, false) else f.At(t, ragged, |t|, true)
    ensures f.eof == !Usable(t, ragged, h)
  {
    hide Lines, Ragged, Starts;
    ghost var i := 0;
    var more := true;
    while more
      invariant f.Valid() && i <= |t|
      invariant more ==> f.At(t, ragged, i, false) && First(t, h, i) == Find(t, h)
      invariant !more ==>
        if Find(t, h) < |t| then f.At(t, ragged, Find(t, h) + 1, false) else f.At(t, ragged, |t|, true)
      decreases more, |t| - i
    {
      var ok := f.Next(t, ragged, i, false);
      more := ok && !Starts(f.line[..f.len], h);
      if more {
        i := i + 1;
      }
    }
  }

  /** parse_input_config_entry over the table: the entry that is named takes the value. */
  method LoadEntry(keys: seq<string>, vals: array<Value>, name: string, rest: string) returns (n: nat)
    requires Distinct(keys) && vals.Length == |keys|
    modifies vals
    ensures var k := Index(keys, name);
            if k == |keys| then n == 0 && vals[..] == old(vals[..])
            else match Parse(old(vals[k]), rest)
                 case None => n == 0 && vals[..] == old(vals[..])
                 case Some(v) => n == 1 && vals[..] == old(vals[..])[k := v]
  {
    hide Parse;
    ghost var was := vals[..];
    n := 0;
    var i := 0;
    while i < |keys|
      invariant i <= |keys|
      invariant Index(keys, name) >= i ==> n == 0 && vals[..] == was
      invariant var k := Index(keys, name);
                k < i ==> match Parse(was[k], rest)
                          case None => n == 0 && vals[..] == was
                          case Some(v) => n == 1 && vals[..] == was[k := v]
    {
      if name == keys[i] {
        match Parse(vals[i], rest)
        case None =>
        case Some(v) =>
          vals[i] := v;
          n := n + 1;
      }
      i := i + 1;
    }
  }

  /** The lines of the section, up to the next header. */
  method LoadSection(f: Reader, ghost t: seq<string>, ghost ragged: bool, h: string, keys: seq<string>,
    vals: array<Value>) returns (count: nat)
    requires f.Valid() && Find(t, h) < |t| && f.At(t, ragged, Find(t, h) + 1, false)
    requires Distinct(keys) && vals.Length == |keys|
    modifies f`rest, f`eof, f`len, f.line, vals
    ensures (vals[..], count) == LoadBody(keys, old(vals[..]), Body(t, h))
  {
    hide Lines, Ragged, First, Find, Index, Split, Parse, Distinct;
    count := 0;
    ghost var j, e := Find(t, h) + 1, SectionEnd(t, h);
    assert t[j..e] == Body(t, h);
    var more := true;
    while more
      invariant f.Valid() && j <= e
      invariant more ==> f.At(t, ragged, j, false)
      invariant !more ==> j == e
      invariant Pending(keys, old(vals[..]), vals[..], count, t, h, j)
      decreases more, |t| - j
    {
      more := f.Next(t, ragged, j, false);
      if more && !Starts(f.line[..f.len], "[") {
        var line := f.line[..f.len];
        PendingStep(keys, old(vals[..]), vals[..], count, t, h, j);
        if !("#" <= line) && Split(line).Some? {
          var n := LoadEntry(keys, vals, Split(line).value.0, Split(line).value.1);
          count := count + n;
        }
        j := j + 1;
      } else {
        more := false;
      }
    }
    assert t[j..e] == [];
  }

  /** Loading what is left of the section completes the table and the count. */
  ghost predicate Pending(keys: seq<string>, start: seq<Value>, vals: seq<Value>,
    count: nat, t: seq<string>, h: string, j: nat) {
    && |keys| == |vals| == |start| && Find(t, h) < |t| && j <= SectionEnd(t, h)
    && var left := LoadBody(keys, vals, t[j..SectionEnd(t, h)]);
       LoadBody(keys, start, Body(t, h)) == (left.0, count + left.1)
  }

  lemma PendingStep(keys: seq<string>, start: seq<Value>, vals: seq<Value>,
    count: nat, t: seq<string>, h: string, j: nat)
    requires Pending(keys, start, vals, count, t, h, j) && j < SectionEnd(t, h)
    ensures var r := LoadLine(keys, vals, t[j]);
            Pending(keys, start, r.0, count + r.1, t, h, j + 1)
  {
    hide LoadLine, Find;
    var e := SectionEnd(t, h);
    assert t[j..e][1..] == t[j + 1..e];
  }

  /** input_config on an existing file. */
  method InputConfig(text: string, keys: seq<string>, vals: array<Value>, h: string) returns (count: nat)
    requires Distinct(keys) && vals.Length == |keys|
    modifies vals
    ensures (vals[..], count) == Input(text, keys, old(vals[..]), h)
  {
    hide Lines, Ragged, Find, Body, LoadBody, Distinct;
    ghost var t, ragged := Lines(text), Ragged(text);
    var f := new Reader(text);
    FindHeader(f, t, ragged, h);
    count := 0;
    if !f.eof {
      count := LoadSection(f, t, ragged, h, keys, vals);
    }
  }

  /** fprintf(file, "%s\n", line). */
  method Emit(out: string, ghost lines: seq<string>, line: string) returns (out': string, ghost lines': seq<string>)
    requires out == Text(lines)
    ensures lines' == lines + [line] && out' == Text(lines')
  {
    hide Text;
    TextAppend(lines, [line]);
    TextOne(line);
    out' := out + line + [NL];
    lines' := lines + [line];
  }

  lemma TextOne(line: string)
    ensures Text([line]) == line + [NL]
  {
    assert Text([line][1..]) == "";
  }

  /** Copies the lines up to the header. */
  method CopyToHeader(f: Reader, ghost t: seq<string>, ghost ragged: bool, h: string) returns (out: string)
    requires f.Valid() && f.At(t, ragged, 0, false)
    modifies f`rest, f`eof, f`len, f.line
    ensures f.Valid()
    ensures if Find(t, h) < |t| then f.At(t, ragged, Find(t, h) + 1, false) else f.At(t, ragged, |t|, true)
    ensures f.eof == !Usable(t, ragged, h)
    ensures out == Text(if Find(t, h) < |t| then t[..Find(t, h) + 1] else t)
  {
    hide Lines, Ragged, Starts, Text;
    ghost var i := 0;
    ghost var lines := [];
    out := "";
    EmptyText();
    var more := true;
    while more
      invariant f.Valid() && i <= |t| && out == Text(lines)
      invariant more ==> f.At(t, ragged, i, false) && First(t, h, i) == Find(t, h) && lines == t[..i]
      invariant !more ==> if Find(t, h) < |t| then f.At(t, ragged, Find(t, h) + 1, false) &&
        lines == t[..Find(t, h) + 1] else f.At(t, ragged, |t|, true) && lines == t
      decreases more, |t| - i
    {
      more := f.Next(t, ragged, i, false);
      if more {
        assert t[..i] + [t[i]] == t[..i + 1];
        out, lines := Emit(out, lines, f.line[..f.len]);
        more := !Starts(f.line[..f.len], h);
        i := i + 1;
      }
    }
  }

  lemma EmptyText()
    ensures Text([]) == ""
  {
  }

  /** The table scan for one line: the entry that is named is printed and its flag is set. */
  method SaveEntry(keys: seq<string>, vals: seq<Value>, name: string,
    flags: array<bool>, out: string, ghost lines: seq<string>)
    returns (out': string, n: nat, ghost lines': seq<string>)
    requires Distinct(keys) && |keys| == |vals| == flags.Length && out == Text(lines)
    modifies flags
    ensures out' == Text(lines')
    ensures var k := Index(keys, name);
            if k == |keys| then n == 0 && lines' == lines && flags[..] == old(flags[..])
            else n == 1 && lines' == lines + [Print(keys[k], vals[k])] && flags[..] == old(flags[..])[k := true]
  {
    hide Print, Text;
    ghost var was := flags[..];
    out', n, lines' := out, 0, lines;
    var i := 0;
    while i < |keys|
      invariant i <= |keys| && out' == Text(lines')
      invariant var k := Index(keys, name);
                if k >= i then n == 0 && lines' == lines && flags[..] == was
                else n == 1 && lines' == lines + [Print(keys[k], vals[k])] && flags[..] == was[k := true]
    {
      if name == keys[i] {
        out', lines' := Emit(out', lines', Print(keys[i], vals[i]));
        flags[i] := true;
        n := n + 1;
      }
      i := i + 1;
    }
  }

  /** What the flags record of the lines read so far. */
  ghost predicate Flags(flags: seq<bool>, keys: seq<string>, body: seq<string>) {
    |flags| == |keys| && forall k :: 0 <= k < |keys| ==> flags[k] == (k in Seen(keys, body))
  }

  lemma OneMore(keys: seq<string>, vals: seq<Value>, body: seq<string>, line: string)
    requires |keys| == |vals|
    ensures SaveBody(keys, vals, body + [line]) == SaveBody(keys, vals, body) + SaveLine(keys, vals, line)
    ensures Seen(keys, body + [line]) == Seen(keys, body) + {Match(keys, line)}
    ensures Count(keys, body + [line]) == Count(keys, body) + if Match(keys, line) < |keys| then 1 else 0
  {
    hide SaveLine, Match;
    BodyAppend(keys, vals, body, [line]);
    BodyOne(keys, vals, line);
  }

  /** Rewrites the lines of the section; tells whether a header ended it. */
  method RewriteSection(f: Reader, ghost t: seq<string>, ghost ragged: bool, h: string, keys: seq<string>,
    vals: seq<Value>, flags: array<bool>,
                        out: string, ghost lines: seq<string>)
    returns (out': string, count: nat, stopped: bool, ghost lines': seq<string>)
    requires f.Valid() && Find(t, h) < |t| && f.At(t, ragged, Find(t, h) + 1, false) && out == Text(lines)
    requires Distinct(keys) && |keys| == |vals| == flags.Length && flags != f.line as object
    requires forall k :: 0 <= k < flags.Length ==> !flags[k]
    modifies f`rest, f`eof, f`len, f.line, flags
    ensures f.Valid() && out' == Text(lines') && lines' == lines + SaveBody(keys, vals, Body(t, h))
    ensures count == Count(keys, Body(t, h)) && Flags(flags[..], keys, Body(t, h))
    ensures stopped == (SectionEnd(t, h) < |t|)
    ensures if stopped then f.At(t, ragged, SectionEnd(t, h) + 1, false) &&
      f.line[..f.len] == t[SectionEnd(t, h)] else f.At(t, ragged, |t|, true)
  {
    hide Lines, Ragged, First, Find, Index, Split, Print, Distinct, Text, SaveBody, Seen, Count;
    out', count, lines' := out, 0, lines;
    ghost var i, e := Find(t, h) + 1, SectionEnd(t, h);
    ghost var j := i;
    ghost var body := [];
    NoBody(keys, vals);
    stopped := false;
    var more := true;
    while more
      invariant f.Valid() && i <= j <= e && body == t[i..j]
      invariant more ==> f.At(t, ragged, j, false) && !stopped
      invariant !more ==> j == e && stopped == (e < |t|)
      invariant !more ==> if stopped then f.At(t, ragged, e + 1, false) &&
        f.line[..f.len] == t[e] else f.At(t, ragged, |t|, true)
      invariant out' == Text(lines') && lines' == lines + SaveBody(keys, vals, body)
      invariant count == Count(keys, body) && Flags(flags[..], keys, body)
      decreases more, |t| - j
    {
      more := f.Next(t, ragged, j, false);
      if more && Starts(f.line[..f.len], "[") {
        stopped, more := true, false;
      } else if more {
        var line := f.line[..f.len];
        var n;
        out', n, lines' := RewriteLine(keys, vals, line, flags, out', lines', body);
        count := count + n;
        body := body + [line];
        assert t[i..j + 1] == t[i..j] + [t[j]];
        j := j + 1;
      }
    }
  }

  lemma NoBody(keys: seq<string>, vals: seq<Value>)
    requires |keys| == |vals|
    ensures SaveBody(keys, vals, []) == [] && Seen(keys, []) == {} && Count(keys, []) == 0
  {
  }

  /** Comments are copied, settings rewritten, other lines dropped. */
  method RewriteLine(keys: seq<string>, vals: seq<Value>, line: string, flags: array<bool>, out: string,
    ghost lines: seq<string>, ghost body: seq<string>)
    returns (out': string, n: nat, ghost lines': seq<string>)
    requires Distinct(keys) && |keys| == |vals| == flags.Length && out == Text(lines) && Flags(flags[..], keys, body)
    modifies flags
    ensures out' == Text(lines') && lines' == lines + SaveLine(keys, vals, line)
    ensures Count(keys, body + [line]) == Count(keys, body) + n && Flags(flags[..], keys, body + [line])
    ensures SaveBody(keys, vals, body + [line]) == SaveBody(keys, vals, body) + SaveLine(keys, vals, line)
  {
    hide Index, Split, Print, Distinct, Text, SaveBody, Seen, Count;
    OneMore(keys, vals, body, line);
    out', n, lines' := out, 0, lines;
    if "#" <= line {
      out', lines' := Emit(out, lines, line);
    } else if Split(line).Some? {
      out', n, lines' := SaveEntry(keys, vals, Split(line).value.0, flags, out, lines);
    }
  }

  /** The entries without a flag. */
  method WriteMissing(keys: seq<string>, vals: seq<Value>, flags: array<bool>,
    ghost seen: set<nat>, out: string, ghost lines: seq<string>)
    returns (out': string, n: nat, ghost lines': seq<string>)
    requires |keys| == |vals| == flags.Length && out == Text(lines)
    requires forall k :: 0 <= k < |keys| ==> flags[k] == (k in seen)
    ensures out' == Text(lines') && lines' == lines + Rest(keys, vals, seen, 0) && n == |Rest(keys, vals, seen, 0)|
  {
    hide Print, Text;
    out', n, lines' := out, 0, lines;
    var i := 0;
    while i < |keys|
      invariant i <= |keys| && out' == Text(lines')
      invariant lines' + Rest(keys, vals, seen, i) == lines + Rest(keys, vals, seen, 0)
      invariant n + |Rest(keys, vals, seen, i)| == |Rest(keys, vals, seen, 0)|
    {
      RestStep(keys, vals, seen, i, lines');
      if !flags[i] {
        out', lines' := Emit(out', lines', Print(keys[i], vals[i]));
        n := n + 1;
      }
      i := i + 1;
    }
  }

  /** write_header_tokens: the header, every entry, a blank line. */
  method WriteHeaderTokens(keys: seq<string>, vals: seq<Value>, h: string, out: string, ghost lines: seq<string>)
    returns (out': string, n: nat, ghost lines': seq<string>)
    requires |keys| == |vals| && out == Text(lines)
    ensures out' == Text(lines') && lines' == lines + [h] + Rest(keys, vals, {}, 0) + [""] && n == |keys|
  {
    hide Print, Text;
    out', lines' := Emit(out, lines, h);
    n := 0;
    while n < |keys|
      invariant n <= |keys| && out' == Text(lines')
      invariant lines' + Rest(keys, vals, {}, n) == lines + [h] + Rest(keys, vals, {}, 0)
    {
      RestStep(keys, vals, {}, n, lines');
      out', lines' := Emit(out', lines', Print(keys[n], vals[n]));
      n := n + 1;
    }
    out', lines' := Emit(out', lines', "");
  }

  lemma RestStep(keys: seq<string>, vals: seq<Value>, seen: set<nat>, i: nat, lines: seq<string>)
    requires |keys| == |vals| && i < |keys|
    ensures var more := Rest(keys, vals, seen, i + 1);
            && lines + Rest(keys, vals, seen, i)
               == (if i in seen then lines else lines + [Print(keys[i], vals[i])]) + more
            && |Rest(keys, vals, seen, i)| == (if i in seen then 0 else 1) + |more|
  {
    hide Print;
  }

  /** The lines behind the next header. */
  method CopyRest(f: Reader, ghost t: seq<string>, ghost ragged: bool, ghost i: nat,
    ghost over: bool, out: string, ghost lines: seq<string>)
    returns (out': string)
    requires f.Valid() && f.At(t, ragged, i, over) && out == Text(lines)
    modifies f`rest, f`eof, f`len, f.line
    ensures out' == Text(lines + t[i..])
  {
    hide Lines, Ragged, Text;
    out' := out;
    ghost var lines', j := lines, i;
    var more := true;
    while more
      invariant f.Valid() && i <= j <= |t| && out' == Text(lines') && lines' == lines + t[i..j]
      invariant more ==> f.At(t, ragged, j, over)
      invariant !more ==> j == |t|
      decreases more, |t| - j
    {
      more := f.Next(t, ragged, j, over);
      if more {
        out', lines' := Emit(out', lines', f.line[..f.len]);
        assert t[i..j + 1] == t[i..j] + [t[j]];
        j := j + 1;
      }
    }
    assert t[i..j] == t[i..];
  }

  lemma WithTail(t: seq<string>, ragged: bool, e: nat, front: seq<string>)
    requires e <= |t|
    ensures front + Tail(t, ragged, e) ==
            if e == |t| || (ragged && e == |t| - 1) then front + t[if e < |t| then e + 1 else |t|..]
            else front + [""] + [t[e]] + t[e + 1..]
  {
    if e < |t| {
      assert t[e..] == [t[e]] + t[e + 1..];
    }
  }

  /** update_config on an existing file that has the header. */
  method UpdateSection(f: Reader, ghost t: seq<string>, ghost ragged: bool, h: string, keys: seq<string>,
    vals: seq<Value>, out: string)
    returns (out': string, count: nat)
    requires f.Valid() && Usable(t, ragged, h) && f.At(t, ragged, Find(t, h) + 1, false) &&
      Distinct(keys) && |keys| == |vals|
    requires out == Text(t[..Find(t, h) + 1])
    modifies f`rest, f`eof, f`len, f.line
    ensures out' == Text(Save(t, ragged, keys, vals, h).0) && count == Save(t, ragged, keys, vals, h).1
  {
    hide Lines, Ragged, First, Find, Distinct, Text, SaveBody, Seen, Count, Rest, Print;
    ghost var lines, body, e := t[..Find(t, h) + 1], Body(t, h), SectionEnd(t, h);
    var flags := new bool[|keys|](_ => false);
    var stopped;
    out', count, stopped, lines := RewriteSection(f, t, ragged, h, keys, vals, flags, out, lines);
    if count != |keys| {
      var n;
      out', n, lines := WriteMissing(keys, vals, flags, Seen(keys, body), out', lines);
      count := count + n;
    }
    ghost var front := lines;
    assert front == t[..Find(t, h) + 1] + Section(keys, vals, body);
    if !f.eof && stopped {
      var header := f.line[..f.len];
      out', lines := Emit(out', lines, "");
      out', lines := Emit(out', lines, header);
    }
    ghost var next := if stopped then e + 1 else |t|;
    WithTail(t, ragged, e, front);
    out' := CopyRest(f, t, ragged, next, !stopped, out', lines);
  }

  /** update_config; no text stands for a file that does not exist yet. */
  method UpdateConfig(text: string, keys: seq<string>, vals: seq<Value>, h: string) returns (out: string, count: nat)
    requires Distinct(keys) && |keys| == |vals|
    ensures out == Update(text, keys, vals, h) && count == Save(Lines(text), Ragged(text), keys, vals, h).1
  {
    hide Lines, Ragged, Find, Distinct, Text, Rest, Body, SectionEnd, Section;
    ghost var t, ragged := Lines(text), Ragged(text);
    var f := new Reader(text);
    out := CopyToHeader(f, t, ragged, h);
    if f.eof {
      ghost var lines := t;
      assert !Usable(t, ragged, h);
      WholeCopied(t, ragged, h);
      out, count, lines := WriteHeaderTokens(keys, vals, h, out, lines);
    } else {
      out, count := UpdateSection(f, t, ragged, h, keys, vals, out);
    }
  }

  lemma WholeCopied(t: seq<string>, ragged: bool, h: string)
    requires !Usable(t, ragged, h)
    ensures (if Find(t, h) < |t| then t[..Find(t, h) + 1] else t) == t
  {
    assert t[..|t|] == t;
  }
}
