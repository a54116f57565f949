/** The normal form of a path name that File_MakeAbsoluteName (src/file.c) computes, as a fold over its components. */
module PathModel {

  const SEP := '/'
  const NUL := '\0'

  predicate NoSep(c: string) {
    forall i :: 0 <= i < |c| ==> c[i] != SEP
  }

  /** The position of the first separator, or the end. */
  function Next(s: string): (i: nat)
    ensures i <= |s| && NoSep(s[..i]) && (i < |s| ==> s[i] == SEP)
  {
    if s == "" || s[0] == SEP then 0
    else
      assert s[..1 + Next(s[1..])] == [s[0]] + s[1..][..Next(s[1..])];
      1 + Next(s[1..])
  }

  lemma NoSepDrop(c: string)
    requires c != "" && NoSep(c)
    ensures NoSep(c[1..])
  {
  }

  lemma {:induction false} NextIs(s: string, i: nat)
    requires i <= |s| && NoSep(s[..i]) && (i < |s| ==> s[i] == SEP)
    ensures Next(s) == i
  {
    assert i > 0 ==> s[..i][0] == s[0];
    if s != "" && s[0] != SEP {
      NoSepDrop(s[..i]);
      assert s[1..][..i - 1] == s[..i][1..];
      NextIs(s[1..], i - 1);
    }
  }

  /** Directories, each followed by a separator; the first one of an absolute name is empty. */
  function Text(stack: seq<string>): string {
    if stack == [] then "" else Text(stack[..|stack| - 1]) + stack[|stack| - 1] + [SEP]
  }

  lemma TextPush(stack: seq<string>, c: string)
    ensures Text(stack + [c]) == Text(stack) + c + [SEP]
  {
    assert (stack + [c])[..|stack|] == stack;
  }

  /** One directory up; the root stays. */
  function Pop(stack: seq<string>): seq<string> {
    if |stack| <= 1 then [""] else stack[..|stack| - 1]
  }

  /** Without the separator at the end, unless it is the root. */
  function Chop(t: string): string {
    if |t| > 1 then t[..|t| - 1] else t
  }

  /** The directories so far and what is left of the name. */
  function Walk(stack: seq<string>, rest: string): string
    decreases |rest|
  {
    var i := Next(rest);
    if i < |rest| then Walk(Enter(stack, rest[..i]), rest[i + 1..]) else Finish(stack, rest)
  }

  /** A component with a separator after it. */
  function Enter(stack: seq<string>, c: string): seq<string> {
    if c == "." then stack else if c == ".." then Pop(stack) else stack + [c]
  }

  /** The last component. */
  function Finish(stack: seq<string>, c: string): string {
    if c == "." then Chop(Text(stack)) else if c == ".." then Chop(Text(Pop(stack))) else Text(stack) + c
  }

  predicate Absolute(path: string) {
    path != "" && path[0] == SEP
  }

  function Normal(path: string): string {
    Walk([], path)
  }

  // ---------------------------------------------------------- what a normal form is

  /** The components of a name. */
  function Components(s: string): (r: seq<string>)
    ensures r != []
    decreases |s|
  {
    var i := Next(s);
    if i < |s| then [s[..i]] + Components(s[i + 1..]) else [s]
  }

  function EnterAll(stack: seq<string>, cs: seq<string>): seq<string>
    decreases |cs|
  {
    if cs == [] then stack else EnterAll(Enter(stack, cs[0]), cs[1..])
  }

  /** Scanning the name is folding over its components. */
  lemma {:induction false} WalkIsFold(stack: seq<string>, rest: string)
    ensures var cs := Components(rest);
      Walk(stack, rest) == Finish(EnterAll(stack, cs[..|cs| - 1]), cs[|cs| - 1])
    decreases |rest|
  {
    hide Enter, Finish;
    var cs, i := Components(rest), Next(rest);
    if i < |rest| {
      var more := Components(rest[i + 1..]);
      WalkIsFold(Enter(stack, rest[..i]), rest[i + 1..]);
      assert cs == [rest[..i]] + more;
      assert cs[..|cs| - 1] == [rest[..i]] + more[..|more| - 1];
      assert cs[..|cs| - 1][1..] == more[..|more| - 1];
    } else {
      assert cs == [rest] && cs[..0] == [];
    }
  }

  predicate Plain(c: string) {
    c != "." && c != ".." && NoSep(c)
  }

  predicate AllPlain(cs: seq<string>) {
    forall i :: 0 <= i < |cs| ==> Plain(cs[i])
  }

  /** A stack of plain directories, the root at the bottom. */
  predicate Rooted(stack: seq<string>) {
    stack != [] && stack[0] == "" && AllPlain(stack)
  }

  lemma ComponentsCons(c: string, s: string)
    requires NoSep(c)
    ensures Components(c + [SEP] + s) == [c] + Components(s)
  {
    var t := c + [SEP] + s;
    assert t[..|c|] == c;
    NextIs(t, |c|);
    assert t[|c| + 1..] == s;
  }

  lemma ComponentsLast(c: string)
    requires NoSep(c)
    ensures Components(c) == [c]
  {
    assert c[..|c|] == c;
    NextIs(c, |c|);
  }

  lemma {:induction false} ComponentsText(stack: seq<string>, last: string)
    requires forall i :: 0 <= i < |stack| ==> NoSep(stack[i])
    requires NoSep(last)
    ensures Components(Text(stack) + last) == stack + [last]
    decreases |stack|
  {
    hide Next, Components, NoSep, Text;
    if stack == [] {
      TextNone();
      assert "" + last == last;
      ComponentsLast(last);
    } else {
      TextFront(stack);
      var t := Text(stack[1..]) + last;
      assert Text(stack) + last == stack[0] + [SEP] + t;
      ComponentsCons(stack[0], t);
      ComponentsText(stack[1..], last);
    }
  }

  lemma TextNone()
    ensures Text([]) == ""
  {
  }

  lemma {:induction false} TextFront(stack: seq<string>)
    requires stack != []
    ensures Text(stack) == stack[0] + [SEP] + Text(stack[1..])
    decreases |stack|
  {
    if |stack| == 1 {
      assert stack[..0] == [] && stack[1..] == [];
      assert Text([]) + stack[0] + [SEP] == stack[0] + [SEP] + Text([]);
    } else {
      var front, last := stack[..|stack| - 1], stack[|stack| - 1];
      TextFront(front);
      assert stack[1..][..|stack| - 2] == front[1..];
      assert stack[0] + [SEP] + Text(front[1..]) + last + [SEP] == stack[0] + [SEP] + (Text(front[1..]) + last + [SEP]);
    }
  }

  /** Removing the last separator turns the last directory into the last component. */
  lemma ChopText(stack: seq<string>)
    requires Rooted(stack)
    ensures Chop(Text(stack)) == if |stack| == 1 then "/" else Text(stack[..|stack| - 1]) + stack[|stack| - 1]
    ensures Text(stack) != "" && Text(stack)[0] == SEP
  {
    hide AllPlain;
    TextFront(stack);
    var n := |stack| - 1;
    if n == 0 {
      assert Text(stack[..0]) == "" && stack[0] == "" && "" + "" + [SEP] == "/";
    } else {
      TextSplit(stack);
      hide Text;
      ChopSep(Text(stack[..n]) + stack[n]);
      NotEmpty(stack);
    }
  }

  lemma TextSplit(stack: seq<string>)
    requires stack != []
    ensures Text(stack) == Text(stack[..|stack| - 1]) + stack[|stack| - 1] + [SEP]
  {
  }

  lemma NotEmpty(stack: seq<string>)
    requires |stack| > 1
    ensures |Text(stack[..|stack| - 1])| > 0
  {
    TextSplit(stack[..|stack| - 1]);
  }

  lemma ChopSep(s: string)
    ensures s != "" ==> Chop(s + [SEP]) == s
  {
    assert (s + [SEP])[..|s|] == s;
  }

  /** The result is absolute, has no "." or ".." and is no longer than what it was made from. */
  predicate Clean(s: string, size: nat) {
    Absolute(s) && AllPlain(Components(s)) && |s| <= size
  }

  lemma CleanText(stack: seq<string>, last: string)
    requires Rooted(stack) && Plain(last)
    ensures Clean(Text(stack) + last, |Text(stack)| + |last|)
  {
    ComponentsText(stack, last);
    TextFront(stack);
  }

  lemma CleanChop(stack: seq<string>)
    requires Rooted(stack)
    ensures Clean(Chop(Text(stack)), |Text(stack)|)
  {
    ChopText(stack);
    if |stack| == 1 {
      assert stack[..0] == [];
      assert Text(stack) + "" == "/";
      CleanText(stack, "");
    } else {
      CleanText(stack[..|stack| - 1], stack[|stack| - 1]);
    }
  }

  lemma PopText(stack: seq<string>)
    requires Rooted(stack)
    ensures Rooted(Pop(stack)) && |Text(Pop(stack))| <= |Text(stack)|
  {
    if |stack| <= 1 {
      assert Pop(stack) == stack;
    }
  }

  lemma {:induction false} WalkClean(stack: seq<string>, rest: string)
    requires Rooted(stack)
    ensures Clean(Walk(stack, rest), |Text(stack)| + |rest|)
    decreases |rest|
  {
    hide Finish, Clean, Next, Text, Enter, Rooted;
    var i := Next(rest);
    var c := rest[..i];
    if i < |rest| {
      EnterRooted(stack, c);
      WalkClean(Enter(stack, c), rest[i + 1..]);
      CleanLess(Walk(stack, rest), |Text(Enter(stack, c))| + |rest[i + 1..]|, |Text(stack)| + |rest|);
    } else {
      assert c == rest;
      FinishClean(stack, rest);
    }
  }

  lemma EnterRooted(stack: seq<string>, c: string)
    requires Rooted(stack) && NoSep(c)
    ensures Rooted(Enter(stack, c)) && |Text(Enter(stack, c))| <= |Text(stack)| + |c| + 1
  {
    PopText(stack);
    TextPush(stack, c);
  }

  lemma CleanLess(s: string, m: nat, n: nat)
    requires Clean(s, m) && m <= n
    ensures Clean(s, n)
  {
  }

  lemma FinishClean(stack: seq<string>, c: string)
    requires Rooted(stack) && NoSep(c)
    ensures Clean(Finish(stack, c), |Text(stack)| + |c|)
  {
    PopText(stack);
    if c == "." {
      CleanChop(stack);
    } else if c == ".." {
      CleanChop(Pop(stack));
    } else {
      CleanText(stack, c);
    }
  }

  lemma RootText()
    ensures Text([""]) == "/" && Rooted([""])
  {
    TextFront([""]);
    TextNone();
  }

  /** Every absolute name has a clean normal form. */
  lemma NormalClean(path: string)
    requires Absolute(path)
    ensures Clean(Normal(path), |path|)
  {
    hide Clean, Finish, Text, Next, Pop;
    NextIs(path, 0);
    RootText();
    assert path[..0] == "" && [] + [""] == [""];
    WalkClean([""], path[1..]);
  }

  lemma PlainParts(s: string)
    requires AllPlain(Components(s))
    ensures Plain(s[..Next(s)])
    ensures Next(s) < |s| ==> AllPlain(Components(s[Next(s) + 1..]))
  {
    hide Next, Plain, Components, AllPlain;
    var i := Next(s);
    ComponentsIs(s);
    if i < |s| {
      PlainCons(s[..i], Components(s[i + 1..]));
    } else {
      assert s[..i] == s && [s] + [] == [s];
      PlainCons(s, []);
    }
  }

  lemma ComponentsIs(s: string)
    ensures Components(s) == if Next(s) < |s| then [s[..Next(s)]] + Components(s[Next(s) + 1..]) else [s]
  {
    hide Next;
  }

  lemma PlainCons(c: string, cs: seq<string>)
    requires AllPlain([c] + cs)
    ensures Plain(c) && AllPlain(cs)
  {
    hide Plain;
    assert ([c] + cs)[0] == c;
    forall i | 0 <= i < |cs| ensures Plain(cs[i]) {
      assert ([c] + cs)[i + 1] == cs[i];
    }
  }

  lemma PlainSplit(rest: string, i: nat)
    requires i < |rest| && rest[i] == SEP
    ensures rest == rest[..i] + [SEP] + rest[i + 1..]
  {
  }

  lemma PlainSum(text: string, c: string, rest: string)
    ensures text + c + [SEP] + rest == text + (c + [SEP] + rest)
  {
  }

  /** A clean name is its own normal form. */
  lemma {:induction false} WalkPlain(stack: seq<string>, rest: string)
    requires AllPlain(Components(rest))
    ensures Walk(stack, rest) == Text(stack) + rest
    decreases |rest|
  {
    hide Components, AllPlain, Text, Next, NoSep;
    var i := Next(rest);
    var c := rest[..i];
    PlainParts(rest);
    if i < |rest| {
      WalkPlain(stack + [c], rest[i + 1..]);
      TextPush(stack, c);
      PlainSplit(rest, i);
      PlainSum(Text(stack), c, rest[i + 1..]);
    } else {
      assert c == rest;
    }
  }

  /** Twice is once. */
  lemma NormalTwice(path: string)
    requires Absolute(path)
    ensures Normal(Normal(path)) == Normal(path)
  {
    NormalClean(path);
    WalkPlain([], Normal(path));
  }

  // ---------------------------------------------------------- what "." and ".." mean

  /** A name up to a separator: its components are entered, and the rest follows. */
  lemma {:induction false} WalkOver(stack: seq<string>, p: string, q: string)
    ensures Walk(stack, p + [SEP] + q) == Walk(EnterAll(stack, Components(p)), q)
    decreases |p|
  {
    hide Enter, Finish;
    var s, i := p + [SEP] + q, Next(p);
    assert s[..i] == p[..i];
    NextIs(s, i);
    if i < |p| {
      assert s[i + 1..] == p[i + 1..] + [SEP] + q;
      WalkOver(Enter(stack, p[..i]), p[i + 1..], q);
      var more := Components(p[i + 1..]);
      assert ([p[..i]] + more)[1..] == more;
    } else {
      assert p[..i] == p && s[i + 1..] == q;
      assert [p][1..] == [];
    }
  }

  lemma {:induction false} EnterAllMore(stack: seq<string>, cs: seq<string>)
    requires stack != []
    ensures EnterAll(stack, cs) != []
    decreases |cs|
  {
    if cs != [] {
      EnterAllMore(Enter(stack, cs[0]), cs[1..]);
    }
  }

  /** An absolute name without its last separator. */
  predicate Above(p: string) {
    p == "" || Absolute(p)
  }

  lemma Entered(p: string)
    requires Above(p)
    ensures EnterAll([], Components(p)) != []
  {
    assert p[..0] == "";
    NextIs(p, 0);
    var cs := Components(p);
    assert cs[0] == "" && [] + [""] == [""];
    EnterAllMore([""], cs[1..]);
  }

  lemma WalkOne(stack: seq<string>, c: string, q: string)
    requires NoSep(c)
    ensures Walk(stack, c + [SEP] + q) == Walk(Enter(stack, c), q)
  {
    WalkOver(stack, c, q);
    ComponentsLast(c);
    assert [c][1..] == [];
    assert EnterAll(stack, [c]) == Enter(stack, c);
  }

  /** A directory and ".." behind it can be left out. */
  lemma UpCancels(p: string, c: string, q: string)
    requires Above(p) && Plain(c)
    ensures Normal(p + [SEP] + (c + [SEP] + (".." + [SEP] + q))) == Normal(p + [SEP] + q)
  {
    hide Walk, Components;
    var stack := EnterAll([], Components(p));
    Entered(p);
    WalkOver([], p, c + [SEP] + (".." + [SEP] + q));
    WalkOver([], p, q);
    WalkOne(stack, c, ".." + [SEP] + q);
    WalkOne(stack + [c], "..", q);
    assert (stack + [c])[..|stack|] == stack;
  }

  /** So can "." anywhere, and ".." at the root. */
  lemma HereCancels(p: string, q: string)
    requires Above(p)
    ensures Normal(p + [SEP] + ("." + [SEP] + q)) == Normal(p + [SEP] + q)
    ensures Normal([SEP] + (".." + [SEP] + q)) == Normal([SEP] + q)
  {
    hide Walk, Components;
    var stack := EnterAll([], Components(p));
    WalkOver([], p, "." + [SEP] + q);
    WalkOver([], p, q);
    WalkOne(stack, ".", q);
    assert "" + [SEP] == [SEP] && [] + [""] == [""];
    WalkOne([], "", ".." + [SEP] + q);
    WalkOne([], "", q);
    WalkOne([""], "..", q);
  }

  /** At the end of a name they give what they give in front of a separator, without that separator. */
  lemma DotsAtEnd(p: string, c: string)
    requires Above(p) && (c == "." || c == "..")
    ensures var r := Normal(p + [SEP] + (c + [SEP]));
      Normal(p + [SEP] + c) == if |r| > 1 then r[..|r| - 1] else r
  {
    hide Components;
    hide Walk, Text, EnterAll, Finish, Enter;
    var stack := EnterAll([], Components(p));
    WalkOver([], p, c);
    WalkOver([], p, c + [SEP]);
    assert c + [SEP] + "" == c + [SEP];
    WalkOne(stack, c, "");
    WalkLast(stack, c);
    WalkLast(Enter(stack, c), "");
    FinishDots(stack, c);
  }

  lemma WalkLast(stack: seq<string>, c: string)
    requires NoSep(c)
    ensures Walk(stack, c) == Finish(stack, c)
  {
    hide Finish;
    assert c[..|c|] == c;
    NextIs(c, |c|);
  }

  lemma FinishDots(stack: seq<string>, c: string)
    requires c == "." || c == ".."
    ensures var r := Finish(Enter(stack, c), ""); Finish(stack, c) == if |r| > 1 then r[..|r| - 1] else r
  {
    hide Text;
    var up := Enter(stack, c);
    assert Text(up) + "" == Text(up);
  }
}

/** File_MakeAbsoluteName: the buffer of the name and the one it is rebuilt in. */
module PathName {
  import opened PathModel

  const FILENAME_MAX := 4096

  predicate NoNul(s: string) {
    forall i :: 0 <= i < |s| ==> s[i] != NUL
  }

  /** The string a buffer holds: everything in front of the first NUL. */
  function CString(b: seq<char>): (s: string)
    ensures |s| <= |b| && NoNul(s) && b[..|s|] == s && (|s| < |b| ==> b[|s|] == NUL)
  {
    if b == [] || b[0] == NUL then "" else [b[0]] + CString(b[1..])
  }

  lemma {:induction false} CStringIs(b: seq<char>, s: string)
    requires |s| <= |b| && b[..|s|] == s && NoNul(s) && (|s| < |b| ==> b[|s|] == NUL)
    ensures CString(b) == s
  {
    if s != "" {
      assert b[0] == s[0] && s[0] != NUL;
      assert b[1..][..|s| - 1] == s[1..];
      CStringIs(b[1..], s[1..]);
    }
  }

  /** File_AddSlashToEndFileName */
  function WithSlash(s: string): string {
    if s != "" && s[|s| - 1] != SEP then s + [SEP] else s
  }

  /** The directories of a name that ends in a separator. */
  function Directories(s: string): seq<string> {
    var cs := Components(s);
    cs[..|cs| - 1]
  }

  lemma NoComponents()
    ensures Next("") == 0 && Components("") == [""] && NoSep("")
  {
  }

  lemma {:induction false} NextBefore(s: string, k: nat)
    requires k < |s| && s[k] == SEP
    ensures Next(s) <= k
    decreases |s|
  {
    if s[0] != SEP {
      NextBefore(s[1..], k - 1);
    }
  }

  lemma DirectoriesCons(s: string)
    requires s != "" && s[|s| - 1] == SEP
    ensures Next(s) < |s| && s == s[..Next(s)] + [SEP] + s[Next(s) + 1..] && (s[0] == SEP ==> Next(s) == 0)
    ensures var more := s[Next(s) + 1..];
      Directories(s) == [s[..Next(s)]] + if more == "" then [] else Directories(more)
  {
    hide Next, Components, NoSep;
    NextBefore(s, |s| - 1);
    if s[0] == SEP {
      NextBefore(s, 0);
    }
    ComponentsIs(s);
    NoComponents();
    var i := Next(s);
    var ms := Components(s[i + 1..]);
    assert ([s[..i]] + ms)[..|ms|] == [s[..i]] + ms[..|ms| - 1];
  }

  lemma {:induction false} DirectoriesText(s: string)
    requires s != "" && s[|s| - 1] == SEP
    ensures Text(Directories(s)) == s && NoSeps(Directories(s)) && Directories(s) != [] &&
      (s[0] == SEP ==> Directories(s)[0] == "")
    decreases |s|
  {
    hide Text, Next, NoSep, Directories;
    DirectoriesCons(s);
    var c, more, ds := s[..Next(s)], s[Next(s) + 1..], Directories(s);
    TextFront(ds);
    TextNone();
    if more == "" {
      assert ds[1..] == [];
    } else {
      DirectoriesText(more);
      assert ds[1..] == Directories(more);
    }
  }

  predicate NoSeps(stack: seq<string>) {
    forall i :: 0 <= i < |stack| ==> NoSep(stack[i])
  }

  /** What the buffer will hold. */
  function Made(path: string, cwd: string): string {
    if Absolute(path) then Normal(path)
    else if cwd == "" then path
    else Walk(Directories(WithSlash(cwd)), path)
  }

  /** Where the last directory of a text begins. */
  function Base(stack: seq<string>): nat
    requires stack != []
  {
    |Text(stack[..|stack| - 1])|
  }

  /** Inside the last directory there is no separator, and in front of it there is one, unless it is the first. */
  lemma LastSeparator(stack: seq<string>, k: nat)
    requires stack != [] && NoSeps(stack)
    ensures Base(stack) + |stack[|stack| - 1]| + 1 == |Text(stack)|
    ensures Base(stack) <= k < |Text(stack)| - 1 ==> Text(stack)[k] != SEP
    ensures k + 1 == Base(stack) ==> Text(stack)[k] == SEP
    ensures Text(stack)[..Base(stack)] == Text(stack[..|stack| - 1])
  {
    var n := |stack| - 1;
    var t := Text(stack[..n]);
    TextSplit(stack);
    if n > 0 {
      TextSplit(stack[..n]);
    }
    hide Text;
    if |t| <= k < |Text(stack)| - 1 {
      assert Text(stack)[k] == stack[n][k - |t|];
    }
    if k + 1 == |t| {
      assert Text(stack)[k] == t[k];
    }
  }

  /** The last directory and its separator go (file.c:944-957). */
  method UpOne(temp: array<char>, outpos: nat, ghost stack: seq<string>) returns (o: nat)
    requires 0 < outpos < temp.Length && temp[..outpos] == Text(stack) && stack != [] && NoSeps(stack)
    modifies temp
    ensures 0 < o <= outpos && temp[..o] == Text(Pop(stack))
  {
    hide Text, Base;
    LastSeparator(stack, 0);
    o := outpos - 1;
    while o > 0 && temp[o - 1] != SEP
      invariant Base(stack) <= o < outpos
      invariant temp[..outpos] == Text(stack)
      decreases o
    {
      LastSeparator(stack, o - 1);
      assert temp[..outpos][o - 1] == temp[o - 1];
      o := o - 1;
    }
    if o > 0 {
      LastSeparator(stack, o - 1);
      assert temp[..outpos][o - 1] == temp[o - 1];
      assert temp[..o] == temp[..outpos][..o];
      PopBase(stack);
    } else {
      temp[0] := SEP;
      o := 1;
      PopBase(stack);
      assert temp[..1] == "/";
    }
  }

  lemma PopBase(stack: seq<string>)
    requires stack != []
    ensures Base(stack) > 0 ==> Pop(stack) == stack[..|stack| - 1]
    ensures Base(stack) == 0 ==> Text(Pop(stack)) == "/"
  {
    TextFront([""]);
    if |stack| > 1 {
      TextFront(stack[..|stack| - 1]);
    }
  }

  // ---------------------------------------------------------- the loop

  /** Before the name has been read: the directories so far stand in temp; after it: the result does. */
  ghost predicate Walking(path: string, inpos: nat, text: string, goal: string, stack: seq<string>) {
    inpos <= |path| && NoSeps(stack) && (stack == [] ==> inpos == 0 && Absolute(path)) &&
    if inpos < |path| then text == Text(stack) && NoNul(text) && Walk(stack, path[inpos..]) == goal
    else CString(text) == goal
  }

  /** The next component of the name, without its separator. */
  function Component(path: string, inpos: nat): string
    requires inpos <= |path|
  {
    path[inpos..][..Next(path[inpos..])]
  }

  lemma ComponentIs(path: string, inpos: nat, i: nat)
    requires inpos <= i <= |path| && NoSep(path[inpos..i]) && (i < |path| ==> path[i] == SEP)
    ensures Component(path, inpos) == path[inpos..i] && Next(path[inpos..]) == i - inpos
  {
    assert path[inpos..][..i - inpos] == path[inpos..i];
    NextIs(path[inpos..], i - inpos);
  }

  lemma NulFree(a: string, b: string)
    requires NoNul(a) && NoNul(b)
    ensures NoNul(a + b) && CString(a + b) == a + b && CString(a) == a
  {
    CStringIs(a + b, a + b);
    CStringIs(a, a);
  }

  lemma {:induction false} TextNul(stack: seq<string>)
    requires forall i :: 0 <= i < |stack| ==> NoNul(stack[i])
    ensures NoNul(Text(stack))
    decreases |stack|
  {
    if stack != [] {
      TextNul(stack[..|stack| - 1]);
    }
  }

  /** A component has been copied with its separator, or up to the end of the name. */
  lemma CopyStep(path: string, inpos: nat, text: string, goal: string, stack: seq<string>, i: nat)
    requires Walking(path, inpos, text, goal, stack) && inpos < |path| && NoNul(path)
    requires inpos <= i <= |path| && NoSep(path[inpos..i]) && (i < |path| ==> path[i] == SEP)
    requires path[inpos..i] != "." && path[inpos..i] != ".."
    ensures i < |path| ==>
      Walking(path, i + 1, text + path[inpos..i + 1], goal, stack + [path[inpos..i]])
    ensures i == |path| && stack != [] ==> Walking(path, i, text + path[inpos..i], goal, stack)
  {
    hide Text, Next, CString;
    ComponentIs(path, inpos, i);
    var c := path[inpos..i];
    assert path[inpos..][..i - inpos] == c;
    if i < |path| {
      assert path[inpos..i + 1] == c + [SEP];
      TextPush(stack, c);
      assert text + (c + [SEP]) == text + c + [SEP];
      assert path[inpos..][i - inpos + 1..] == path[i + 1..];
      NulFree(text, c + [SEP]);
      if i + 1 == |path| {
        WalkNothing(stack + [c]);
      }
    } else {
      assert path[inpos..] == c;
      NulFree(text, c);
    }
  }

  lemma WalkNothing(stack: seq<string>)
    ensures Walk(stack, "") == Text(stack)
  {
    hide Text;
    NoComponents();
    assert Text(stack) + "" == Text(stack);
  }

  /** A dot that is a component of its own. */
  lemma DotIs(path: string, inpos: nat, text: string, goal: string, stack: seq<string>)
    requires Walking(path, inpos, text, goal, stack) && inpos < |path| && path[inpos] == '.'
    requires inpos + 1 < |path| ==> path[inpos + 1] == SEP
    ensures Component(path, inpos) == "." && stack != [] && text == Text(stack)
  {
    hide Text, Next, CString, Walk;
    assert path[inpos..inpos + 1] == ".";
    ComponentIs(path, inpos, inpos + 1);
  }

  lemma DotOn(path: string, inpos: nat, stack: seq<string>)
    requires inpos + 1 < |path| && path[inpos + 1] == SEP && Component(path, inpos) == "."
    ensures Walk(stack, path[inpos..]) == Walk(stack, path[inpos + 2..])
  {
    hide Text, Next;
    var rest := path[inpos..];
    assert rest[..Next(rest)] == ".";
    assert Next(rest) == 1;
    assert rest[2..] == path[inpos + 2..];
  }

  lemma DotEnds(path: string, inpos: nat, stack: seq<string>)
    requires inpos + 1 == |path| && Component(path, inpos) == "."
    ensures Walk(stack, path[inpos..]) == Chop(Text(stack))
  {
    hide Text, Next;
    var rest := path[inpos..];
    assert rest[..Next(rest)] == ".";
    assert Next(rest) == 1 && rest == ".";
  }

  /** "./" is passed over. */
  lemma DotStep(path: string, inpos: nat, text: string, goal: string, stack: seq<string>)
    requires Walking(path, inpos, text, goal, stack) && inpos + 1 < |path| &&
      path[inpos] == '.' && path[inpos + 1] == SEP
    ensures Walking(path, inpos + 2, text, goal, stack) && stack != []
  {
    hide Text, Walk, CString, Component;
    DotIs(path, inpos, text, goal, stack);
    DotOn(path, inpos, stack);
    assert text + "" == text;
    NulFree(text, "");
    if inpos + 2 == |path| {
      WalkNothing(stack);
      assert path[inpos + 2..] == "";
    }
  }

  /** "." at the end: the last separator is cut off. */
  lemma LastDot(path: string, inpos: nat, text: string, goal: string, stack: seq<string>)
    requires Walking(path, inpos, text, goal, stack) && inpos + 1 == |path| && path[inpos] == '.'
    ensures stack != [] && goal == Chop(text) && text != ""
  {
    hide Text, Walk, CString, Component;
    DotIs(path, inpos, text, goal, stack);
    DotEnds(path, inpos, stack);
    LastSeparator(stack, 0);
  }

  /** ".." : one directory up. */
  lemma DotDotPops(path: string, inpos: nat, text: string, goal: string, stack: seq<string>)
    requires Walking(path, inpos, text, goal, stack) && inpos + 1 < |path| &&
      path[inpos] == '.' && path[inpos + 1] == '.'
    requires inpos + 2 < |path| ==> path[inpos + 2] == SEP
    ensures stack != [] && text == Text(stack) && NoSeps(Pop(stack)) && Pop(stack) != [] && NoNul(Text(Pop(stack)))
    ensures Component(path, inpos) == ".." && Text(Pop(stack)) != "" && CString(Text(Pop(stack))) == Text(Pop(stack))
  {
    hide Text, Next, CString, Walk;
    assert path[inpos..inpos + 2] == "..";
    ComponentIs(path, inpos, inpos + 2);
    PopNul(stack);
    LastSeparator(Pop(stack), 0);
    assert Text(Pop(stack)) + "" == Text(Pop(stack));
    NulFree(Text(Pop(stack)), "");
  }

  /** "../" */
  lemma DotDotOn(path: string, inpos: nat, stack: seq<string>)
    requires inpos + 2 < |path| && path[inpos + 2] == SEP && Component(path, inpos) == ".." && stack != []
    ensures Walk(stack, path[inpos..]) == Walk(Pop(stack), path[inpos + 3..])
  {
    hide Text, Next;
    var rest := path[inpos..];
    assert rest[..Next(rest)] == "..";
    assert Next(rest) == 2;
    assert rest[3..] == path[inpos + 3..];
  }

  /** ".." at the end */
  lemma DotDotEnds(path: string, inpos: nat, stack: seq<string>)
    requires inpos + 2 == |path| && Component(path, inpos) == ".." && stack != []
    ensures Walk(stack, path[inpos..]) == Chop(Text(Pop(stack)))
  {
    hide Text, Next;
    var rest := path[inpos..];
    assert rest[..Next(rest)] == "..";
    assert Next(rest) == 2 && rest == "..";
  }

  /** ".." : one directory up, and without the separator at the end of the name. */
  lemma DotDotStep(path: string, inpos: nat, text: string, goal: string, stack: seq<string>)
    requires Walking(path, inpos, text, goal, stack) && inpos + 1 < |path| &&
      path[inpos] == '.' && path[inpos + 1] == '.'
    requires inpos + 2 < |path| ==> path[inpos + 2] == SEP
    ensures stack != [] && text == Text(stack) && NoSeps(Pop(stack)) && Pop(stack) != [] && NoNul(Text(Pop(stack)))
    ensures inpos + 2 < |path| ==> Walking(path, inpos + 3, Text(Pop(stack)), goal, Pop(stack))
    ensures inpos + 2 == |path| ==> goal == Chop(Text(Pop(stack))) && Text(Pop(stack)) != ""
  {
    hide Text, Walk, CString, Component, Pop;
    DotDotPops(path, inpos, text, goal, stack);
    if inpos + 2 < |path| {
      DotDotOn(path, inpos, stack);
      if inpos + 3 == |path| {
        WalkNothing(Pop(stack));
        assert path[inpos + 3..] == "";
      }
    } else {
      DotDotEnds(path, inpos, stack);
    }
  }

  lemma PopNul(stack: seq<string>)
    requires stack != [] && NoSeps(stack) && NoNul(Text(stack))
    ensures NoSeps(Pop(stack)) && NoNul(Text(Pop(stack)))
  {
    TextFront([""]);
    if |stack| > 1 {
      LastSeparator(stack, 0);
      var t := Text(stack[..|stack| - 1]);
      forall i | 0 <= i < |t| ensures t[i] != NUL {
        assert Text(stack)[..|t|][i] == Text(stack)[i];
      }
    } else {
      assert NoNul("/");
    }
  }

  /** Cutting off the last character with a NUL. */
  lemma Cut(text: string, b: seq<char>)
    requires NoNul(text) && text != "" && |b| == |text|
    requires if |text| > 1 then b == text[|text| - 1 := NUL] else b == text
    ensures CString(b) == Chop(text)
  {
    assert |text| > 1 ==> b[..|text| - 1] == text[..|text| - 1];
    CStringIs(b, Chop(text));
  }

  /** The directories in front of the name before the loop: none, or those of the current directory. */
  function Front(path: string, cwd: string): seq<string> {
    if Absolute(path) then [] else Directories(WithSlash(cwd))
  }

  lemma WalkStart(path: string, cwd: string)
    requires Absolute(path) || (Absolute(cwd) && NoNul(cwd))
    ensures var front := Front(path, cwd);
      Walking(path, 0, Text(front), Made(path, cwd), front) &&
        |Text(front)| == if Absolute(path) then 0 else |WithSlash(cwd)|
    ensures !Absolute(path) ==> Text(Front(path, cwd)) == WithSlash(cwd)
  {
    hide Text, Next, CString, Walk, Directories;
    assert path[0..] == path;
    TextNone();
    if !Absolute(path) {
      DirectoriesText(WithSlash(cwd));
      NulFree(WithSlash(cwd), "");
      WalkNothing(Front(path, cwd));
    }
  }

  /** Copy until the next separator or the end of the name (file.c:976-982). */
  method CopyOn(name: array<char>, inpos: nat, temp: array<char>, outpos: nat,
    ghost path: string) returns (i: nat, o: nat)
    requires name != temp && |path| < name.Length && name[..|path|] == path && name[|path|] == NUL && NoNul(path)
    requires inpos < |path| && outpos + |path| - inpos < temp.Length == FILENAME_MAX
    modifies temp
    ensures inpos < i <= |path| && o == outpos + i - inpos && temp[..o] == old(temp[..outpos]) + path[inpos..i]
    ensures if path[i - 1] == SEP then NoSep(path[inpos..i - 1]) else i == |path| && NoSep(path[inpos..])
  {
    i, o := inpos, outpos;
    while name[i] != NUL && o < FILENAME_MAX
      invariant inpos <= i <= |path| && o == outpos + i - inpos
      invariant temp[..o] == old(temp[..outpos]) + path[inpos..i]
      invariant NoSep(path[inpos..i])
      decreases |path| - i
    {
      assert name[i] == name[..|path|][i];
      temp[o] := name[i];
      o := o + 1;
      i := i + 1;
      assert path[inpos..i] == path[inpos..i - 1] + [path[i - 1]];
      if name[i - 1] == SEP {
        break;
      }
    }
  }

  /** One turn of the loop of File_MakeAbsoluteName (file.c:928-984). */
  method Turn(name: array<char>, inpos: nat, temp: array<char>, outpos: nat, ghost path: string, ghost goal: string,
              ghost stack: seq<string>)
    returns (i: nat, o: nat, ghost stack': seq<string>)
    requires name != temp && |path| < name.Length && name[..|path|] == path && name[|path|] == NUL && NoNul(path)
    requires inpos < |path| && outpos + |path| - inpos < temp.Length == FILENAME_MAX
    requires Walking(path, inpos, temp[..outpos], goal, stack)
    modifies temp
    ensures inpos < i <= |path| && o + |path| - i < FILENAME_MAX && Walking(path, i, temp[..o], goal, stack')
  {
    hide Text, Next, CString, Walk;
    i, o, stack' := inpos, outpos, stack;
    At(name, path, inpos);
    if name[inpos] == '.' && name[inpos + 1] == SEP {
      At(name, path, inpos + 1);
      DotStep(path, inpos, temp[..outpos], goal, stack);
      i := inpos + 2;
    } else if name[inpos] == '.' && name[inpos + 1] == NUL {
      EndsHere(path, name, inpos);
      LastDot(path, inpos, temp[..outpos], goal, stack);
      ghost var text := temp[..outpos];
      i := inpos + 1;
      if outpos > 1 {
        temp[outpos - 1] := NUL;
      }
      Cut(text, temp[..outpos]);
    } else if name[inpos] == '.' && name[inpos + 1] == '.' && (name[inpos + 2] == SEP || name[inpos + 2] == NUL) {
      DotDot(path, name, inpos);
      DotDotStep(path, inpos, temp[..outpos], goal, stack);
      TextSize(stack);
      i := inpos + 2;
      o := UpOne(temp, outpos, stack);
      stack' := Pop(stack);
      if name[i] == SEP {
        i := i + 1;
      } else {
        ghost var text := temp[..o];
        if o > 1 {
          temp[o - 1] := NUL;
        }
        Cut(text, temp[..o]);
      }
    } else {
      i, o := CopyOn(name, inpos, temp, outpos, path);
      NotDots(path, name, inpos);
      NoDots(path, inpos, if path[i - 1] == SEP then i - 1 else i);
      if path[i - 1] == SEP {
        CopyStep(path, inpos, old(temp[..outpos]), goal, stack, i - 1);
        stack' := stack + [path[inpos..i - 1]];
      } else {
        assert path[inpos..|path|] == path[inpos..];
        CopyStep(path, inpos, old(temp[..outpos]), goal, stack, i);
        FirstIsSep(path, inpos, old(temp[..outpos]), goal, stack);
      }
    }
  }

  lemma At(name: array<char>, path: string, k: nat)
    requires |path| < name.Length && name[..|path|] == path && name[|path|] == NUL && NoNul(path) && k < name.Length
    ensures k < |path| ==> name[k] == path[k] && k + 1 < name.Length
    ensures k < name.Length && name[k] != NUL && k <= |path| ==> k < |path|
    ensures k < |path| && k + 1 < name.Length && name[k + 1] != NUL ==> k + 1 < |path| && name[k + 1] == path[k + 1]
    ensures k + 1 < |path| ==> k + 2 < name.Length
    ensures k + 1 < |path| && name[k + 2] != NUL ==> k + 2 < |path| && name[k + 2] == path[k + 2]
  {
    assert forall j :: 0 <= j < |path| ==> name[..|path|][j] == name[j];
  }

  lemma EndsHere(path: string, name: array<char>, k: nat)
    requires |path| < name.Length && name[..|path|] == path && NoNul(path) && k < |path| && name[k + 1] == NUL
    ensures k + 1 == |path| && name[k] == path[k]
  {
    assert forall j :: 0 <= j < |path| ==> name[..|path|][j] == name[j];
  }

  lemma DotDot(path: string, name: array<char>, k: nat)
    requires |path| < name.Length && name[..|path|] == path && name[|path|] == NUL && NoNul(path) && k < |path|
    requires name[k] == '.' && name[k + 1] == '.'
    ensures k + 1 < |path| && path[k] == '.' && path[k + 1] == '.' && k + 2 < name.Length
    ensures name[k + 2] == SEP ==> k + 2 < |path| && path[k + 2] == SEP
    ensures name[k + 2] == NUL ==> k + 2 == |path|
  {
    assert forall j :: 0 <= j < |path| ==> name[..|path|][j] == name[j];
  }

  lemma NotDots(path: string, name: array<char>, k: nat)
    requires |path| < name.Length && name[..|path|] == path && name[|path|] == NUL && NoNul(path) && k < |path|
    requires !(name[k] == '.' && (name[k + 1] == SEP || name[k + 1] == NUL))
    requires !(name[k] == '.' && name[k + 1] == '.' && (name[k + 2] == SEP || name[k + 2] == NUL))
    ensures path[k] == '.' ==> k + 1 < |path| && path[k + 1] != SEP
    ensures path[k] == '.' && path[k + 1] == '.' ==> k + 2 < |path| && path[k + 2] != SEP
  {
    assert forall j :: 0 <= j < |path| ==> name[..|path|][j] == name[j];
  }

  lemma NoDots(path: string, k: nat, i: nat)
    requires k < |path| && k <= i <= |path| && (i < |path| ==> path[i] == SEP)
    requires path[k] == '.' ==> k + 1 < |path| && path[k + 1] != SEP
    requires path[k] == '.' && path[k + 1] == '.' ==> k + 2 < |path| && path[k + 2] != SEP
    ensures path[k..i] != "." && path[k..i] != ".."
  {
    assert i == k + 1 ==> path[k] != '.';
    assert i == k + 2 ==> path[k] != '.' || path[k + 1] != '.';
    assert i == k + 1 ==> path[k..i][0] == path[k];
    assert i == k + 2 ==> path[k..i][0] == path[k] && path[k..i][1] == path[k + 1];
  }

  /** An absolute name begins with a separator, so its first component is not its last. */
  lemma FirstIsSep(path: string, inpos: nat, text: string, goal: string, stack: seq<string>)
    requires Walking(path, inpos, text, goal, stack) && inpos < |path| && NoSep(path[inpos..])
    ensures stack != []
  {
    assert path[inpos..][0] == path[inpos];
  }

  lemma TextSize(stack: seq<string>)
    requires stack != []
    ensures |Text(stack)| > 0
  {
  }

  /** strcpy */
  method CopyBack(name: array<char>, temp: array<char>)
    requires name != temp && name.Length == temp.Length && |CString(temp[..])| < temp.Length
    modifies name
    ensures CString(name[..]) == CString(temp[..])
  {
    ghost var s := CString(temp[..]);
    var k := 0;
    while temp[k] != NUL
      invariant k <= |s| && name[..k] == s[..k]
      decreases |s| - k
    {
      InString(temp[..], k);
      assert temp[..][k] == temp[k];
      name[k] := temp[k];
      k := k + 1;
      assert name[..k] == s[..k];
    }
    InString(temp[..], k);
    assert temp[..][k] == temp[k];
    name[k] := NUL;
    assert name[..][..|s|] == name[..k];
    CStringIs(name[..], s);
  }

  lemma InString(b: seq<char>, k: nat)
    requires k <= |CString(b)| < |b|
    ensures b[k] == NUL <==> k == |CString(b)|
    ensures k < |CString(b)| ==> b[k] == CString(b)[k]
  {
    var s := CString(b);
    if k < |s| {
      assert b[..|s|][k] == b[k];
    }
  }

  /** File_MakeAbsoluteName; cwd is what getcwd answers, empty when it fails. */
  method MakeAbsoluteName(name: array<char>, cwd: string)
    requires name.Length == FILENAME_MAX && |CString(name[..])| < FILENAME_MAX
    requires cwd == "" || (Absolute(cwd) && NoNul(cwd))
    requires !Absolute(CString(name[..])) ==> |WithSlash(cwd)| + |CString(name[..])| < FILENAME_MAX
    modifies name
    ensures CString(name[..]) == Made(old(CString(name[..])), cwd)
  {
    hide Text, Next, CString, Walk, Directories;
    ghost var path, goal := CString(name[..]), Made(CString(name[..]), cwd);
    CStringMeans(name[..]);
    ghost var stack := Front(path, cwd);
    assert name[..|path|] == name[..][..|path|] && name[..][|path|] == name[|path|];
    At(name, path, 0);
    var temp := new char[FILENAME_MAX](_ => NUL);
    var inpos: nat, outpos: nat := 0, 0;
    if name[0] == SEP {
      WalkStart(path, cwd);
      assert temp[..0] == Text(stack) by { TextNone(); }
    } else {
      if cwd == "" {
        return;
      }
      WalkStart(path, cwd);
      var dir := WithSlash(cwd);
      outpos := |dir|;
      forall k | 0 <= k < |dir| {
        temp[k] := dir[k];
      }
      assert temp[..outpos] == dir;
    }
    while name[inpos] != NUL && outpos < FILENAME_MAX
      invariant name[..|path|] == path && name[|path|] == NUL
      invariant inpos <= |path| && outpos + |path| - inpos < FILENAME_MAX &&
        Walking(path, inpos, temp[..outpos], goal, stack)
      decreases |path| - inpos
    {
      At(name, path, inpos);
      inpos, outpos, stack := Turn(name, inpos, temp, outpos, path, goal, stack);
    }
    At(name, path, inpos);
    temp[outpos] := NUL;
    Terminated(temp[..], outpos);
    CopyBack(name, temp);
  }

  lemma CStringMeans(b: seq<char>)
    ensures var s := CString(b); |s| <= |b| && NoNul(s) && b[..|s|] == s && (|s| < |b| ==> b[|s|] == NUL)
  {
  }

  lemma {:induction false} Terminated(b: seq<char>, k: nat)
    requires k < |b| && b[k] == NUL
    ensures CString(b) == CString(b[..k]) && |CString(b)| <= k
    decreases k
  {
    if k > 0 && b[0] != NUL {
      Terminated(b[1..], k - 1);
      assert b[..k][1..] == b[1..][..k - 1];
    }
  }

  /** What File_MakeAbsoluteName promises of an absolute name that fits: clean, no longer, and stable. */
  lemma AbsoluteNames(path: string, cwd: string)
    requires Absolute(path)
    ensures Clean(Made(path, cwd), |path|) && Made(Made(path, cwd), cwd) == Made(path, cwd)
  {
    NormalClean(path);
    NormalTwice(path);
  }
}
