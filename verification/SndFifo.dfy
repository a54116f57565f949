/** The resampler of src/sndfifo.c: 44100 Hz to 48000 Hz by linear interpolation,
    phase and left neighbour carried over. */
module Resampler {

  const ONE := 0x1_0000_0000
  const STEP := (44100 * ONE) / 48000

  /** One sample of each channel. */
  datatype Frame = Frame(left: int, right: int)

  predicate Int16(v: int) {
    -0x8000 <= v < 0x8000
  }

  predicate FrameOk(f: Frame) {
    Int16(f.left) && Int16(f.right)
  }

  predicate Frames(s: seq<Frame>) {
    forall i :: 0 <= i < |s| ==> FrameOk(s[i])
  }

  /** The arithmetic shift of the product rounds down. */
  function Mix(a: int, b: int, f: nat): int {
    a + (b - a) * f / ONE
  }

  lemma MixBetween(a: int, b: int, f: nat)
    requires f < ONE
    ensures a <= b ==> a <= Mix(a, b, f) <= b
    ensures b <= a ==> b <= Mix(a, b, f) <= a
    ensures Mix(a, b, 0) == a && Mix(a, a, f) == a
  {
    var d := b - a;
    if d >= 0 {
      Product(d, f, ONE);
      assert 0 <= d * f <= d * ONE;
    } else {
      Product(-d, f, ONE);
      assert -d * ONE <= d * f <= 0 || d * ONE <= d * f <= 0;
    }
    assert 0 * f == 0;
  }

  lemma Product(d: nat, f: nat, one: nat)
    requires f <= one
    ensures 0 <= d * f <= d * one
  {
  }

  function MixFrame(a: Frame, b: Frame, f: nat): Frame {
    Frame(Mix(a.left, b.left, f), Mix(a.right, b.right, f))
  }

  /** The input with its first frame repeated once in front. */
  function At(x: seq<Frame>, j: nat): Frame
    requires 0 < |x| && j <= |x|
  {
    if j == 0 then x[0] else x[j - 1]
  }

  /** Where output frame k lies in the input, in 32.32 fixed point. */
  function Position(k: nat): nat {
    k * STEP
  }

  /** Output frame k, for every position before the last input frame. */
  function Output(x: seq<Frame>, k: nat): Frame
    requires Position(k) < |x| * ONE
  {
    var j := Position(k) / ONE;
    MixFrame(At(x, j), At(x, j + 1), Position(k) % ONE)
  }

  /** How many output frames n input frames give: ceil(n * 2^32 / STEP). */
  function Count(n: nat): nat {
    (n * ONE + STEP - 1) / STEP
  }

  lemma CountIs(n: nat, k: nat)
    ensures k < Count(n) <==> Position(k) < n * ONE
  {
    Ceiling(n * ONE, STEP, k);
  }

  lemma Ceiling(n: nat, s: nat, k: nat)
    requires s > 0
    ensures k < (n + s - 1) / s <==> k * s < n
  {
    var q := (n + s - 1) / s;
    assert n + s - 1 == s * q + (n + s - 1) % s;
    if k < q {
      Product(s, k + 1, q);
    } else {
      Product(s, q, k);
    }
  }

  /** A position inside input frame i. */
  lemma InFrame(k: nat, i: nat, phase: nat)
    requires Position(k) == i * ONE + phase && phase < ONE
    ensures Position(k) / ONE == i && Position(k) % ONE == phase
  {
  }

  /** More input does not change the frames already produced. */
  lemma OutputStable(x: seq<Frame>, more: seq<Frame>, k: nat)
    requires Position(k) < |x| * ONE
    ensures Position(k) < |x + more| * ONE && Output(x + more, k) == Output(x, k)
  {
    var j := Position(k) / ONE;
    assert j < |x|;
    assert At(x + more, j) == At(x, j) && At(x + more, j + 1) == At(x, j + 1);
  }

  /** Every output sample lies between its two neighbours, so it fits 16 bits. */
  lemma OutputBetween(x: seq<Frame>, k: nat)
    requires Frames(x) && Position(k) < |x| * ONE
    ensures var j, f := Position(k) / ONE, Output(x, k);
      j < |x| && FrameOk(f) && Between(At(x, j), f, At(x, j + 1))
  {
    var j := Position(k) / ONE;
    assert j < |x|;
    var a, b := At(x, j), At(x, j + 1);
    MixBetween(a.left, b.left, Position(k) % ONE);
    MixBetween(a.right, b.right, Position(k) % ONE);
  }

  /** Each sample is the value on the line between its neighbours, rounded down. */
  lemma OutputOnLine(x: seq<Frame>, k: nat)
    requires Position(k) < |x| * ONE
    ensures var j, f, v := k * STEP / ONE, k * STEP % ONE, Output(x, k);
      j < |x| &&
      v.left * ONE <= At(x, j).left * (ONE - f) + At(x, j + 1).left * f < (v.left + 1) * ONE &&
      v.right * ONE <= At(x, j).right * (ONE - f) + At(x, j + 1).right * f < (v.right + 1) * ONE
  {
    hide Mix;
    var j, f := Position(k) / ONE, Position(k) % ONE;
    assert j < |x|;
    MixOnLine(At(x, j).left, At(x, j + 1).left, f);
    MixOnLine(At(x, j).right, At(x, j + 1).right, f);
  }

  lemma MixOnLine(a: int, b: int, f: nat)
    requires f < ONE
    ensures Mix(a, b, f) * ONE <= a * (ONE - f) + b * f < (Mix(a, b, f) + 1) * ONE
  {
    var p := (b - a) * f;
    Line(a, b, f, ONE);
    assert p == p / ONE * ONE + p % ONE;
  }

  lemma Line(a: int, b: int, f: nat, one: nat)
    ensures a * (one - f) + b * f == a * one + (b - a) * f
  {
  }

  predicate Between(a: Frame, f: Frame, b: Frame) {
    (a.left <= f.left <= b.left || b.left <= f.left <= a.left) &&
    (a.right <= f.right <= b.right || b.right <= f.right <= a.right)
  }

  // ---------------------------------------------------------- bytes

  predicate Bytes(s: seq<nat>) {
    forall i :: 0 <= i < |s| ==> s[i] < 0x100
  }

  /** A big endian sample. */
  function Be16(hi: nat, lo: nat): int {
    if hi < 0x80 then hi * 0x100 + lo else hi * 0x100 + lo - 0x1_0000
  }

  function FrameAt(data: seq<nat>, i: nat): Frame
    requires i * 4 + 4 <= |data|
  {
    Frame(Be16(data[i * 4], data[i * 4 + 1]), Be16(data[i * 4 + 2], data[i * 4 + 3]))
  }

  /** The whole frames of a block. */
  function Parse(data: seq<nat>): (r: seq<Frame>)
    ensures |r| == |data| / 4
  {
    seq(|data| / 4, i requires 0 <= i < |data| / 4 => FrameAt(data, i))
  }

  /** A frame as the guest writes it: left before right, high byte before low. */
  function BigEndian(f: Frame): (r: seq<nat>)
    ensures |r| == 4 && Bytes(r)
  {
    [f.left / 0x100 % 0x100, f.left % 0x100, f.right / 0x100 % 0x100, f.right % 0x100]
  }

  function AllBigEndian(x: seq<Frame>): (r: seq<nat>)
    ensures |r| == |x| * 4
  {
    if x == [] then [] else AllBigEndian(x[..|x| - 1]) + BigEndian(x[|x| - 1])
  }

  /** The frames that the guest has written are the frames that are read. */
  lemma {:induction false} ParseBigEndian(x: seq<Frame>)
    requires Frames(x)
    ensures Parse(AllBigEndian(x)) == x
    decreases |x|
  {
    hide BigEndian;
    if x != [] {
      var init, last := x[..|x| - 1], x[|x| - 1];
      ParseBigEndian(init);
      ParseConcat(AllBigEndian(init), BigEndian(last));
      OneBigEndian(last);
    }
  }

  lemma OneBigEndian(f: Frame)
    requires FrameOk(f)
    ensures Parse(BigEndian(f)) == [f]
  {
    var b := BigEndian(f);
    Sample(f.left);
    Sample(f.right);
    assert FrameAt(b, 0) == f;
  }

  lemma Sample(v: int)
    requires -0x8000 <= v < 0x8000
    ensures Be16(v / 0x100 % 0x100, v % 0x100) == v
  {
  }

  /** Blocks of whole frames one after the other. */
  lemma ParseConcat(a: seq<nat>, b: seq<nat>)
    requires |a| % 4 == 0
    ensures Parse(a + b) == Parse(a) + Parse(b)
  {
    var n := |a| / 4;
    assert |a + b| / 4 == n + |b| / 4;
    forall i | 0 <= i < |a + b| / 4 ensures Parse(a + b)[i] == (Parse(a) + Parse(b))[i] {
      if i < n {
        assert FrameAt(a + b, i) == FrameAt(a, i);
      } else {
        assert FrameAt(a + b, i) == FrameAt(b, i - n);
      }
    }
  }

  /** Four little endian bytes. */
  function Encode(f: Frame): (r: seq<nat>)
    ensures |r| == 4 && Bytes(r)
  {
    [f.left % 0x100, f.left / 0x100 % 0x100, f.right % 0x100, f.right / 0x100 % 0x100]
  }

  /** The two bytes give the sample back. */
  lemma EncodeDecodes(f: Frame)
    requires FrameOk(f)
    ensures Be16(Encode(f)[1], Encode(f)[0]) == f.left && Be16(Encode(f)[3], Encode(f)[2]) == f.right
  {
  }

  /** The first k output frames as bytes. */
  function Outputs(x: seq<Frame>, k: nat): (r: seq<nat>)
    requires k == 0 || Position(k - 1) < |x| * ONE
    ensures |r| == k * 4
    decreases k
  {
    if k == 0 then [] else Outputs(x, k - 1) + Encode(Output(x, k - 1))
  }

  lemma {:induction false} OutputsStable(x: seq<Frame>, more: seq<Frame>, k: nat)
    requires k == 0 || Position(k - 1) < |x| * ONE
    ensures k == 0 || Position(k - 1) < |x + more| * ONE
    ensures Outputs(x + more, k) == Outputs(x, k)
    decreases k
  {
    if k > 0 {
      OutputStable(x, more, k - 1);
      OutputsStable(x, more, k - 1);
    }
  }

  /** Everything sent for the input x. */
  function Sent(x: seq<Frame>): seq<nat> {
    CountIs(|x|, if Count(|x|) == 0 then 0 else Count(|x|) - 1);
    Outputs(x, Count(|x|))
  }
}

/** SndFifo_Write with its state between calls; the bytes handed to fifo_emit are recorded. */
module SndFifo {
  import opened Resampler

  const FIFO_OUTFRAMES := 4096

  class Fifo {
    const open: bool
    var phase: nat
    var prev: Frame
    var primed: bool
    /** The input frames so far, and the bytes handed to the pipe. */
    ghost var x: seq<Frame>
    ghost var emitted: seq<nat>

    ghost predicate Valid()
      reads this
    {
      if primed then
        x != [] && prev == x[|x| - 1] && Position(Count(|x|)) == phase + |x| * ONE && phase < STEP && emitted == Sent(x)
      else x == [] && emitted == []
    }

    constructor (isOpen: bool)
      ensures Valid() && open == isOpen && !primed && x == [] && emitted == []
    {
      open := isOpen;
      phase, prev, primed := 0, Frame(0, 0), false;
      x, emitted := [], [];
    }

    /** What is staged in out[..o * 4] continues what has been emitted. */
    ghost predicate Staged(total: seq<Frame>, m: nat, out: array<nat>, o: nat)
      reads this`emitted, out
    {
      out.Length == FIFO_OUTFRAMES * 4 && o <= FIFO_OUTFRAMES && (m == 0 || Position(m - 1) < |total| * ONE) &&
      emitted + out[..o * 4] == Outputs(total, m)
    }

    /** One output frame; a full staging buffer is emitted first. */
    method Put(v: Frame, out: array<nat>, o: nat, ghost total: seq<Frame>, ghost m: nat) returns (o': nat)
      requires Staged(total, m, out, o) && Position(m) < |total| * ONE && Output(total, m) == v
      modifies this`emitted, out
      ensures Staged(total, m + 1, out, o')
    {
      hide Output, Encode;
      o' := o;
      if o' >= FIFO_OUTFRAMES {
        emitted := emitted + out[..o' * 4];
        o' := 0;
      }
      ghost var before := emitted + out[..o' * 4];
      Stage(out, o', v);
      o' := o' + 1;
      assert emitted + out[..o' * 4] == before + Encode(v);
    }

    /** Every output frame whose position falls between prev and cur (sndfifo.c:165-186). */
    method Interpolate(cur: Frame, out: array<nat>, o: nat, ghost total: seq<Frame>, ghost i: nat, ghost m: nat)
      returns (o': nat, ghost m': nat)
      requires i < |total| && prev == At(total, i) && cur == At(total, i + 1)
      requires Staged(total, m, out, o) && Position(m) == phase + i * ONE && phase < STEP
      requires m > 0 ==> Position(m - 1) < i * ONE
      modifies this`emitted, this`phase, this`prev, out
      ensures Staged(total, m', out, o') && Position(m') == phase + (i + 1) * ONE && phase < STEP && prev == cur
      ensures m' > 0 ==> Position(m' - 1) < (i + 1) * ONE
    {
      hide Output, Outputs, Encode, Staged, MixFrame;
      o', m' := o, m;
      while phase < ONE
        invariant Position(m') == phase + i * ONE && phase < ONE + STEP
        invariant m' > 0 ==> Position(m' - 1) < (i + 1) * ONE
        invariant Staged(total, m', out, o') && prev == At(total, i)
        decreases ONE + STEP - phase
      {
        OneMore(total, m', i, phase);
        o' := Put(MixFrame(prev, cur, phase), out, o', total, m');
        phase := phase + STEP;
        m' := m' + 1;
      }
      phase := phase - ONE;
      prev := cur;
    }

    method Write(data: seq<nat>)
      requires Valid() && Bytes(data)
      modifies this
      ensures Valid()
      ensures x == if open && |data| >= 4 then old(x) + Parse(data) else old(x)
      ensures !open || |data| < 4 ==> emitted == old(emitted)
    {
      hide Output, Outputs, Encode, FrameAt, Staged, Sent, Count;
      if !open || |data| < 4 {
        return;
      }
      var inframes := |data| / 4;
      ghost var n0, total, m := |x|, x + Parse(data), Count(|x|);
      Continue(x, Parse(data));
      if !primed {
        prev := FrameAt(data, 0);
        phase := 0;
        primed := true;
      }
      var out := new nat[FIFO_OUTFRAMES * 4](_ => 0);
      var o := 0;
      NothingStaged(total, m, out);
      o, m := Resample(data, out, total, n0, m);
      StagedMeans(total, m, out, o);
      if o > 0 {
        emitted := emitted + out[..o * 4];
      }
      x := total;
      AllSent(total, m, phase);
    }

    /** The loop over the input frames. */
    method Resample(data: seq<nat>, out: array<nat>, ghost total: seq<Frame>, ghost n0: nat, ghost m: nat)
      returns (o: nat, ghost m': nat)
      requires Bytes(data) && |total| == n0 + |Parse(data)| && total[n0..] == Parse(data)
      requires total != [] && prev == At(total, n0) && Position(m) == phase + n0 * ONE && phase < STEP
      requires (m > 0 ==> Position(m - 1) < n0 * ONE) && Staged(total, m, out, 0)
      modifies this`emitted, this`phase, this`prev, out
      ensures Staged(total, m', out, o) && prev == total[|total| - 1]
      ensures Position(m') == phase + |total| * ONE && phase < STEP
      ensures m' > 0 ==> Position(m' - 1) < |total| * ONE
    {
      hide Output, Outputs, Encode, FrameAt, Staged, Position;
      var inframes := |data| / 4;
      o, m' := 0, m;
      for i := 0 to inframes
        invariant prev == At(total, n0 + i) && Position(m') == phase + (n0 + i) * ONE && phase < STEP
        invariant m' > 0 ==> Position(m' - 1) < (n0 + i) * ONE
        invariant Staged(total, m', out, o)
      {
        var cur := FrameAt(data, i);
        assert Parse(data)[i] == cur && total[n0 + i] == total[n0..][i];
        o, m' := Interpolate(cur, out, o, total, n0 + i, m');
      }
    }

    lemma NothingStaged(total: seq<Frame>, m: nat, out: array<nat>)
      requires out.Length == FIFO_OUTFRAMES * 4 && (m == 0 || Position(m - 1) < |total| * ONE) &&
        emitted == Outputs(total, m)
      ensures Staged(total, m, out, 0)
    {
      assert emitted + out[..0] == emitted;
    }

    lemma StagedMeans(total: seq<Frame>, m: nat, out: array<nat>, o: nat)
      requires Staged(total, m, out, o)
      ensures out.Length == FIFO_OUTFRAMES * 4 && o <= FIFO_OUTFRAMES && (m == 0 || Position(m - 1) < |total| * ONE)
      ensures (if o > 0 then emitted + out[..o * 4] else emitted) == Outputs(total, m)
    {
      if o == 0 {
        assert emitted + out[..0] == emitted;
      }
    }

    /** The four bytes of one output frame. */
    static method Stage(out: array<nat>, o: nat, v: Frame)
      requires out.Length == FIFO_OUTFRAMES * 4 && o < FIFO_OUTFRAMES
      modifies out
      ensures out[..o * 4 + 4] == old(out[..o * 4]) + Encode(v)
    {
      out[o * 4] := v.left % 0x100;
      out[o * 4 + 1] := v.left / 0x100 % 0x100;
      out[o * 4 + 2] := v.right % 0x100;
      out[o * 4 + 3] := v.right / 0x100 % 0x100;
    }
  }

  lemma Continue(x: seq<Frame>, more: seq<Frame>)
    ensures var m := Count(|x|);
      (m == 0 || Position(m - 1) < |x| * ONE) && Position(m) >= |x| * ONE &&
      (m == 0 || Position(m - 1) < |x + more| * ONE) && Outputs(x + more, m) == Sent(x) &&
        (x == [] ==> m == 0 && Sent(x) == [])
  {
    var m := Count(|x|);
    CountIs(|x|, m);
    if m > 0 {
      CountIs(|x|, m - 1);
    }
    OutputsStable(x, more, m);
  }

  lemma OneMore(total: seq<Frame>, m: nat, i: nat, phase: nat)
    requires i < |total| && Position(m) == phase + i * ONE && phase < ONE
    ensures Position(m) < (i + 1) * ONE <= |total| * ONE && Position(m + 1) == phase + STEP + i * ONE
    ensures Output(total, m) == MixFrame(At(total, i), At(total, i + 1), phase)
  {
    hide MixFrame;
    InFrame(m, i, phase);
  }

  lemma AllSent(total: seq<Frame>, m: nat, phase: nat)
    requires Position(m) == phase + |total| * ONE && (m > 0 ==> Position(m - 1) < |total| * ONE)
    ensures m == Count(|total|) && Outputs(total, m) == Sent(total)
  {
    CountIs(|total|, m);
    if m > 0 {
      CountIs(|total|, m - 1);
    }
  }

  /** However the input is cut into blocks of whole frames, the same bytes are sent: the state after a, then b, is
      the state after a + b. */
  lemma BlocksDoNotMatter(x: seq<Frame>, a: seq<nat>, b: seq<nat>)
    requires |a| % 4 == 0
    ensures Sent(x + Parse(a) + Parse(b)) == Sent(x + Parse(a + b))
    ensures Sent(x) <= Sent(x + Parse(a))
  {
    hide Parse, Sent, Count;
    ParseConcat(a, b);
    assert x + Parse(a) + Parse(b) == x + (Parse(a) + Parse(b));
    SentPrefix(x, Parse(a));
  }

  lemma SentPrefix(x: seq<Frame>, more: seq<Frame>)
    ensures Sent(x) <= Sent(x + more)
  {
    hide Outputs;
    Continue(x, more);
    Continue(x + more, []);
    CountMore(|x|, |x + more|);
    OutputsGrow(x + more, Count(|x|), Count(|x + more|));
  }

  lemma CountMore(a: nat, b: nat)
    requires a <= b
    ensures Count(a) <= Count(b)
  {
    if Count(b) < Count(a) {
      CountIs(a, Count(b));
      CountIs(b, Count(b));
    }
  }

  lemma {:induction false} OutputsGrow(x: seq<Frame>, k: nat, m: nat)
    requires k <= m && (m == 0 || Position(m - 1) < |x| * ONE)
    ensures (k == 0 || Position(k - 1) < |x| * ONE) && Outputs(x, k) <= Outputs(x, m)
    decreases m
  {
    hide Output, Encode, Position;
    if k < m {
      PositionBefore(m - 1);
      OutputsGrow(x, k, m - 1);
    }
  }

  lemma PositionBefore(k: nat)
    ensures k > 0 ==> Position(k - 1) < Position(k)
  {
  }

  /** Frame k of what was sent is output frame k: n input frames give exactly Count(n) of them. */
  lemma SentFrame(x: seq<Frame>, k: nat)
    requires k < Count(|x|)
    ensures |Sent(x)| == Count(|x|) * 4 && Position(k) < |x| * ONE && Sent(x)[k * 4..k * 4 + 4] == Encode(Output(x, k))
  {
    hide Output, Encode;
    CountIs(|x|, k);
    CountIs(|x|, Count(|x|) - 1);
    OutputsGrow(x, k + 1, Count(|x|));
    assert Outputs(x, k + 1)[k * 4..k * 4 + 4] == Encode(Output(x, k));
  }
}
