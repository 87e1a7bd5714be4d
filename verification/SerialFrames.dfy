/** What a waiting receiver makes of a frame, bit by sampled bit, with a right or a wrong stop bit. */
module SerialFrames {
  import opened Serial

  // ---- Runs of the receiver ----

  /** The registers after sampling the levels, and the bytes reported meanwhile. */
  function Receive(n: nat, rx: Rx, levels: seq<bool>): (Rx, seq<Byte>) {
    if levels == [] then (rx, [])
    else
      var (r, out) := Receive(n, rx, levels[..|levels| - 1]);
      var (s, valid) := RxEdge(n, r, levels[|levels| - 1]);
      (s, if valid then out + [s.last] else out)
  }

  lemma ReceiveOne(n: nat, rx: Rx, levels: seq<bool>, level: bool)
    ensures Receive(n, rx, levels + [level]) ==
      var (r, out) := Receive(n, rx, levels);
      var (s, valid) := RxEdge(n, r, level);
      (s, if valid then out + [s.last] else out)
  {
    hide RxEdge;
    assert (levels + [level])[..|levels|] == levels;
  }

  lemma {:induction false} ReceiveSplits(n: nat, rx: Rx, first: seq<bool>, more: seq<bool>)
    ensures Receive(n, rx, first + more) ==
      var (r, out) := Receive(n, rx, first);
      var (s, rest) := Receive(n, r, more);
      (s, out + rest)
    decreases |more|
  {
    hide RxEdge;
    if more == [] {
      var (r, out) := Receive(n, rx, first);
      assert first + more == first && Receive(n, r, more) == (r, []) && out + [] == out;
    } else {
      var init, last := more[..|more| - 1], more[|more| - 1];
      ReceiveSplits(n, rx, first, init);
      assert first + more == (first + init) + [last] && more == init + [last];
      ReceiveOne(n, rx, first + init, last);
      var (r, out) := Receive(n, rx, first);
      ReceiveOne(n, r, init, last);
      var (q, rest) := Receive(n, r, init);
      var (t, valid) := RxEdge(n, q, last);
      assert (out + rest) + [t.last] == out + (rest + [t.last]);
    }
  }

  // ---- One frame ----

  /** The edge, counted from the falling edge of the start bit, at which data bit b is sampled; bit 8 is the stop bit. */
  function SampledAt(n: nat, b: nat): nat {
    n / 2 + n * (b + 1)
  }

  function Weight(b: nat): bv32 {
    if b == 0 then 0x01 else if b == 1 then 0x02 else if b == 2 then 0x04 else if b == 3 then 0x08
    else if b == 4 then 0x10 else if b == 5 then 0x20 else if b == 6 then 0x40 else 0x80
  }

  function WeightOf(x: bool, b: nat): bv32 {
    if x then Weight(b) else 0
  }

  /** The first b bits by their weights. */
  function Weighed(bits: seq<bool>, b: nat): bv32
    requires b <= |bits|
  {
    if b == 0 then 0 else Weighed(bits, b - 1) | WeightOf(bits[b - 1], b - 1)
  }

  /** The byte whose bits, lowest first, are given. */
  function ByteOf(bits: seq<bool>): bv32
    requires |bits| == 8
  {
    Weighed(bits, 8)
  }

  /** Levels from a falling edge to the sample of the stop bit: the start bit is low at its middle, the bits are those at
      their sampling edges, and between those edges the line may do anything. */
  ghost predicate Carries(n: nat, levels: seq<bool>, bits: seq<bool>, stop: bool) {
    && n >= 2 && |bits| == 8 && |levels| == SampledAt(n, 8) + 1
    && !levels[0] && !levels[n / 2] && levels[SampledAt(n, 8)] == stop
    && forall b {:trigger bits[b]} :: 0 <= b < 8 ==> levels[SampledAt(n, b)] == bits[b]
  }

  /** Ready for a start bit. */
  predicate Waiting(rx: Rx) {
    !rx.active && rx.prev
  }

  function BitShifted(x: bool, b: nat): bv32
    requires b < 8
  {
    (if x then 1 else 0) << b
  }

  lemma BitShiftedIs(x: bool, b: nat)
    requires b < 8
    ensures BitShifted(x, b) == WeightOf(x, b) && BitShifted(x, b) & 0xFF == BitShifted(x, b)
  {
    if b == 0 {} else if b == 1 {} else if b == 2 {} else if b == 3 {} else if b == 4 {} else if b == 5 {} else if b == 6 {} else {}
  }

  lemma SampleIsBit(shift: bv32, b: nat, x: bool)
    requires b < 8
    ensures SampleBit(shift, b, x) == shift | BitShifted(x, b)
  {
  }

  lemma WeighedStep(bits: seq<bool>, b: nat)
    requires |bits| == 8 && b < 8
    ensures Weighed(bits, b + 1) == Weighed(bits, b) | WeightOf(bits[b], b)
  {
    hide Weight;
  }

  /** Sampling one more bit adds its weight. */
  lemma WeighedNext(bits: seq<bool>, b: nat)
    requires |bits| == 8 && b < 8
    ensures Weighed(bits, b + 1) == SampleBit(Weighed(bits, b), b, bits[b])
  {
    WeighedStep(bits, b);
    SampleIsBit(Weighed(bits, b), b, bits[b]);
    BitShiftedIs(bits[b], b);
    hide *;
  }

  lemma Masked(v: bv32, w: bv32)
    requires v & 0xFF == v && w & 0xFF == w
    ensures (v | w) & 0xFF == v | w
  {
  }

  lemma {:induction false} WeighedIsMasked(bits: seq<bool>, b: nat)
    requires b <= |bits| == 8
    ensures Weighed(bits, b) & 0xFF == Weighed(bits, b)
  {
    if b > 0 {
      WeighedIsMasked(bits, b - 1);
      BitShiftedIs(bits[b - 1], b - 1);
      hide BitShifted, Weight;
      Masked(Weighed(bits, b - 1), BitShifted(bits[b - 1], b - 1));
    }
  }

  lemma BelowMask(v: bv32)
    requires v & 0xFF == v
    ensures v <= 0xFF
  {
  }

  lemma ByteIsMasked(bits: seq<bool>)
    requires |bits| == 8
    ensures Weighed(bits, 8) & 0xFF == ByteOf(bits) && ByteOf(bits) <= 0xFF
  {
    WeighedIsMasked(bits, 8);
    hide Weighed;
    BelowMask(Weighed(bits, 8));
  }

  /** In the frame: b data bits are sampled and c edges have passed since the last sample. */
  ghost predicate Inside(rx: Rx, was: Rx, bits: seq<bool>, b: nat, c: nat)
    requires |bits| == 8
  {
    && b <= 8 && rx.active && !rx.confirm && rx.bit == b && rx.cnt == c && rx.shift == Weighed(bits, b)
    && rx.frames == was.frames && rx.errors == was.errors && rx.last == was.last
  }

  /** Waiting for the middle of the start bit. */
  ghost predicate Starting(rx: Rx, was: Rx, c: nat) {
    && rx.active && rx.confirm && rx.bit == 0 && rx.cnt == c && rx.shift == 0
    && rx.frames == was.frames && rx.errors == was.errors && rx.last == was.last
  }

  lemma {:induction false} StartHolds(n: nat, rx: Rx, levels: seq<bool>, c: nat)
    requires n >= 2 && Waiting(rx) && c < n / 2 < |levels| && !levels[0]
    ensures var (r, out) := Receive(n, rx, levels[..c + 1]); Starting(r, rx, c) && out == []
  {
    if c == 0 {
      assert levels[..1] == [] + [levels[0]];
      ReceiveOne(n, rx, [], levels[0]);
    } else {
      StartHolds(n, rx, levels, c - 1);
      assert levels[..c + 1] == levels[..c] + [levels[c]];
      ReceiveOne(n, rx, levels[..c], levels[c]);
    }
  }

  lemma StartConfirmed(n: nat, rx: Rx, levels: seq<bool>, bits: seq<bool>)
    requires n >= 2 && Waiting(rx) && n / 2 < |levels| && |bits| == 8 && !levels[0] && !levels[n / 2]
    ensures var (r, out) := Receive(n, rx, levels[..n / 2 + 1]); Inside(r, rx, bits, 0, 0) && out == []
  {
    StartHolds(n, rx, levels, n / 2 - 1);
    assert levels[..n / 2 + 1] == levels[..n / 2] + [levels[n / 2]];
    ReceiveOne(n, rx, levels[..n / 2], levels[n / 2]);
  }

  /** A start bit that is high again at its middle was noise: the receiver waits as before. */
  lemma FalseStartIgnored(n: nat, rx: Rx, levels: seq<bool>)
    requires n >= 2 && Waiting(rx) && |levels| == n / 2 + 1 && !levels[0] && levels[n / 2]
    ensures var (r, out) := Receive(n, rx, levels);
      Waiting(r) && out == [] && r.frames == rx.frames && r.errors == rx.errors && r.last == rx.last
  {
    StartHolds(n, rx, levels, n / 2 - 1);
    assert levels == levels[..n / 2] + [levels[n / 2]];
    ReceiveOne(n, rx, levels[..n / 2], levels[n / 2]);
  }

  /** Between two samples. */
  lemma {:induction false} BitHolds(n: nat, rx: Rx, was: Rx, levels: seq<bool>, bits: seq<bool>, b: nat, c: nat)
    requires |bits| == 8 && Inside(rx, was, bits, b, 0) && c < n && c <= |levels|
    ensures var (r, out) := Receive(n, rx, levels[..c]); Inside(r, was, bits, b, c) && out == []
  {
    if c > 0 {
      BitHolds(n, rx, was, levels, bits, b, c - 1);
      assert levels[..c] == levels[..c - 1] + [levels[c - 1]];
      ReceiveOne(n, rx, levels[..c - 1], levels[c - 1]);
    } else {
      assert levels[..0] == [];
    }
  }

  lemma BitSampled(n: nat, rx: Rx, was: Rx, levels: seq<bool>, bits: seq<bool>, b: nat)
    requires n >= 2 && |bits| == 8 && b < 8 && Inside(rx, was, bits, b, 0) && |levels| == n && levels[n - 1] == bits[b]
    ensures var (r, out) := Receive(n, rx, levels); Inside(r, was, bits, b + 1, 0) && out == []
  {
    hide Weighed, SampleBit;
    BitHolds(n, rx, was, levels, bits, b, n - 1);
    assert levels == levels[..n - 1] + [levels[n - 1]];
    ReceiveOne(n, rx, levels[..n - 1], levels[n - 1]);
    WeighedNext(bits, b);
  }

  /** The n edges after a sample end with the next one. */
  lemma BitStep(n: nat, rx: Rx, levels: seq<bool>, bits: seq<bool>, b: nat, from: nat)
    requires n >= 2 && |bits| == 8 && b < 8 && from + n <= |levels| && levels[from + n - 1] == bits[b]
    requires var (r, out) := Receive(n, rx, levels[..from]); Inside(r, rx, bits, b, 0) && out == []
    ensures var (r, out) := Receive(n, rx, levels[..from + n]); Inside(r, rx, bits, b + 1, 0) && out == []
  {
    hide Inside;
    assert levels[..from + n] == levels[..from] + levels[from..from + n];
    ReceiveSplits(n, rx, levels[..from], levels[from..from + n]);
    BitSampled(n, Receive(n, rx, levels[..from]).0, rx, levels[from..from + n], bits, b);
  }

  /** The number of edges up to b sampled data bits. */
  function EdgesTo(n: nat, b: nat): nat {
    if b == 0 then n / 2 + 1 else EdgesTo(n, b - 1) + n
  }

  lemma {:induction false} EdgesToIs(n: nat, b: nat)
    ensures EdgesTo(n, b) + n == SampledAt(n, b) + 1
  {
    if b > 0 {
      EdgesToIs(n, b - 1);
      NextSample(n, b - 1);
    } else {
      assert n * 1 == n;
    }
  }

  /** The next data bit is sampled n edges on. */
  lemma CarriesAt(n: nat, levels: seq<bool>, bits: seq<bool>, stop: bool, b: nat)
    requires Carries(n, levels, bits, stop) && b < 8
    ensures EdgesTo(n, b) + n <= |levels| && n >= 2 && |bits| == 8 && levels[EdgesTo(n, b) + n - 1] == bits[b]
  {
    EdgesToIs(n, b);
    AtMost(n, b);
    assert bits[b] == levels[SampledAt(n, b)];
  }

  lemma {:induction false} BitsSampled(n: nat, rx: Rx, levels: seq<bool>, bits: seq<bool>, stop: bool, b: nat)
    requires Waiting(rx) && Carries(n, levels, bits, stop) && b <= 8
    ensures EdgesTo(n, b) <= |levels| && |bits| == 8
    ensures var (r, out) := Receive(n, rx, levels[..EdgesTo(n, b)]); Inside(r, rx, bits, b, 0) && out == []
  {
    hide Inside, SampledAt, Receive;
    if b == 0 {
      CarriesAt(n, levels, bits, stop, 0);
      StartConfirmed(n, rx, levels, bits);
    } else {
      CarriesAt(n, levels, bits, stop, b - 1);
      hide Carries;
      BitsSampled(n, rx, levels, bits, stop, b - 1);
      BitStep(n, rx, levels, bits, b - 1, EdgesTo(n, b - 1));
    }
  }

  lemma NextSample(n: nat, b: nat)
    ensures SampledAt(n, b + 1) == SampledAt(n, b) + n
  {
    assert n * (b + 2) == n * (b + 1) + n;
  }

  lemma AtMost(n: nat, b: nat)
    requires b <= 8
    ensures n <= SampledAt(n, b) <= SampledAt(n, 8)
    ensures SampledAt(n, 0) == n / 2 + n
  {
    assert n * (b + 1) + n * (8 - b) == n * 9;
    assert n * (b + 1) == n * b + n;
  }

  /** What the frame leaves: a byte with a high stop bit is the last one and counted; with a low stop bit nothing but the
      count of errors has changed. */
  ghost predicate Ended(rx: Rx, was: Rx, bits: seq<bool>, stop: bool)
    requires |bits| == 8
  {
    && !rx.active && rx.prev == stop
    && (stop ==> rx.last == ByteOf(bits) && rx.frames == was.frames + 1 && rx.errors == was.errors)
    && (!stop ==> rx.last == was.last && rx.frames == was.frames && rx.errors == was.errors + 1)
  }

  /** Main result: a waiting receiver reports the byte of the eight sampled bits, at the sample of the stop bit and not
      before, exactly when the stop bit is high; else it reports nothing and counts one error. */
  lemma FrameReceived(n: nat, rx: Rx, levels: seq<bool>, bits: seq<bool>, stop: bool)
    requires Waiting(rx) && Carries(n, levels, bits, stop)
    ensures ByteOf(bits) <= 0xFF
    ensures var (r, out) := Receive(n, rx, levels); Ended(r, rx, bits, stop) && out == if stop then [ByteOf(bits)] else []
    ensures forall k :: 0 <= k < |levels| ==> Receive(n, rx, levels[..k]).1 == []
    ensures levels != [] && Receive(n, rx, levels[..|levels| - 1]).0.errors == rx.errors
  {
    FrameLength(n, levels, bits, stop);
    BitsSampled(n, rx, levels, bits, stop, 8);
    hide *;
    StopStep(n, rx, levels, bits, stop, EdgesTo(n, 8));
    NothingAtAll(n, rx, levels);
  }

  lemma FrameLength(n: nat, levels: seq<bool>, bits: seq<bool>, stop: bool)
    requires Carries(n, levels, bits, stop)
    ensures EdgesTo(n, 8) + n == |levels| && n >= 2 && |bits| == 8 && levels[|levels| - 1] == stop
  {
    EdgesToIs(n, 8);
  }

  lemma NothingAtAll(n: nat, rx: Rx, levels: seq<bool>)
    requires levels != [] && Receive(n, rx, levels[..|levels| - 1]).1 == []
    ensures forall k :: 0 <= k < |levels| ==> Receive(n, rx, levels[..k]).1 == []
  {
    hide *;
    forall k | 0 <= k < |levels| ensures Receive(n, rx, levels[..k]).1 == [] {
      NothingEarlier(n, rx, levels[..|levels| - 1], k);
      assert levels[..|levels| - 1][..k] == levels[..k];
    }
  }

  lemma StopStep(n: nat, rx: Rx, levels: seq<bool>, bits: seq<bool>, stop: bool, from: nat)
    requires n >= 2 && |bits| == 8 && from + n == |levels| && levels[from + n - 1] == stop
    requires var (r, out) := Receive(n, rx, levels[..from]); Inside(r, rx, bits, 8, 0) && out == []
    ensures ByteOf(bits) <= 0xFF && Receive(n, rx, levels[..|levels| - 1]).1 == []
    ensures Receive(n, rx, levels[..|levels| - 1]).0.errors == rx.errors
    ensures var (r, out) := Receive(n, rx, levels); Ended(r, rx, bits, stop) && out == if stop then [ByteOf(bits)] else []
  {
    hide Inside, Ended, ByteOf;
    var rest := levels[from..];
    assert levels == levels[..from] + rest && levels[..|levels| - 1] == levels[..from] + rest[..n - 1];
    ReceiveSplits(n, rx, levels[..from], rest);
    ReceiveSplits(n, rx, levels[..from], rest[..n - 1]);
    StopSampled(n, Receive(n, rx, levels[..from]).0, rx, rest, bits, stop);
  }

  lemma NothingEarlier(n: nat, rx: Rx, levels: seq<bool>, k: nat)
    requires Receive(n, rx, levels).1 == [] && k <= |levels|
    ensures Receive(n, rx, levels[..k]).1 == []
  {
    assert levels[..k] + levels[k..] == levels;
    ReceiveSplits(n, rx, levels[..k], levels[k..]);
  }

  lemma StopSampled(n: nat, rx: Rx, was: Rx, levels: seq<bool>, bits: seq<bool>, stop: bool)
    requires n >= 2 && |bits| == 8 && Inside(rx, was, bits, 8, 0) && |levels| == n && levels[n - 1] == stop
    ensures ByteOf(bits) <= 0xFF && Receive(n, rx, levels[..n - 1]).1 == []
    ensures Receive(n, rx, levels[..n - 1]).0.errors == was.errors
    ensures var (r, out) := Receive(n, rx, levels); Ended(r, was, bits, stop) && out == if stop then [ByteOf(bits)] else []
  {
    ByteIsMasked(bits);
    hide Weighed, ByteOf, Receive;
    BitHolds(n, rx, was, levels, bits, 8, n - 1);
    assert levels == levels[..n - 1] + [levels[n - 1]];
    ReceiveOne(n, rx, levels[..n - 1], levels[n - 1]);
    StopEdge(n, Receive(n, rx, levels[..n - 1]).0, was, bits, stop);
    hide Ended, RxEdge;
  }

  lemma StopEdge(n: nat, rx: Rx, was: Rx, bits: seq<bool>, stop: bool)
    requires n >= 2 && |bits| == 8 && Inside(rx, was, bits, 8, n - 1)
    ensures var (r, valid) := RxEdge(n, rx, stop); Ended(r, was, bits, stop) && valid == stop && (stop ==> r.last == ByteOf(bits))
  {
    ByteIsMasked(bits);
    hide Weighed, ByteOf;
  }

  // ---- Many frames ----

  type Bits = s: seq<bool> | |s| == 8 witness seq(8, _ => false)

  /** A frame and what the line does until the next one. */
  datatype Frame = Frame(levels: seq<bool>, bits: Bits, stop: bool, rest: seq<bool>)

  /** After the level given the line does not fall, and it ends high. */
  predicate Settles(level: bool, rest: seq<bool>)
    decreases |rest|
  {
    if rest == [] then level else (rest[0] || !level) && Settles(rest[0], rest[1..])
  }

  ghost predicate FrameOk(n: nat, f: Frame) {
    Carries(n, f.levels, f.bits, f.stop) && Settles(f.stop, f.rest)
  }

  function Line(frames: seq<Frame>): seq<bool> {
    if frames == [] then [] else Line(frames[..|frames| - 1]) + (frames[|frames| - 1].levels + frames[|frames| - 1].rest)
  }

  /** The bytes of the frames with a high stop bit. */
  function Reported(frames: seq<Frame>): seq<bv32> {
    if frames == [] then []
    else
      var f := frames[|frames| - 1];
      Reported(frames[..|frames| - 1]) + if f.stop then [ByteOf(f.bits)] else []
  }

  /** The number of frames with a low stop bit. */
  function Broken(frames: seq<Frame>): nat {
    if frames == [] then 0 else Broken(frames[..|frames| - 1]) + if frames[|frames| - 1].stop then 0 else 1
  }

  lemma {:induction false} SettlingIsIdle(n: nat, rx: Rx, rest: seq<bool>)
    requires !rx.active && Settles(rx.prev, rest)
    ensures Receive(n, rx, rest) == (rx.(prev := true), [])
    decreases |rest|
  {
    if rest != [] {
      assert rest == [rest[0]] + rest[1..];
      ReceiveSplits(n, rx, [rest[0]], rest[1..]);
      assert [] + [rest[0]] == [rest[0]];
      ReceiveOne(n, rx, [], rest[0]);
      SettlingIsIdle(n, rx.(prev := rest[0]), rest[1..]);
    }
  }

  lemma FrameAndRest(n: nat, rx: Rx, f: Frame)
    requires Waiting(rx) && FrameOk(n, f)
    ensures var (r, out) := Receive(n, rx, f.levels + f.rest);
      && Waiting(r)
      && out == (if f.stop then [ByteOf(f.bits)] else [])
      && r.last == (if f.stop then ByteOf(f.bits) else rx.last)
      && r.frames == rx.frames + (if f.stop then 1 else 0) && r.errors == rx.errors + (if f.stop then 0 else 1)
  {
    FrameReceived(n, rx, f.levels, f.bits, f.stop);
    hide Receive, Carries, ByteOf;
    var (r, out) := Receive(n, rx, f.levels);
    ReceiveSplits(n, rx, f.levels, f.rest);
    SettlingIsIdle(n, r, f.rest);
    assert out + [] == out;
  }

  /** Main result: of any sequence of frames a waiting receiver reports the bytes of those with a high stop bit, in order,
      and counts the others as errors. */
  lemma {:induction false} FramesReceived(n: nat, rx: Rx, frames: seq<Frame>)
    requires Waiting(rx) && forall f :: f in frames ==> FrameOk(n, f)
    ensures var (r, out) := Receive(n, rx, Line(frames));
      && Waiting(r) && out == Reported(frames)
      && r.frames == rx.frames + |Reported(frames)| && r.errors == rx.errors + Broken(frames)
      && r.last == if Reported(frames) == [] then rx.last else Reported(frames)[|Reported(frames)| - 1]
  {
    if frames != [] {
      var init, f := frames[..|frames| - 1], frames[|frames| - 1];
      assert f in frames;
      NextFrame(frames);
      hide Receive, FrameOk, ByteOf, Line, Reported, Broken, Waiting;
      FramesReceived(n, rx, init);
      var r := Receive(n, rx, Line(init)).0;
      ReceiveSplits(n, rx, Line(init), f.levels + f.rest);
      FrameAndRest(n, r, f);
    }
  }

  lemma NextFrame(frames: seq<Frame>)
    requires frames != []
    ensures var init, f := frames[..|frames| - 1], frames[|frames| - 1];
      && Line(frames) == Line(init) + (f.levels + f.rest)
      && Reported(frames) == Reported(init) + (if f.stop then [ByteOf(f.bits)] else [])
      && Broken(frames) == Broken(init) + if f.stop then 0 else 1
  {
  }
}
