/** What the UART makes of the frames on its line. */
module UartLine {
  import opened Serial
  import opened UartSpec
  import opened UartRegisters
  import SerialFrames

  // ---- Frames on the line ----

  function Levels(script: seq<Bus>): (s: seq<bool>)
    ensures |s| == |script| && forall k :: 0 <= k < |s| ==> s[k] == script[k].rx
  {
    seq(|script|, k requires 0 <= k < |script| => script[k].rx)
  }

  /** The receiver of the UART is the one of the line, whatever happens on the bus. */
  lemma {:induction false} ReceiverRuns(n: nat, script: seq<Bus>)
    ensures After(n, script).rx == SerialFrames.Receive(n, RX_RESET, Levels(script)).0
    decreases |script|
  {
    if script == [] {
      ReceiverAtFirst(n);
    } else {
      hide After, Wires, FullStep, Settled, RxEdge, SerialFrames.Receive;
      var init, b := script[..|script| - 1], script[|script| - 1];
      ReceiverRuns(n, init);
      Next(n, init);
      Next(n, script);
      LevelsNext(script);
      SerialFrames.ReceiveOne(n, RX_RESET, Levels(init), b.rx);
      StepReceives(n, After(n, init), b);
    }
  }

  lemma LevelsNext(script: seq<Bus>)
    requires script != []
    ensures Levels(script) == Levels(script[..|script| - 1]) + [script[|script| - 1].rx]
  {
  }

  lemma StepReceives(n: nat, u: Uart, b: Bus)
    requires |u.fifo.slots| == FIFO
    ensures FullStep(n, u, b).0.rx == RxEdge(n, u.rx, b.rx).0
  {
    hide Access, RxEdge, Put, Serial.Advance;
  }

  lemma ReceiverAtFirst(n: nat)
    ensures After(n, []).rx == RX_RESET
  {
  }

  /** From any edge on, the receiver has seen the levels since. */
  lemma ReceiverSince(n: nat, script: seq<Bus>, from: nat, k: nat)
    requires from <= k <= |script|
    ensures After(n, script[..k]).rx ==
      SerialFrames.Receive(n, After(n, script[..from]).rx, Levels(script[from..])[..k - from]).0
  {
    hide After, SerialFrames.Receive;
    ReceiverRuns(n, script[..from]);
    ReceiverRuns(n, script[..k]);
    var levels := Levels(script[from..])[..k - from];
    assert Levels(script[..k]) == Levels(script[..from]) + levels;
    SerialFrames.ReceiveSplits(n, RX_RESET, Levels(script[..from]), levels);
  }

  /** No byte is reported at edge k when none is in the run up to it. */
  lemma NoGoodFrame(n: nat, script: seq<Bus>, from: nat, k: nat)
    requires from <= k < |script|
    requires SerialFrames.Receive(n, After(n, script[..from]).rx, Levels(script[from..])[..k + 1 - from]).1 == []
    ensures GoodFrame(n, After(n, script[..k]), script[k].rx) == []
  {
    hide After, RxEdge;
    ReceiverSince(n, script, from, k);
    var rx, levels := After(n, script[..from]).rx, Levels(script[from..]);
    assert levels[..k + 1 - from] == levels[..k - from] + [script[k].rx];
    SerialFrames.ReceiveOne(n, rx, levels[..k - from], script[k].rx);
    hide SerialFrames.Receive;
  }

  /** A frame with a low stop bit, from edge from of the script to its end, that a waiting receiver meets. */
  ghost predicate BrokenFrame(n: nat, script: seq<Bus>, from: nat, bits: seq<bool>) {
    && from < |script| && SerialFrames.Waiting(After(n, script[..from]).rx)
    && SerialFrames.Carries(n, Levels(script[from..]), bits, false)
  }

  lemma BrokenFrameCounts(n: nat, script: seq<Bus>, from: nat, bits: seq<bool>)
    requires BrokenFrame(n, script, from, bits)
    ensures After(n, script).rx.errors == After(n, script[..from]).rx.errors + 1
    ensures After(n, script).rx.last == After(n, script[..from]).rx.last
    ensures After(n, script[..|script| - 1]).rx.errors == After(n, script[..from]).rx.errors
  {
    hide After, SerialFrames.Receive, SerialFrames.Carries, SerialFrames.Waiting;
    var rx, levels := After(n, script[..from]).rx, Levels(script[from..]);
    SerialFrames.FrameReceived(n, rx, levels, bits, false);
    ReceiverSince(n, script, from, |script|);
    ReceiverSince(n, script, from, |script| - 1);
    assert script[..|script|] == script && levels[..|script| - from] == levels;
  }

  lemma BrokenFrameReportsNothing(n: nat, script: seq<Bus>, from: nat, bits: seq<bool>, k: nat)
    requires BrokenFrame(n, script, from, bits) && from <= k < |script|
    ensures GoodFrame(n, After(n, script[..k]), script[k].rx) == []
  {
    hide After, SerialFrames.Receive, SerialFrames.Carries, SerialFrames.Waiting, GoodFrame;
    var rx, levels := After(n, script[..from]).rx, Levels(script[from..]);
    SerialFrames.FrameReceived(n, rx, levels, bits, false);
    assert levels[..|levels|] == levels;
    NoGoodFrame(n, script, from, k);
  }

  /** Main result: a frame with a low stop bit counts one error and sets the framing error, which stays until the line status
      is read, and reports no byte; so any frame that a waiting receiver meets, whatever else happens on the bus. */
  lemma BrokenFrameShows(n: nat, script: seq<Bus>, from: nat, bits: seq<bool>)
    requires BrokenFrame(n, script, from, bits)
    ensures After(n, script).rx.errors == After(n, script[..from]).rx.errors + 1
    ensures After(n, script).rx.last == After(n, script[..from]).rx.last
    ensures forall k :: from <= k < |script| ==> GoodFrame(n, After(n, script[..k]), script[k].rx) == []
    ensures BreaksAt(n, script, |script| - 1) && (!ReadsAt(script, |script| - 1, 0x14) ==> After(n, script).fe)
  {
    BrokenFrameCounts(n, script, from, bits);
    var last := |script| - 1;
    assert script[..last + 1] == script;
    hide After, GoodFrame, ReadsAt, FoundAt;
    FoundFlags(n, script, last);
    FlagsNext(n, script, last);
    hide BrokenFrame;
    forall k | from <= k < |script| ensures GoodFrame(n, After(n, script[..k]), script[k].rx) == [] {
      BrokenFrameReportsNothing(n, script, from, bits, k);
    }
  }

  // ---- Whole lines ----

  /** The frames that arrive at the UART are those its receiver reports. */
  lemma {:induction false} ArrivalsAreReported(n: nat, u: Uart, o: Outs, script: seq<Bus>)
    requires Settled(u, o)
    ensures AllBytes(Arrivals(n, u, o, script)) == SerialFrames.Receive(n, u.rx, Levels(script)).1
    decreases |script|
  {
    hide Settled, FullStep, Step, GoodFrame, AllBytes, Arrivals, RxEdge, SerialFrames.Receive;
    SettledFifo(u, o);
    if script == [] {
      NoArrivals(n, u, o);
      NothingReceived(n, u.rx);
      assert Levels(script) == [];
    } else {
      var b, rest := script[0], script[1..];
      SettledFastPath(n, u, o, b);
      FullStepSettles(n, u, b);
      var (v, p) := Step(n, u, o, b);
      FirstArrival(n, u, o, script);
      ArrivalsAreReported(n, v, p, rest);
      assert Levels(script) == [b.rx] + Levels(rest);
      SerialFrames.ReceiveSplits(n, u.rx, [b.rx], Levels(rest));
      FirstReceived(n, u, b);
    }
  }

  lemma NothingReceived(n: nat, rx: Rx)
    ensures SerialFrames.Receive(n, rx, []) == (rx, [])
  {
  }

  lemma FirstReceived(n: nat, u: Uart, b: Bus)
    requires |u.fifo.slots| == FIFO
    ensures SerialFrames.Receive(n, u.rx, [b.rx]) == (FullStep(n, u, b).0.rx, GoodFrame(n, u, b.rx))
  {
    hide RxEdge, FullStep;
    StepReceives(n, u, b);
    NothingReceived(n, u.rx);
    assert [] + [b.rx] == [b.rx];
    SerialFrames.ReceiveOne(n, u.rx, [], b.rx);
    var (r, valid) := RxEdge(n, u.rx, b.rx);
    assert SerialFrames.Receive(n, u.rx, [b.rx]) == (r, if valid then [] + [r.last] else []);
    assert [] + [r.last] == [r.last];
  }

  /** Main result: of any sequence of frames on its line, from reset and whatever happens on the bus, the bytes of those with a
      high stop bit arrive at the UART in order, and the others are counted as errors. */
  lemma FramesArrive(n: nat, script: seq<Bus>, frames: seq<SerialFrames.Frame>)
    requires Levels(script) == SerialFrames.Line(frames) && forall f :: f in frames ==> SerialFrames.FrameOk(n, f)
    ensures AllBytes(Arrivals(n, UART_RESET, OUTS_RESET, script)) == SerialFrames.Reported(frames)
    ensures After(n, script).rx.errors == SerialFrames.Broken(frames)
  {
    ResetIsSettled();
    hide After, Arrivals, AllBytes, SerialFrames.Receive, SerialFrames.Line, SerialFrames.FrameOk, SerialFrames.Reported;
    ReceiverRuns(n, script);
    ArrivalsAreReported(n, UART_RESET, OUTS_RESET, script);
    SerialFrames.FramesReceived(n, RX_RESET, frames);
  }
}
