/** A transmitter and a receiver on one line: delivery in order, without errors and in bounded time. */
module SerialLink {
  import opened Serial

  const CAPACITY: nat := 4095

  /** tx and rx share a clock. late: the receiver's step runs before the transmitter's, so it samples the level of
      the previous edge. accepted and delivered record what push took and what the receiver reported. */
  datatype Link = Link(tx: Tx, queue: seq<Byte>, line: bool, rx: Rx, accepted: seq<Byte>, delivered: seq<Byte>)

  /** What the level on a wire is part of: nothing, the power-on low, or count c of bit b of a byte's frame. */
  datatype Tag = Idle | PowerLow | At(ch: Byte, b: nat, c: nat)

  predicate TagLevel(t: Tag) {
    match t
    case Idle => true
    case PowerLow => false
    case At(ch, b, _) => FrameLevel(ch, b)
  }

  ghost predicate TagOk(n: nat, t: Tag) {
    t.At? ==> t.b <= 9 && t.c < n
  }

  // ---- One edge of the link ----

  function Push(l: Link, b: Byte): Link {
    if |l.queue| < CAPACITY then l.(queue := l.queue + [b], accepted := l.accepted + [b]) else l
  }

  function PushAll(l: Link, bytes: seq<Byte>): Link
    decreases |bytes|
  {
    if bytes == [] then l else PushAll(Push(l, bytes[0]), bytes[1..])
  }

  function Edge(n: nat, late: bool, l: Link): Link {
    var (tx, queue, level) := TxEdge(n, l.tx, l.queue);
    var (rx, valid) := RxEdge(n, l.rx, if late then l.line else level);
    Link(tx, queue, level, rx, l.accepted, if valid then l.delivered + [rx.last] else l.delivered)
  }

  function Start(line: bool): Link {
    Link(TX_RESET, [], line, RX_RESET, [], [])
  }

  /** A run: before each clock edge, some bytes are offered to push. */
  function RunFrom(n: nat, late: bool, l: Link, script: seq<seq<Byte>>): Link
    decreases |script|
  {
    if script == [] then l else RunFrom(n, late, Edge(n, late, PushAll(l, script[0])), script[1..])
  }

  // ---- The receiver follows the tags ----

  /** How the receiver stands to the sampled tag: waiting, in a start it will reject after j edges, or in the frame
      with its own count e edges ahead. */
  datatype View = Waiting | Spurious(j: nat) | Locked(e: nat)

  /** Own position of a receiver that is e counts ahead of count c of bit b. */
  function OwnBit(n: nat, b: nat, c: nat, e: nat): nat {
    if c + e < n then b else b + 1
  }

  function OwnCount(n: nat, c: nat, e: nat): nat {
    if c + e < n then c + e else c + e - n
  }

  /** Registers of a receiver at count c of bit b of its own frame, up to just before the stop bit is sampled. */
  ghost predicate InFrame(n: nat, rx: Rx, ch: Byte, b: nat, c: nat) {
    var half := n / 2;
    && rx.active && b <= 9 && c < n && (b == 9 ==> c < half)
    && (if b == 0 && c < half then rx.confirm && rx.cnt == c && rx.bit == 0 && rx.shift == 0
        else if c < half then !rx.confirm && rx.cnt == n - half + c && rx.bit == b - 1 && rx.shift == LowBits(ch, b - 1)
        else !rx.confirm && rx.cnt == c - half && rx.bit == b && rx.shift == LowBits(ch, b))
  }

  ghost predicate RxFollows(n: nat, rx: Rx, t: Tag, v: View) {
    && rx.prev == TagLevel(t) && TagOk(n, t) && rx.errors == 0
    && match v
       case Waiting => !rx.active && (t == Idle || (t.At? && t.b == 9))
       case Spurious(j) => (t == Idle || (t == PowerLow && j == 0)) && j < n / 2 &&
         rx.active && rx.confirm && rx.cnt == j && rx.bit == 0 && rx.shift == 0
       case Locked(e) => t.At? && e <= n / 2 && InFrame(n, rx, t.ch, OwnBit(n, t.b, t.c, e), OwnCount(n, t.c, e))
  }

  /** The tags a wire may show after t. */
  ghost predicate Follows(n: nat, t: Tag, u: Tag) {
    match t
    case Idle => u == Idle || u == PowerLow || (u.At? && u.b == 0 && u.c == 0)
    case PowerLow => u == Idle || (u.At? && u.b == 0 && u.c == 0)
    case At(ch, b, c) =>
      if c + 1 < n then u == At(ch, b, c + 1)
      else if b < 9 then u == At(ch, b + 1, 0)
      else u == Idle || (u.At? && u.b == 0 && u.c == 0)
  }

  ghost function NextView(n: nat, v: View, u: Tag): View {
    match v
    case Waiting => if u.At? && u.b == 0 && u.c == 0 then Locked(0) else if u.PowerLow? then Spurious(0) else Waiting
    case Spurious(j) => if u.At? then Locked(j + 1) else if j + 1 < n / 2 then Spurious(j + 1) else Waiting
    case Locked(e) =>
      if u.At? && OwnBit(n, u.b, u.c, e) == 9 && OwnCount(n, u.c, e) == n / 2 then Waiting else v
  }

  /** A locked receiver reports exactly when its own count reaches the middle of the stop bit. */
  ghost predicate Reports(n: nat, v: View, u: Tag) {
    v.Locked? && NextView(n, v, u).Waiting?
  }

  lemma InFrameAdvances(n: nat, rx: Rx, ch: Byte, b: nat, c: nat, level: bool)
    requires n >= 2 && InFrame(n, rx, ch, b, c)
    requires var b' := if c + 1 < n then b else b + 1; var c' := if c + 1 < n then c + 1 else 0;
             c' == n / 2 ==> level == FrameLevel(ch, b')
    ensures var b' := if c + 1 < n then b else b + 1; var c' := if c + 1 < n then c + 1 else 0;
            var (r, valid) := RxEdge(n, rx, level);
            && r.prev == level && r.errors == rx.errors
            && (if b' == 9 && c' == n / 2 then !r.active && valid && r.last == ch && r.frames == rx.frames + 1
                else InFrame(n, r, ch, b', c') && !valid && r.frames == rx.frames)
  {
    if c + 1 == n / 2 {
      InFrameSamples(n, rx, ch, b, c, level);
    } else {
      InFrameCounts(n, rx, ch, b, c, level);
    }
  }

  /** Between sampling points the receiver counts. */
  lemma InFrameCounts(n: nat, rx: Rx, ch: Byte, b: nat, c: nat, level: bool)
    requires n >= 2 && InFrame(n, rx, ch, b, c) && c + 1 != n / 2
    ensures var b' := if c + 1 < n then b else b + 1; var c' := if c + 1 < n then c + 1 else 0;
            var (r, valid) := RxEdge(n, rx, level);
            r.prev == level && r.errors == rx.errors && InFrame(n, r, ch, b', c') && !valid && r.frames == rx.frames &&
            !(b' == 9 && c' == n / 2)
  {
    hide LowBits, Sample;
  }

  /** In the middle of a bit it samples. */
  lemma InFrameSamples(n: nat, rx: Rx, ch: Byte, b: nat, c: nat, level: bool)
    requires n >= 2 && InFrame(n, rx, ch, b, c) && c + 1 == n / 2 && level == FrameLevel(ch, b)
    ensures var (r, valid) := RxEdge(n, rx, level);
            && r.prev == level && r.errors == rx.errors
            && (if b == 9 then !r.active && valid && r.last == ch && r.frames == rx.frames + 1
                else InFrame(n, r, ch, b, c + 1) && !valid && r.frames == rx.frames)
  {
    AllBits(ch);
    NoBits(ch);
    if 1 <= b <= 8 {
      SampleExtends(ch, b - 1);
    }
    hide SampleBit, LowBits, BitAt;
  }

  ghost predicate RxAdvances(n: nat, rx: Rx, v: View, u: Tag) {
    var (r, valid) := RxEdge(n, rx, TagLevel(u));
    && RxFollows(n, r, u, NextView(n, v, u))
    && (valid <==> Reports(n, v, u))
    && (valid ==> u.At? && r.last == u.ch && r.frames == rx.frames + 1)
  }

  lemma WaitingStep(n: nat, rx: Rx, t: Tag, u: Tag)
    requires n >= 2 && RxFollows(n, rx, t, Waiting) && Follows(n, t, u) && TagOk(n, u)
    ensures RxAdvances(n, rx, Waiting, u)
  {
    if u.At? {
      NoBits(u.ch);
    }
  }

  lemma SpuriousStep(n: nat, rx: Rx, t: Tag, j: nat, u: Tag)
    requires n >= 2 && RxFollows(n, rx, t, Spurious(j)) && Follows(n, t, u) && TagOk(n, u) && !u.PowerLow?
    ensures RxAdvances(n, rx, Spurious(j), u)
  {
    if u.At? {
      NoBits(u.ch);
    }
  }

  /** While the receiver is locked its own position moves on with the frame's, and its sampling points, e counts
      early, still fall into the bit it counts. */
  lemma OwnAdvances(n: nat, t: Tag, e: nat, u: Tag)
    requires n >= 2 && t.At? && TagOk(n, t) && e <= n / 2 && Follows(n, t, u) && TagOk(n, u)
    requires OwnBit(n, t.b, t.c, e) == 9 ==> OwnCount(n, t.c, e) < n / 2
    requires OwnBit(n, t.b, t.c, e) <= 9
    ensures u.At? && u.ch == t.ch
    ensures OwnCount(n, t.c, e) + 1 < n ==>
      OwnBit(n, u.b, u.c, e) == OwnBit(n, t.b, t.c, e) && OwnCount(n, u.c, e) == OwnCount(n, t.c, e) + 1
    ensures OwnCount(n, t.c, e) + 1 >= n ==>
      OwnBit(n, u.b, u.c, e) == OwnBit(n, t.b, t.c, e) + 1 && OwnCount(n, u.c, e) == 0
    ensures OwnCount(n, u.c, e) == n / 2 ==> OwnBit(n, u.b, u.c, e) == u.b
  {
  }

  lemma LockedStep(n: nat, rx: Rx, t: Tag, e: nat, u: Tag)
    requires n >= 2 && RxFollows(n, rx, t, Locked(e)) && Follows(n, t, u) && TagOk(n, u)
    ensures RxAdvances(n, rx, Locked(e), u)
  {
    OwnAdvances(n, t, e, u);
    LockedAt(n, rx, t.ch, OwnBit(n, t.b, t.c, e), OwnCount(n, t.c, e), e, u);
  }

  lemma LockedAt(n: nat, rx: Rx, ch: Byte, b: nat, c: nat, e: nat, u: Tag)
    requires n >= 2 && InFrame(n, rx, ch, b, c) && rx.errors == 0 && u.At? && u.ch == ch && TagOk(n, u) && e <= n / 2
    requires OwnBit(n, u.b, u.c, e) == if c + 1 < n then b else b + 1
    requires OwnCount(n, u.c, e) == if c + 1 < n then c + 1 else 0
    requires OwnCount(n, u.c, e) == n / 2 ==> OwnBit(n, u.b, u.c, e) == u.b
    ensures RxAdvances(n, rx, Locked(e), u)
  {
    InFrameAdvances(n, rx, ch, b, c, TagLevel(u));
  }

  /** One edge of a receiver that follows the tags. */
  lemma RxStep(n: nat, rx: Rx, t: Tag, v: View, u: Tag)
    requires n >= 2 && RxFollows(n, rx, t, v) && Follows(n, t, u) && TagOk(n, u) && (u.PowerLow? ==> v.Waiting?)
    ensures RxAdvances(n, rx, v, u)
  {
    match v
    case Waiting => WaitingStep(n, rx, t, u);
    case Spurious(j) => SpuriousStep(n, rx, t, j, u);
    case Locked(e) => LockedStep(n, rx, t, e, u);
  }

  // ---- The transmitter produces the tags ----

  ghost function NextTag(tx: Tx, queue: seq<Byte>): Tag {
    var (t, _) := Load(tx, queue);
    if t.busy then At(t.ch, t.bit, t.cnt) else Idle
  }

  ghost predicate TxFollows(n: nat, tx: Tx, w: Tag) {
    match w
    case At(ch, b, c) =>
      if c + 1 < n then tx == Tx(true, ch, b, c + 1) else if b < 9 then tx == Tx(true, ch, b + 1, 0) else !tx.busy
    case _ => !tx.busy
  }

  lemma TxStep(n: nat, tx: Tx, queue: seq<Byte>, w: Tag)
    requires n >= 2 && TxFollows(n, tx, w) && TagOk(n, w)
    ensures var u := NextTag(tx, queue);
            var (t, q, level) := TxEdge(n, tx, queue);
            && Follows(n, w, u) && TagOk(n, u) && TxFollows(n, t, u) && level == TagLevel(u) && !u.PowerLow?
            && (if u.At? && u.b == 0 && u.c == 0 then queue != [] && u.ch == queue[0] && q == queue[1..] else q == queue)
  {
  }

  // ---- The invariant of the link ----

  ghost function InReceiver(r: Tag, v: View): seq<Byte> {
    if v.Locked? && r.At? then [r.ch] else []
  }

  /** The byte whose frame begins at the tag. */
  ghost function StartByte(t: Tag): seq<Byte> {
    if t.At? && t.b == 0 && t.c == 0 then [t.ch] else []
  }

  /** The byte whose start bit is on the wire but has not been sampled yet. */
  ghost function OnWire(late: bool, w: Tag): seq<Byte> {
    if late then StartByte(w) else []
  }

  /** The tags of the wire and of the last sample, and the receiver's view. */
  datatype Ghosts = Ghosts(w: Tag, r: Tag, v: View)

  /** slack bounds how far a power-on low, seen by a late receiver, can put it ahead of the first frame. */
  ghost predicate ViewOk(v: View, slack: nat) {
    match v
    case Waiting => true
    case Spurious(_) => slack > 0
    case Locked(e) => e <= slack
  }

  ghost predicate Wires(n: nat, late: bool, slack: nat, l: Link, g: Ghosts) {
    && l.line == TagLevel(g.w) && TagOk(n, g.w) && TxFollows(n, l.tx, g.w)
    && RxFollows(n, l.rx, g.r, g.v) && ViewOk(g.v, slack) && slack <= n / 2 && (slack > 0 ==> slack == n / 2)
    && (if late then Follows(n, g.r, g.w) && (g.w.PowerLow? ==> g.v.Waiting? && slack > 0)
        else g.r == g.w || (g.w.PowerLow? && g.r.Idle? && g.v.Waiting?))
  }

  /** Every accepted byte is in exactly one place, in order. */
  ghost predicate Books(late: bool, l: Link, g: Ghosts) {
    && |l.queue| <= CAPACITY && l.rx.frames == |l.delivered|
    && l.accepted == l.delivered + InReceiver(g.r, g.v) + OnWire(late, g.w) + l.queue
  }

  ghost predicate Inv(n: nat, late: bool, slack: nat, l: Link, g: Ghosts) {
    Wires(n, late, slack, l, g) && Books(late, l, g)
  }

  ghost function NextGhosts(n: nat, late: bool, l: Link, g: Ghosts): Ghosts {
    var u := NextTag(l.tx, l.queue);
    var sampled := if late then g.w else u;
    Ghosts(u, sampled, NextView(n, g.v, sampled))
  }

  lemma StartInv(n: nat, late: bool, line: bool)
    requires n >= 2
    ensures Inv(n, late, if late && !line then n / 2 else 0, Start(line), Ghosts(if line then Idle else PowerLow, Idle, Waiting))
  {
  }

  lemma PushKeepsInv(n: nat, late: bool, slack: nat, l: Link, g: Ghosts, b: Byte)
    requires Inv(n, late, slack, l, g)
    ensures Inv(n, late, slack, Push(l, b), g)
  {
    var before := l.delivered + InReceiver(g.r, g.v) + OnWire(late, g.w);
    assert (before + l.queue) + [b] == before + (l.queue + [b]);
  }

  lemma {:induction false} PushAllKeepsInv(n: nat, late: bool, slack: nat, l: Link, g: Ghosts, bytes: seq<Byte>)
    requires Inv(n, late, slack, l, g)
    ensures Inv(n, late, slack, PushAll(l, bytes), g)
    ensures l.accepted <= PushAll(l, bytes).accepted && PushAll(l, bytes).delivered == l.delivered
    decreases |bytes|
  {
    hide Inv, Wires;
    if bytes != [] {
      PushKeepsInv(n, late, slack, l, g, bytes[0]);
      PushAllKeepsInv(n, late, slack, Push(l, bytes[0]), g, bytes[1..]);
    }
  }

  /** A sampled start bit enters the receiver, and a reported byte leaves it. */
  lemma ReceiverMoves(n: nat, r: Tag, v: View, u: Tag)
    requires n >= 2 && TagOk(n, r) && Follows(n, r, u) && TagOk(n, u)
    requires v.Locked? ==> r.At? && v.e <= n / 2 && OwnBit(n, r.b, r.c, v.e) <= 9
    requires v.Locked? && OwnBit(n, r.b, r.c, v.e) == 9 ==> OwnCount(n, r.c, v.e) < n / 2
    requires v.Waiting? ==> r == Idle || (r.At? && r.b == 9)
    requires v.Spurious? ==> !r.At? && !u.PowerLow?
    ensures InReceiver(r, v) + StartByte(u) ==
      (if Reports(n, v, u) then InReceiver(r, v) else []) + InReceiver(u, NextView(n, v, u))
  {
    if v.Locked? {
      OwnAdvances(n, r, v.e, u);
    }
  }

  /** The next sample follows the last one. */
  lemma SampledFollows(n: nat, late: bool, slack: nat, l: Link, g: Ghosts)
    requires n >= 2 && Wires(n, late, slack, l, g)
    ensures var u := NextGhosts(n, late, l, g).r; Follows(n, g.r, u) && TagOk(n, u) && (u.PowerLow? ==> g.v.Waiting? && slack > 0)
    ensures TagLevel(NextGhosts(n, late, l, g).r) == if late then l.line else TxEdge(n, l.tx, l.queue).2
  {
    TxStep(n, l.tx, l.queue, g.w);
  }

  lemma ViewStaysOk(n: nat, r: Tag, v: View, u: Tag, slack: nat)
    requires n >= 2 && slack <= n / 2 && (slack > 0 ==> slack == n / 2) && ViewOk(v, slack) && (u.PowerLow? ==> slack > 0)
    requires v.Spurious? ==> v.j < n / 2
    ensures ViewOk(NextView(n, v, u), slack)
  {
  }

  ghost function Reported(n: nat, g: Ghosts, h: Ghosts): seq<Byte> {
    if Reports(n, g.v, h.r) then InReceiver(g.r, g.v) else []
  }

  lemma EdgeKeepsWires(n: nat, late: bool, slack: nat, l: Link, g: Ghosts)
    requires n >= 2 && Wires(n, late, slack, l, g)
    ensures Wires(n, late, slack, Edge(n, late, l), NextGhosts(n, late, l, g))
  {
    var h := NextGhosts(n, late, l, g);
    TxStep(n, l.tx, l.queue, g.w);
    SampledFollows(n, late, slack, l, g);
    EdgeDelivers(n, late, l, g);
    ViewStaysOk(n, g.r, g.v, h.r, slack);
  }

  lemma EdgeKeepsBooks(n: nat, late: bool, slack: nat, l: Link, g: Ghosts)
    requires n >= 2 && Wires(n, late, slack, l, g) && Books(late, l, g)
    ensures Books(late, Edge(n, late, l), NextGhosts(n, late, l, g))
    ensures Edge(n, late, l).delivered == l.delivered + Reported(n, g, NextGhosts(n, late, l, g))
  {
    var h := NextGhosts(n, late, l, g);
    BytesStep(n, late, slack, l, g);
    DeliverStep(n, late, slack, l, g);
    Regroup(l.delivered, InReceiver(g.r, g.v), OnWire(late, g.w), l.queue,
            Reported(n, g, h), InReceiver(h.r, h.v), OnWire(late, h.w), Edge(n, late, l).queue);
  }

  lemma ReceiverMovesNow(n: nat, late: bool, slack: nat, l: Link, g: Ghosts)
    requires n >= 2 && Wires(n, late, slack, l, g)
    ensures var h := NextGhosts(n, late, l, g);
      InReceiver(g.r, g.v) + StartByte(h.r) == Reported(n, g, h) + InReceiver(h.r, h.v)
  {
    SampledFollows(n, late, slack, l, g);
    hide TxEdge, RxEdge, InReceiver, StartByte;
    ReceiverMoves(n, g.r, g.v, NextGhosts(n, late, l, g).r);
  }

  lemma BytesStep(n: nat, late: bool, slack: nat, l: Link, g: Ghosts)
    requires n >= 2 && Wires(n, late, slack, l, g)
    ensures var h := NextGhosts(n, late, l, g);
      && InReceiver(g.r, g.v) + OnWire(late, g.w) + l.queue ==
        Reported(n, g, h) + InReceiver(h.r, h.v) + OnWire(late, h.w) + Edge(n, late, l).queue
      && |Edge(n, late, l).queue| <= |l.queue|
  {
    ReceiverMovesNow(n, late, slack, l, g);
    TxStep(n, l.tx, l.queue, g.w);
    hide TxEdge, RxEdge, Reports, InReceiver, RxFollows, Follows, NextView;
    BytesMove(n, late, l, g);
  }

  lemma DeliverStep(n: nat, late: bool, slack: nat, l: Link, g: Ghosts)
    requires n >= 2 && Wires(n, late, slack, l, g)
    ensures var h := NextGhosts(n, late, l, g);
      && Edge(n, late, l).accepted == l.accepted
      && Edge(n, late, l).delivered == l.delivered + Reported(n, g, h)
      && Edge(n, late, l).rx.frames == l.rx.frames + |Reported(n, g, h)|
  {
    SampledFollows(n, late, slack, l, g);
    EdgeDelivers(n, late, l, g);
  }

  lemma Regroup(d: seq<Byte>, x: seq<Byte>, y: seq<Byte>, q: seq<Byte>, out: seq<Byte>, x': seq<Byte>, y': seq<Byte>, q': seq<Byte>)
    requires x + y + q == out + x' + y' + q'
    ensures d + x + y + q == d + out + x' + y' + q'
  {
    assert d + x + y + q == d + (x + y + q);
    assert d + out + x' + y' + q' == d + (out + x' + y' + q');
  }

  /** One edge reports a byte only when it is the oldest undelivered one. */
  lemma EdgeKeepsInv(n: nat, late: bool, slack: nat, l: Link, g: Ghosts)
    requires n >= 2 && Inv(n, late, slack, l, g)
    ensures Inv(n, late, slack, Edge(n, late, l), NextGhosts(n, late, l, g))
    ensures Edge(n, late, l).delivered == l.delivered + Reported(n, g, NextGhosts(n, late, l, g))
  {
    EdgeKeepsWires(n, late, slack, l, g);
    EdgeKeepsBooks(n, late, slack, l, g);
  }

  lemma EdgeDelivers(n: nat, late: bool, l: Link, g: Ghosts)
    requires n >= 2 && RxFollows(n, l.rx, g.r, g.v)
    requires var h := NextGhosts(n, late, l, g);
      && Follows(n, g.r, h.r) && TagOk(n, h.r) && (h.r.PowerLow? ==> g.v.Waiting?)
      && TagLevel(h.r) == if late then l.line else TxEdge(n, l.tx, l.queue).2
    ensures var h := NextGhosts(n, late, l, g);
      && Edge(n, late, l).delivered == l.delivered + Reported(n, g, h)
      && Edge(n, late, l).rx.frames == l.rx.frames + |Reported(n, g, h)|
      && RxFollows(n, Edge(n, late, l).rx, h.r, h.v)
  {
    var h := NextGhosts(n, late, l, g);
    RxStep(n, l.rx, g.r, g.v, h.r);
    hide TxEdge, RxEdge, NextTag;
    if g.v.Locked? {
      OwnAdvances(n, g.r, g.v.e, h.r);
      RxKeepsFrames(n, l.rx, TagLevel(h.r));
    } else {
      RxKeepsFrames(n, l.rx, TagLevel(h.r));
    }
  }

  lemma RxKeepsFrames(n: nat, rx: Rx, level: bool)
    ensures RxEdge(n, rx, level).1 || RxEdge(n, rx, level).0.frames == rx.frames
  {
  }

  /** Every accepted byte stays in exactly one place. */
  lemma BytesMove(n: nat, late: bool, l: Link, g: Ghosts)
    requires var h := NextGhosts(n, late, l, g);
      && InReceiver(g.r, g.v) + StartByte(h.r) == Reported(n, g, h) + InReceiver(h.r, h.v)
      && l.queue == StartByte(h.w) + TxEdge(n, l.tx, l.queue).1
    ensures var h := NextGhosts(n, late, l, g);
      InReceiver(g.r, g.v) + OnWire(late, g.w) + l.queue ==
        Reported(n, g, h) + InReceiver(h.r, h.v) + OnWire(late, h.w) + TxEdge(n, l.tx, l.queue).1
  {
  }
}
