/** Whole runs of the serial link: order, integrity and delivery time. */
module SerialRuns {
  import opened Serial
  import opened SerialLink

  // ---- How many edges until a byte is delivered ----

  ghost function Times(k: nat, n: nat): nat {
    if k == 0 then 0 else n + Times(k - 1, n)
  }

  lemma {:induction false} TimesIsProduct(k: nat, n: nat)
    ensures Times(k, n) == k * n
  {
    if k > 0 {
      TimesIsProduct(k - 1, n);
    }
  }

  /** Edges from count c of bit b to the middle of the stop bit. */
  ghost function FrameLeft(n: nat, b: nat, c: nat): int {
    if b <= 9 then Times(9 - b, n) + n / 2 - c else 0
  }

  /** Edges after this one that the transmitter still spends on the frame on the wire. */
  ghost function TxLeft(n: nat, w: Tag): int {
    if w.At? && w.b <= 9 then Times(9 - w.b, n) + (n - 1 - w.c) else 0
  }

  /** A bound on the edges until accepted byte m is delivered, by where the byte is. */
  ghost function Eta(n: nat, late: bool, l: Link, g: Ghosts, m: nat): int {
    var p := m - |l.delivered|;
    var inside := |InReceiver(g.r, g.v)|;
    var wire := |OnWire(late, g.w)|;
    if p < inside && g.v.Locked? && g.r.At? then FrameLeft(n, g.r.b, g.r.c) - g.v.e
    else if p < inside + wire then Times(9, n) + n / 2 + 1
    else QueueEta(n, late, g.w, p - inside - wire)
  }

  /** The same for byte j of the queue: the frame on the wire, j whole frames, and its own up to the stop bit. */
  ghost function QueueEta(n: nat, late: bool, w: Tag, j: nat): int {
    TxLeft(n, w) + Times(j, Times(10, n)) + Times(9, n) + n / 2 + if late then 2 else 1
  }

  ghost predicate Undelivered(l: Link, m: nat) {
    |l.delivered| <= m < |l.accepted|
  }

  /** Counted by the receiver's own position, e counts ahead of the frame's. */
  lemma OwnFrameLeft(n: nat, b: nat, c: nat, e: nat)
    requires n >= 2 && b <= 9 && c < n && e <= n / 2 && OwnBit(n, b, c, e) <= 9
    ensures FrameLeft(n, b, c) - e == FrameLeft(n, OwnBit(n, b, c, e), OwnCount(n, c, e))
  {
  }

  lemma FrameLeftPositive(n: nat, b: nat, c: nat)
    requires n >= 2 && b <= 9 && c < n && (b == 9 ==> c < n / 2)
    ensures FrameLeft(n, b, c) >= 1
  {
  }

  lemma FrameLeftDrops(n: nat, t: Tag, u: Tag)
    requires n >= 2 && t.At? && u.At? && TagOk(n, t) && TagOk(n, u) && Follows(n, t, u) && !(u.b == 0 && u.c == 0)
    ensures FrameLeft(n, u.b, u.c) == FrameLeft(n, t.b, t.c) - 1
  {
  }

  lemma LockedCountsDown(n: nat, late: bool, slack: nat, l: Link, g: Ghosts)
    requires n >= 2 && Wires(n, late, slack, l, g) && g.v.Locked?
    ensures var h := NextGhosts(n, late, l, g);
      && g.r.At? && h.r.At?
      && FrameLeft(n, g.r.b, g.r.c) - g.v.e >= 1
      && FrameLeft(n, h.r.b, h.r.c) == FrameLeft(n, g.r.b, g.r.c) - 1
      && (Reports(n, g.v, h.r) || h.v == g.v)
  {
    hide TxEdge, RxEdge, NextTag, TagLevel, FrameLeft;
    var h := NextGhosts(n, late, l, g);
    SampledFollows(n, late, slack, l, g);
    OwnAdvances(n, g.r, g.v.e, h.r);
    OwnFrameLeft(n, g.r.b, g.r.c, g.v.e);
    FrameLeftPositive(n, OwnBit(n, g.r.b, g.r.c, g.v.e), OwnCount(n, g.r.c, g.v.e));
    FrameLeftDrops(n, g.r, h.r);
  }

  lemma InsideStep(n: nat, late: bool, slack: nat, l: Link, g: Ghosts)
    requires n >= 2 && Wires(n, late, slack, l, g) && g.v.Locked?
    ensures var k := Edge(n, late, l); var h := NextGhosts(n, late, l, g); var m := |l.delivered|;
      m < |k.delivered| || Eta(n, late, k, h, m) < Eta(n, late, l, g, m)
    ensures Eta(n, late, l, g, |l.delivered|) >= 1
  {
    LockedCountsDown(n, late, slack, l, g);
    DeliverStep(n, late, slack, l, g);
  }

  lemma WireStep(n: nat, late: bool, slack: nat, l: Link, g: Ghosts, m: nat)
    requires n >= 2 && Inv(n, late, slack, l, g) && !g.v.Locked? && OnWire(late, g.w) != [] && m == |l.delivered|
    ensures var k := Edge(n, late, l); var h := NextGhosts(n, late, l, g);
      1 <= Eta(n, late, l, g, m) && Eta(n, late, k, h, m) < Eta(n, late, l, g, m)
  {
    EdgeKeepsInv(n, late, slack, l, g);
  }

  /** Bytes in the receiver or on the wire do not jump the queue. */
  lemma CountsMove(n: nat, late: bool, slack: nat, l: Link, g: Ghosts)
    requires n >= 2 && Inv(n, late, slack, l, g)
    ensures var k := Edge(n, late, l); var h := NextGhosts(n, late, l, g);
      |l.delivered| + |InReceiver(g.r, g.v)| + |OnWire(late, g.w)| + |l.queue| ==
      |k.delivered| + |InReceiver(h.r, h.v)| + |OnWire(late, h.w)| + |k.queue|
  {
    EdgeKeepsInv(n, late, slack, l, g);
    Lengths(l.accepted, l.delivered, InReceiver(g.r, g.v), OnWire(late, g.w), l.queue);
    var h := NextGhosts(n, late, l, g);
    Lengths(l.accepted, Edge(n, late, l).delivered, InReceiver(h.r, h.v), OnWire(late, h.w), Edge(n, late, l).queue);
  }

  lemma Lengths(all: seq<Byte>, a: seq<Byte>, b: seq<Byte>, c: seq<Byte>, d: seq<Byte>)
    requires all == a + b + c + d
    ensures |all| == |a| + |b| + |c| + |d|
  {
  }

  lemma QueueEtaDrops(n: nat, late: bool, w: Tag, u: Tag, j: nat)
    requires n >= 2 && TagOk(n, w) && Follows(n, w, u) && StartByte(u) == [] && u.At?
    ensures QueueEta(n, late, u, j) < QueueEta(n, late, w, j)
  {
  }

  lemma QueueEtaAtStart(n: nat, late: bool, w: Tag, u: Tag, j: nat)
    requires n >= 2 && TagOk(n, w) && Follows(n, w, u) && StartByte(u) != []
    ensures TxLeft(n, w) == 0
    ensures j > 0 ==> QueueEta(n, late, u, j - 1) < QueueEta(n, late, w, j)
    ensures Times(9, n) + n / 2 + (if late then 1 else 0) < QueueEta(n, late, w, j)
  {
    assert Times(10, n) == n + Times(9, n);
  }

  /** Where queue byte j is after the edge. */
  lemma QueuePlace(n: nat, late: bool, slack: nat, l: Link, g: Ghosts, j: nat)
    requires n >= 2 && Inv(n, late, slack, l, g) && j < |l.queue|
    ensures var k := Edge(n, late, l); var h := NextGhosts(n, late, l, g);
      && Follows(n, g.w, h.w) && h.w.At? && TagOk(n, g.w)
      && (StartByte(h.w) == [] ==> |k.queue| == |l.queue|)
      && (StartByte(h.w) != [] ==> |k.queue| == |l.queue| - 1)
      && (StartByte(h.w) != [] && !late ==> h.r == h.w && (h.v.Locked? ==> InReceiver(h.r, h.v) == [h.r.ch]))
      && (StartByte(h.w) != [] && !late ==> |InReceiver(h.r, h.v)| == 1)
  {
    TxStep(n, l.tx, l.queue, g.w);
    SampledFollows(n, late, slack, l, g);
    LockedIsMidFrame(n, late, slack, l, g);
  }

  lemma LockedIsMidFrame(n: nat, late: bool, slack: nat, l: Link, g: Ghosts)
    requires n >= 2 && Wires(n, late, slack, l, g)
    ensures StartByte(NextGhosts(n, late, l, g).r) != [] ==> !g.v.Locked?
  {
    SampledFollows(n, late, slack, l, g);
    if g.v.Locked? {
      OwnAdvances(n, g.r, g.v.e, NextGhosts(n, late, l, g).r);
    }
  }

  lemma QueueStep(n: nat, late: bool, slack: nat, l: Link, g: Ghosts, j: nat)
    requires n >= 2 && Inv(n, late, slack, l, g) && j < |l.queue|
    ensures var k := Edge(n, late, l); var h := NextGhosts(n, late, l, g);
      var m := |l.delivered| + |InReceiver(g.r, g.v)| + |OnWire(late, g.w)| + j;
      Eta(n, late, k, h, m) < QueueEta(n, late, g.w, j) && QueueEta(n, late, g.w, j) >= 1
  {
    hide Inv, TxEdge, RxEdge, NextTag;
    var h := NextGhosts(n, late, l, g);
    CountsMove(n, late, slack, l, g);
    QueuePlace(n, late, slack, l, g, j);
    if StartByte(h.w) == [] {
      QueueEtaDrops(n, late, g.w, h.w, j);
    } else {
      QueueEtaAtStart(n, late, g.w, h.w, j);
    }
  }

  /** A byte that is neither in the receiver nor on the wire is in the queue. */
  lemma EtaInQueue(n: nat, late: bool, l: Link, g: Ghosts, m: nat)
    requires n >= 2 && m >= |l.delivered| + |InReceiver(g.r, g.v)| + |OnWire(late, g.w)|
    ensures var j := m - |l.delivered| - |InReceiver(g.r, g.v)| - |OnWire(late, g.w)|;
      Eta(n, late, l, g, m) == QueueEta(n, late, g.w, j)
  {
  }

  /** An undelivered byte is in the queue, or the next to be delivered: then in the receiver or on the wire. */
  lemma WhereIs(n: nat, late: bool, slack: nat, l: Link, g: Ghosts, m: nat)
    requires n >= 2 && Inv(n, late, slack, l, g) && Undelivered(l, m)
    ensures Wires(n, late, slack, l, g)
    ensures var p := m - |l.delivered|; var before := |InReceiver(g.r, g.v)| + |OnWire(late, g.w)|;
      && (p >= before ==> p - before < |l.queue|)
      && (p < before ==> p == 0 && (g.v.Locked? || OnWire(late, g.w) != []))
  {
    Lengths(l.accepted, l.delivered, InReceiver(g.r, g.v), OnWire(late, g.w), l.queue);
    LockedIsMidFrame(n, late, slack, l, g);
  }

  /** Each edge brings every undelivered byte at least one edge closer, or delivers it. */
  lemma EtaDrops(n: nat, late: bool, slack: nat, l: Link, g: Ghosts, m: nat)
    requires n >= 2 && Inv(n, late, slack, l, g) && Undelivered(l, m)
    ensures Eta(n, late, l, g, m) >= 1
    ensures var k := Edge(n, late, l); var h := NextGhosts(n, late, l, g);
      m < |k.delivered| || Eta(n, late, k, h, m) < Eta(n, late, l, g, m)
  {
    hide Edge, NextGhosts, Eta, QueueEta;
    WhereIs(n, late, slack, l, g, m);
    hide Inv, Wires, InReceiver, OnWire;
    var p := m - |l.delivered|;
    var before := |InReceiver(g.r, g.v)| + |OnWire(late, g.w)|;
    if p >= before {
      EtaInQueue(n, late, l, g, m);
      QueueStep(n, late, slack, l, g, p - before);
    } else if g.v.Locked? && p == 0 {
      InsideStep(n, late, slack, l, g);
    } else {
      WireStep(n, late, slack, l, g, m);
    }
  }

  /** Ten bit times for every byte ahead and for the byte itself, and at most half a bit and one edge more. */
  ghost function Bound(n: nat, ahead: nat): nat {
    Times(ahead + 1, Times(10, n)) + n / 2 + 1
  }

  lemma BoundIsProduct(n: nat, ahead: nat)
    ensures Bound(n, ahead) == 10 * n * (ahead + 1) + n / 2 + 1
  {
    TimesIsProduct(10, n);
    TimesIsProduct(ahead + 1, 10 * n);
  }

  lemma EtaBound(n: nat, late: bool, slack: nat, l: Link, g: Ghosts, m: nat)
    requires n >= 2 && Inv(n, late, slack, l, g) && Undelivered(l, m)
    ensures Eta(n, late, l, g, m) <= Bound(n, m - |l.delivered|)
  {
    hide QueueEta, Bound, FrameLeft;
    Lengths(l.accepted, l.delivered, InReceiver(g.r, g.v), OnWire(late, g.w), l.queue);
    var p := m - |l.delivered|;
    var before := |InReceiver(g.r, g.v)| + |OnWire(late, g.w)|;
    if p >= before {
      if before == 0 {
        LateFrameIsOver(n, late, slack, l, g);
        IdleQueueBound(n, late, g.w, p);
      } else {
        BusyQueueBound(n, late, g.w, p - before, p);
      }
    } else {
      FrontBound(n, late, l, g, m);
    }
  }

  lemma FrontBound(n: nat, late: bool, l: Link, g: Ghosts, m: nat)
    requires n >= 2 && 0 <= m - |l.delivered| < |InReceiver(g.r, g.v)| + |OnWire(late, g.w)|
    ensures Eta(n, late, l, g, m) <= Bound(n, m - |l.delivered|)
  {
    assert Times(10, n) == n + Times(9, n);
    if g.r.At? && g.r.b <= 9 {
      FrameLeftBound(n, g.r.b, g.r.c);
    }
    TimesMonotone(1, m - |l.delivered| + 1, Times(10, n));
  }

  lemma IdleQueueBound(n: nat, late: bool, w: Tag, j: nat)
    requires n >= 2 && TxLeft(n, w) < n
    ensures QueueEta(n, late, w, j) <= Bound(n, j)
  {
    assert Times(10, n) == n + Times(9, n);
  }

  lemma BusyQueueBound(n: nat, late: bool, w: Tag, j: nat, p: nat)
    requires n >= 2 && TagOk(n, w) && j < p
    ensures QueueEta(n, late, w, j) <= Bound(n, p)
  {
    assert Times(10, n) == n + Times(9, n);
    TxLeftBound(n, w);
    TimesMonotone(j + 2, p + 1, Times(10, n));
  }

  lemma {:induction false} TimesMonotone(a: nat, b: nat, n: nat)
    requires a <= b
    ensures Times(a, n) <= Times(b, n)
  {
    if a < b {
      TimesMonotone(a, b - 1, n);
    }
  }

  lemma FrameLeftBound(n: nat, b: nat, c: nat)
    requires b <= 9
    ensures FrameLeft(n, b, c) <= Times(9, n) + n / 2
  {
    TimesMonotone(9 - b, 9, n);
  }

  lemma TxLeftBound(n: nat, w: Tag)
    requires n >= 2 && TagOk(n, w)
    ensures TxLeft(n, w) < Times(10, n)
  {
    if w.At? {
      TimesMonotone(9 - w.b, 9, n);
    }
    assert Times(10, n) == n + Times(9, n);
  }

  /** With no byte in the receiver or unsampled on the wire, what is on the wire is at most a stop bit. */
  lemma LateFrameIsOver(n: nat, late: bool, slack: nat, l: Link, g: Ghosts)
    requires n >= 2 && Inv(n, late, slack, l, g) && InReceiver(g.r, g.v) == [] && OnWire(late, g.w) == []
    ensures TxLeft(n, g.w) < n
  {
  }

  // ---- Runs ----

  lemma {:induction false} RunKeepsInv(n: nat, late: bool, slack: nat, l: Link, g: Ghosts, script: seq<seq<Byte>>) returns (h: Ghosts)
    requires n >= 2 && Inv(n, late, slack, l, g)
    ensures Inv(n, late, slack, RunFrom(n, late, l, script), h)
    ensures l.accepted <= RunFrom(n, late, l, script).accepted && |l.delivered| <= |RunFrom(n, late, l, script).delivered|
    decreases |script|
  {
    h := g;
    if script != [] {
      PushAllKeepsInv(n, late, slack, l, g, script[0]);
      EdgeKeepsInv(n, late, slack, PushAll(l, script[0]), g);
      h := RunKeepsInv(n, late, slack, Edge(n, late, PushAll(l, script[0])), NextGhosts(n, late, PushAll(l, script[0]), g), script[1..]);
    }
  }

  /** Offering bytes and taking one edge keeps the invariant and brings byte m one edge closer, or delivers it. */
  lemma OneStep(n: nat, late: bool, slack: nat, l: Link, g: Ghosts, m: nat, bytes: seq<Byte>) returns (k: Link, h: Ghosts)
    requires n >= 2 && Inv(n, late, slack, l, g) && m < |l.accepted|
    ensures k == Edge(n, late, PushAll(l, bytes)) && Inv(n, late, slack, k, h) && m < |k.accepted|
    ensures m < |l.delivered| ==> m < |k.delivered|
    ensures m >= |l.delivered| ==> Eta(n, late, l, g, m) >= 1 && (m < |k.delivered| || Eta(n, late, k, h, m) < Eta(n, late, l, g, m))
  {
    hide Inv, Edge, PushAll, NextGhosts, Eta;
    var p := PushAll(l, bytes);
    PushAllKeepsInv(n, late, slack, l, g, bytes);
    EdgeKeepsInv(n, late, slack, p, g);
    k, h := Edge(n, late, p), NextGhosts(n, late, p, g);
    EdgeAccepts(n, late, p);
    if m >= |l.delivered| {
      EtaSame(n, late, l, p, g, m);
      EtaDrops(n, late, slack, p, g, m);
    }
  }

  lemma EdgeAccepts(n: nat, late: bool, l: Link)
    ensures Edge(n, late, l).accepted == l.accepted
  {
  }

  lemma EtaSame(n: nat, late: bool, l: Link, p: Link, g: Ghosts, m: nat)
    requires p.delivered == l.delivered
    ensures Eta(n, late, p, g, m) == Eta(n, late, l, g, m)
  {
  }

  lemma {:induction false} DeliversWithin(n: nat, late: bool, slack: nat, l: Link, g: Ghosts, m: nat, script: seq<seq<Byte>>)
    requires n >= 2 && Inv(n, late, slack, l, g) && m < |l.accepted|
    requires m < |l.delivered| || Eta(n, late, l, g, m) <= |script|
    ensures m < |RunFrom(n, late, l, script).delivered|
    decreases |script|
  {
    if script != [] {
      var k, h := OneStep(n, late, slack, l, g, m, script[0]);
      DeliversWithin(n, late, slack, k, h, m, script[1..]);
    } else if m >= |l.delivered| {
      EtaDrops(n, late, slack, l, g, m);
    }
  }

  ghost function Slack(n: nat, late: bool, line: bool): nat {
    if late && !line then n / 2 else 0
  }

  /** Main result: for every bit time, either evaluation order, any power-on line level and every schedule of pushes,
      the reported bytes are a prefix of the accepted ones, counted one frame each, and no error is counted. */
  lemma DeliversInOrder(n: nat, late: bool, line: bool, script: seq<seq<Byte>>)
    requires n >= 2
    ensures var l := RunFrom(n, late, Start(line), script);
      l.delivered <= l.accepted && l.rx.errors == 0 && l.rx.frames == |l.delivered|
  {
    StartInv(n, late, line);
    var h := RunKeepsInv(n, late, Slack(n, late, line), Start(line), Ghosts(if line then Idle else PowerLow, Idle, Waiting), script);
  }

  /** Main result: an accepted byte with so many undelivered bytes ahead of it is delivered after at most Bound
      further edges, whatever is pushed meanwhile. */
  lemma DeliversInTime(n: nat, late: bool, line: bool, before: seq<seq<Byte>>, after: seq<seq<Byte>>, m: nat)
    requires n >= 2
    requires var l := RunFrom(n, late, Start(line), before);
      Undelivered(l, m) && |after| >= 10 * n * (m - |l.delivered| + 1) + n / 2 + 1
    ensures var l := RunFrom(n, late, Start(line), before);
      var k := RunFrom(n, late, l, after);
      m < |k.delivered| && k.delivered[m] == l.accepted[m]
  {
    StartInv(n, late, line);
    var slack := Slack(n, late, line);
    var l := RunFrom(n, late, Start(line), before);
    var g := RunKeepsInv(n, late, slack, Start(line), Ghosts(if line then Idle else PowerLow, Idle, Waiting), before);
    DeliversFrom(n, late, slack, l, g, after, m);
  }

  lemma DeliversFrom(n: nat, late: bool, slack: nat, l: Link, g: Ghosts, after: seq<seq<Byte>>, m: nat)
    requires n >= 2 && Inv(n, late, slack, l, g) && Undelivered(l, m)
    requires |after| >= 10 * n * (m - |l.delivered| + 1) + n / 2 + 1
    ensures var k := RunFrom(n, late, l, after); m < |k.delivered| && k.delivered[m] == l.accepted[m]
  {
    EtaBound(n, late, slack, l, g, m);
    BoundIsProduct(n, m - |l.delivered|);
    DeliversWithin(n, late, slack, l, g, m, after);
    var h := RunKeepsInv(n, late, slack, l, g, after);
    var k := RunFrom(n, late, l, after);
    assert k.delivered <= k.accepted;
  }
}
