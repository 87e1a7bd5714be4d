/** The transmitter with its ring buffer, the receiver, and the two on one line, updated in place. */
module UartFeed {
  import opened Serial
  import opened SerialLink

  const RING: nat := 4096

  /** The entries of a ring from index t up to, but not including, index h. */
  function Window(ring: seq<Byte>, t: nat, h: nat): seq<Byte>
    requires |ring| == RING && t < RING && h < RING
  {
    if t <= h then ring[t..h] else ring[t..] + ring[..h]
  }

  function After(i: nat): nat
    requires i < RING
  {
    if i + 1 == RING then 0 else i + 1
  }

  lemma WindowLength(ring: seq<Byte>, t: nat, h: nat)
    requires |ring| == RING && t < RING && h < RING
    ensures |Window(ring, t, h)| == if t <= h then h - t else h + RING - t
    ensures |Window(ring, t, h)| < RING
    ensures |Window(ring, t, h)| == CAPACITY <==> After(h) == t
  {
  }

  lemma WindowPop(ring: seq<Byte>, t: nat, h: nat)
    requires |ring| == RING && t < RING && h < RING && t != h
    ensures Window(ring, t, h) == [ring[t]] + Window(ring, After(t), h)
  {
  }

  lemma WindowPush(ring: seq<Byte>, t: nat, h: nat, b: Byte)
    requires |ring| == RING && t < RING && h < RING && After(h) != t
    ensures Window(ring[h := b], t, After(h)) == Window(ring, t, h) + [b]
  {
  }

  lemma TakeOneMore(q: seq<Byte>, data: seq<Byte>, n: nat)
    requires n < |data|
    ensures q + data[..n + 1] == q + data[..n] + [data[n]]
  {
  }

  class Feed {
    const n: nat
    const buf: array<Byte>
    var head: nat
    var tail: nat
    var busy: bool
    var ch: Byte
    var bit: nat
    var cnt: nat

    ghost predicate Valid()
      reads this
    {
      buf.Length == RING && head < RING && tail < RING
    }

    /** The bytes between tail and head, oldest first. */
    ghost function Queue(): (q: seq<Byte>)
      requires Valid()
      reads this, buf
    {
      Window(buf[..], tail, head)
    }

    function Registers(): Tx
      reads this
    {
      Tx(busy, ch, bit, cnt)
    }

    constructor (n: nat)
      ensures Valid() && fresh(buf) && this.n == n && Queue() == [] && Registers() == TX_RESET
    {
      this.n := n;
      buf := new Byte[RING](_ => 0);
      head, tail := 0, 0;
      busy, ch, bit, cnt := false, 0, 0, 0;
    }

    /** Queues a byte; a full ring refuses it and changes nothing. */
    method Push(b: Byte) returns (ok: bool)
      requires Valid()
      modifies this`head, buf
      ensures Valid()
      ensures ok <==> |old(Queue())| < 4095
      ensures Queue() == if ok then old(Queue()) + [b] else old(Queue())
    {
      WindowLength(buf[..], tail, head);
      var h := head;
      var next := (h + 1) % RING;
      if next == tail {
        return false;
      }
      WindowPush(buf[..], tail, h, b);
      buf[h] := b;
      head := next;
      return true;
    }

    /** Queues bytes until one is refused. */
    method PushSome(data: seq<Byte>) returns (count: nat)
      requires Valid()
      modifies this`head, buf
      ensures Valid() && count <= |data| && Queue() == old(Queue()) + data[..count]
      ensures count == if |old(Queue())| + |data| <= 4095 then |data| else 4095 - |old(Queue())|
    {
      hide Window;
      count := 0;
      ghost var q := Queue();
      WindowLength(buf[..], tail, head);
      while count < |data|
        invariant Valid() && count <= |data| && Queue() == q + data[..count] && |Queue()| <= CAPACITY
      {
        var ok := Push(data[count]);
        if !ok {
          return;
        }
        TakeOneMore(q, data, count);
        count := count + 1;
      }
    }

    method Pending() returns (size: nat)
      requires Valid()
      ensures size == |Queue()|
    {
      WindowLength(buf[..], tail, head);
      size := (head + RING - tail) % RING;
    }

    /** Takes the oldest byte, or reports an empty ring. */
    method Pop() returns (r: int, b: Byte)
      requires Valid()
      modifies this`tail
      ensures Valid()
      ensures old(Queue()) == [] ==> r == -1 && Queue() == []
      ensures old(Queue()) != [] ==> r == b as int && b == old(Queue())[0] && Queue() == old(Queue())[1..]
    {
      b := 0;
      var t := tail;
      if t == head {
        return -1, 0;
      }
      WindowPop(buf[..], t, head);
      b := buf[t];
      tail := (t + 1) % RING;
      r := b as int;
    }

    /** One rising clock edge: the level driven on the line. */
    method Edge() returns (level: bool)
      requires Valid()
      modifies this`tail, this`busy, this`ch, this`bit, this`cnt
      ensures Valid() && (Registers(), Queue(), level) == TxEdge(n, old(Registers()), old(Queue()))
    {
      WindowLength(buf[..], tail, head);
      if !busy && head != tail {
        var r, b := Pop();
        if r >= 0 {
          ch, busy, bit, cnt := b, true, 0, 0;
        }
      }
      level := true;
      if busy {
        if bit == 0 {
          level := false;
        } else if bit <= 8 {
          level := BitAt(ch, bit - 1);
        }
        cnt := cnt + 1;
        if cnt >= n {
          cnt := 0;
          bit := bit + 1;
          if bit > 9 {
            busy := false;
          }
        }
      }
    }
  }

  class Term {
    const n: nat
    var active: bool
    var confirm: bool
    var bit: nat
    var prev: bool
    var cnt: nat
    var shift: bv32
    var frames: nat
    var errors: nat
    var last: Byte

    function Registers(): Rx
      reads this
    {
      Rx(active, confirm, bit, prev, cnt, shift, frames, errors, last)
    }

    constructor (n: nat)
      ensures this.n == n && Registers() == RX_RESET
    {
      this.n := n;
      active, confirm, bit, prev, cnt, shift, frames, errors, last := false, false, 0, true, 0, 0, 0, 0, 0;
    }

    /** One rising clock edge with the sampled level: the last byte, and whether it is new. */
    method Edge(rx: bool) returns (data: Byte, valid: bool)
      modifies this
      ensures (Registers(), valid) == RxEdge(n, old(Registers()), rx) && data == last
    {
      valid := false;
      if !active {
        if prev && !rx {
          active, confirm := true, true;
          cnt, bit, shift := 0, 0, 0;
        }
      } else {
        cnt := cnt + 1;
        if cnt >= (if confirm then n / 2 else n) {
          cnt := 0;
          valid := SampleNow(rx);
        }
      }
      prev := rx;
      data := last;
    }

    method SampleNow(rx: bool) returns (valid: bool)
      requires active
      modifies this
      ensures (Registers(), valid) == Sample(old(Registers()), rx)
    {
      valid := false;
      if confirm {
        confirm := false;
        if rx {
          active := false;
        }
      } else if bit < 8 {
        shift := SampleBit(shift, bit, rx);
        bit := bit + 1;
      } else {
        active := false;
        if rx {
          last := shift & 0xFF;
          frames := frames + 1;
          valid := true;
        } else {
          errors := errors + 1;
        }
      }
    }
  }

  /** A transmitter and a receiver stepped on the same clock edge, in either order, with the wire between them. */
  class Line {
    const feed: Feed
    const term: Term
    var line: bool
    ghost var accepted: seq<Byte>
    ghost var delivered: seq<Byte>

    ghost predicate Valid()
      reads this, feed
    {
      feed.Valid() && feed.n == term.n && feed.n >= 2
    }

    ghost function Now(): Link
      requires Valid()
      reads this, feed, feed.buf, term
    {
      Link(feed.Registers(), feed.Queue(), line, term.Registers(), accepted, delivered)
    }

    constructor (n: nat, line: bool)
      requires n >= 2
      ensures Valid() && fresh(feed) && fresh(feed.buf) && fresh(term) && feed.n == n && Now() == Start(line)
    {
      feed := new Feed(n);
      term := new Term(n);
      this.line := line;
      accepted, delivered := [], [];
    }

    method Push(b: Byte) returns (ok: bool)
      requires Valid()
      modifies this`accepted, feed`head, feed.buf
      ensures Valid() && Now() == SerialLink.Push(old(Now()), b)
    {
      ok := feed.Push(b);
      if ok {
        accepted := accepted + [b];
      }
    }

    method Edge(late: bool)
      requires Valid()
      modifies this`line, this`delivered, feed, term
      ensures Valid() && Now() == SerialLink.Edge(feed.n, late, old(Now()))
    {
      ghost var before := Now();
      var data, valid;
      if late {
        data, valid := term.Edge(line);
        line := feed.Edge();
      } else {
        line := feed.Edge();
        data, valid := term.Edge(line);
      }
      if valid {
        delivered := delivered + [data];
      }
    }
  }
}
