/** The transmit ring shared by one pushing host thread and the simulation: every interleaving of their atomic steps. */
module RingConcurrency {
  import opened UartFeed
  import opened Serial
  import opened SerialLink

  /** Where the pusher is: idle; its byte with the loaded head; after the room check; after writing the slot. */
  datatype Pusher = PushIdle | HeadLoaded(b: Byte, h: nat) | RoomSeen(b: Byte, h: nat, next: nat) | SlotWritten(b: Byte, h: nat, next: nat)

  /** Where the popper is: idle; head loaded for the emptiness test; inside the pop with the loaded tail; after its own
      emptiness test; after reading the slot. */
  datatype Popper = PopIdle | HeadPeeked(seen: nat) | TailLoaded(t: nat) | EntrySeen(t: nat) | EntryRead(t: nat, b: Byte)

  /** The shared ring, both program counters, and the history: bytes published and popped, and refused pushes, each with
      the number of entries outstanding when the pusher loaded tail. */
  datatype Ring = Ring(buf: seq<Byte>, head: nat, tail: nat, pusher: Pusher, popper: Popper,
                       accepted: seq<Byte>, popped: seq<Byte>, refusals: seq<nat>)

  datatype Action = Offer(b: Byte) | PushStep | PopStep

  const EMPTY := Ring(seq(RING, _ => 0), 0, 0, PushIdle, PopIdle, [], [], [])

  predicate Shaped(r: Ring) {
    && |r.buf| == RING && r.head < RING && r.tail < RING && |r.popped| <= |r.accepted|
    && (r.pusher.HeadLoaded? ==> r.pusher.h < RING)
    && (r.pusher.RoomSeen? ==> r.pusher.h < RING && r.pusher.next < RING)
    && (r.pusher.SlotWritten? ==> r.pusher.h < RING && r.pusher.next < RING)
    && (r.popper.TailLoaded? ==> r.popper.t < RING)
    && (r.popper.EntrySeen? ==> r.popper.t < RING)
    && (r.popper.EntryRead? ==> r.popper.t < RING)
  }

  /** One atomic step: each action performs at most one load or store of shared memory. */
  function Step(r: Ring, a: Action): Ring
    requires Shaped(r)
  {
    match a
    case Offer(b) => if r.pusher.PushIdle? then r.(pusher := HeadLoaded(b, r.head)) else r
    case PushStep =>
      (match r.pusher
       case PushIdle => r
       case HeadLoaded(b, h) =>
         if After(h) == r.tail then r.(pusher := PushIdle, refusals := r.refusals + [|r.accepted| - |r.popped|])
         else r.(pusher := RoomSeen(b, h, After(h)))
       case RoomSeen(b, h, next) => r.(buf := r.buf[h := b], pusher := SlotWritten(b, h, next))
       case SlotWritten(b, h, next) => r.(head := next, pusher := PushIdle, accepted := r.accepted + [b]))
    case PopStep =>
      (match r.popper
       case PopIdle => r.(popper := HeadPeeked(r.head))
       case HeadPeeked(seen) => if seen == r.tail then r.(popper := PopIdle) else r.(popper := TailLoaded(r.tail))
       case TailLoaded(t) => if t == r.head then r.(popper := PopIdle) else r.(popper := EntrySeen(t))
       case EntrySeen(t) => r.(popper := EntryRead(t, r.buf[t]))
       case EntryRead(t, b) => r.(tail := After(t), popper := PopIdle, popped := r.popped + [b]))
  }

  /** Published but unpopped bytes sit in their slots, in order, and each side's loaded values are still true enough. */
  ghost predicate Inv(r: Ring) {
    && Shaped(r)
    && r.head == |r.accepted| % RING && r.tail == |r.popped| % RING
    && r.popped <= r.accepted && |r.accepted| - |r.popped| < RING
    && (forall i :: |r.popped| <= i < |r.accepted| ==> r.buf[i % RING] == r.accepted[i])
    && (match r.pusher
        case PushIdle => true
        case HeadLoaded(_, h) => h == r.head
        case RoomSeen(_, h, next) => h == r.head && next == After(h) && |r.accepted| - |r.popped| < CAPACITY
        case SlotWritten(b, h, next) => h == r.head && next == After(h) && |r.accepted| - |r.popped| < CAPACITY && r.buf[h] == b)
    && (match r.popper
        case PopIdle => true
        case HeadPeeked(_) => true
        case TailLoaded(t) => t == r.tail
        case EntrySeen(t) => t == r.tail && |r.popped| < |r.accepted|
        case EntryRead(t, b) => t == r.tail && |r.popped| < |r.accepted| && b == r.accepted[|r.popped|])
    && (forall i :: 0 <= i < |r.refusals| ==> r.refusals[i] == CAPACITY)
  }

  lemma WrapsTogether(a: nat, b: nat)
    requires a <= b < a + RING
    ensures a % RING == b % RING <==> a == b
    ensures After(b % RING) == (b + 1) % RING
  {
  }

  lemma PushStepKeepsInv(r: Ring)
    requires Inv(r)
    ensures Inv(Step(r, PushStep))
  {
    match r.pusher
    case PushIdle =>
    case HeadLoaded(_, _) => HeadLoadedKeepsInv(r);
    case RoomSeen(_, _, _) => RoomSeenKeepsInv(r);
    case SlotWritten(_, _, _) => PublishKeepsInv(r);
  }

  lemma HeadLoadedKeepsInv(r: Ring)
    requires Inv(r) && r.pusher.HeadLoaded?
    ensures Inv(Step(r, PushStep))
  {
    WrapsTogether(|r.accepted|, |r.accepted|);
    if |r.accepted| + 1 < |r.popped| + RING {
      WrapsTogether(|r.popped|, |r.accepted| + 1);
    }
  }

  lemma RoomSeenKeepsInv(r: Ring)
    requires Inv(r) && r.pusher.RoomSeen?
    ensures Inv(Step(r, PushStep))
  {
    SlotIsFree(r);
  }

  lemma PublishKeepsInv(r: Ring)
    requires Inv(r) && r.pusher.SlotWritten?
    ensures Inv(Step(r, PushStep))
  {
    WrapsTogether(|r.accepted|, |r.accepted|);
    var s := Step(r, PushStep);
    forall i | |s.popped| <= i < |s.accepted| ensures s.buf[i % RING] == s.accepted[i] {
      if i == |r.accepted| {
        assert i % RING == r.pusher.h;
      }
    }
  }

  /** While there is room, the slot at head holds no unread entry. */
  lemma SlotIsFree(r: Ring)
    requires Inv(r) && r.pusher.RoomSeen?
    ensures forall i :: |r.popped| <= i < |r.accepted| ==> i % RING != r.pusher.h
  {
    forall i | |r.popped| <= i < |r.accepted| ensures i % RING != r.pusher.h {
      WrapsTogether(i, |r.accepted|);
    }
  }

  lemma PopStepKeepsInv(r: Ring)
    requires Inv(r)
    ensures Inv(Step(r, PopStep))
  {
    WrapsTogether(|r.popped|, |r.accepted|);
    WrapsTogether(|r.popped|, |r.popped|);
  }

  /** Every atomic step of either side keeps the invariant. */
  lemma StepKeepsInv(r: Ring, a: Action)
    requires Inv(r)
    ensures Inv(Step(r, a))
  {
    match a
    case Offer(_) =>
    case PushStep => PushStepKeepsInv(r);
    case PopStep => PopStepKeepsInv(r);
  }

  ghost function RunRing(r: Ring, actions: seq<Action>): (s: Ring)
    requires Inv(r)
    ensures Inv(s)
    decreases |actions|
  {
    if actions == [] then r
    else
      StepKeepsInv(r, actions[0]);
      RunRing(Step(r, actions[0]), actions[1..])
  }

  /** Main result: under every interleaving the popped bytes are a prefix of the published ones, and a push is refused
      only when 4095 entries were outstanding at its load of tail. */
  lemma RingIsFifo(actions: seq<Action>)
    ensures var r := RunRing(EMPTY, actions);
      r.popped <= r.accepted && forall i :: 0 <= i < |r.refusals| ==> r.refusals[i] == 4095
  {
    assert Inv(RunRing(EMPTY, actions));
  }

  /** The slot the pusher is about to write is never one that still has to be read, in particular not the one being popped. */
  lemma UnreadSlotsAreSafe(actions: seq<Action>)
    ensures var r := RunRing(EMPTY, actions);
      r.pusher.RoomSeen? ==>
        && (forall i :: |r.popped| <= i < |r.accepted| ==> i % RING != r.pusher.h)
        && (r.popper.EntrySeen? ==> r.popper.t != r.pusher.h)
  {
    var r := RunRing(EMPTY, actions);
    if r.pusher.RoomSeen? {
      SlotIsFree(r);
    }
  }

  /** With the other side quiet, the atomic steps of one push add up to the sequential push. */
  lemma PushInOneGo(r: Ring, b: Byte)
    requires Inv(r) && r.pusher.PushIdle?
    ensures var s := RunRing(r, [Offer(b), PushStep, PushStep, PushStep]);
      var room := |Window(r.buf, r.tail, r.head)| < CAPACITY;
      && s.accepted == (if room then r.accepted + [b] else r.accepted)
      && Window(s.buf, s.tail, s.head) == (if room then Window(r.buf, r.tail, r.head) + [b] else Window(r.buf, r.tail, r.head))
  {
    UnrollFour(r, Offer(b), PushStep, PushStep, PushStep);
    WindowLength(r.buf, r.tail, r.head);
    if After(r.head) != r.tail {
      WindowPush(r.buf, r.tail, r.head, b);
    }
  }

  lemma UnrollFour(r: Ring, a: Action, b: Action, c: Action, d: Action)
    requires Inv(r)
    ensures Inv(Step(r, a)) && Inv(Step(Step(r, a), b)) && Inv(Step(Step(Step(r, a), b), c))
    ensures RunRing(r, [a, b, c, d]) == Step(Step(Step(Step(r, a), b), c), d)
  {
    StepKeepsInv(r, a);
    StepKeepsInv(Step(r, a), b);
    StepKeepsInv(Step(Step(r, a), b), c);
    UnrollTwo(Step(Step(r, a), b), c, d);
    assert [a, b, c, d][1..] == [b, c, d];
    assert [b, c, d][1..] == [c, d];
  }

  lemma UnrollTwo(r: Ring, c: Action, d: Action)
    requires Inv(r)
    ensures Inv(Step(r, c))
    ensures RunRing(r, [c, d]) == Step(Step(r, c), d)
  {
    StepKeepsInv(r, c);
    assert [c, d][1..] == [d];
    UnrollOne(Step(r, c), d);
  }

  lemma UnrollOne(r: Ring, d: Action)
    requires Inv(r)
    ensures RunRing(r, [d]) == Step(r, d)
  {
    StepKeepsInv(r, d);
    assert [d][1..] == [];
    assert RunRing(Step(r, d), []) == Step(r, d);
  }
}
