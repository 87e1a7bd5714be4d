/** The addressable memory with read and write latency, as pipelines over a byte array. */
module PipelinedRam {

  type Octet = bv8

  /** What the memory samples in one tick; write is set when the clock rose with write enable high. */
  datatype Input = Input(addr: nat, data: seq<Octet>, write: bool)

  // ---- A plain byte array ----

  predicate InRange(mem: seq<Octet>, addr: nat, width: nat) {
    addr + width <= |mem|
  }

  /** The word at an address; zero when it does not fit. */
  function ReadWord(mem: seq<Octet>, addr: nat, width: nat): seq<Octet> {
    if InRange(mem, addr, width) then mem[addr..addr + width] else Zeros(width)
  }

  function Zeros(n: nat): seq<Octet> {
    seq(n, i => 0)
  }

  function WriteWord(mem: seq<Octet>, addr: nat, data: seq<Octet>): (after: seq<Octet>)
    ensures |after| == |mem|
  {
    if InRange(mem, addr, |data|) then mem[..addr] + data + mem[addr + |data|..] else mem
  }

  function Apply(mem: seq<Octet>, input: Input): (after: seq<Octet>)
    ensures |after| == |mem|
  {
    if input.write then WriteWord(mem, input.addr, input.data) else mem
  }

  /** The array after the writes sampled in a run, in order. */
  function WriteAll(mem: seq<Octet>, run: seq<Input>): (after: seq<Octet>)
    ensures |after| == |mem|
  {
    if run == [] then mem else Apply(WriteAll(mem, run[..|run| - 1]), run[|run| - 1])
  }

  ghost predicate Overlaps(a: nat, b: nat, width: nat) {
    a < b + width && b < a + width
  }

  /** No write of the run touches the word at the address. */
  ghost predicate Untouched(mem: seq<Octet>, run: seq<Input>, addr: nat, width: nat) {
    forall k :: 0 <= k < |run| && run[k].write && InRange(mem, run[k].addr, width) ==> !Overlaps(run[k].addr, addr, width)
  }

  ghost predicate WidthsOk(run: seq<Input>, width: nat) {
    forall k :: 0 <= k < |run| ==> |run[k].data| == width
  }

  lemma WriteElsewhere(mem: seq<Octet>, at: nat, data: seq<Octet>, addr: nat)
    requires !InRange(mem, at, |data|) || !Overlaps(at, addr, |data|)
    ensures ReadWord(WriteWord(mem, at, data), addr, |data|) == ReadWord(mem, addr, |data|)
  {
    if InRange(mem, at, |data|) && InRange(mem, addr, |data|) {
      assert WriteWord(mem, at, data)[addr..addr + |data|] == mem[addr..addr + |data|];
    }
  }

  /** A word no write touches keeps its value. */
  lemma {:induction false} UntouchedStays(mem: seq<Octet>, run: seq<Input>, addr: nat, width: nat)
    requires WidthsOk(run, width) && Untouched(mem, run, addr, width)
    ensures ReadWord(WriteAll(mem, run), addr, width) == ReadWord(mem, addr, width)
  {
    if run != [] {
      var init, last := run[..|run| - 1], run[|run| - 1];
      UntouchedStays(mem, init, addr, width);
      if last.write {
        WriteElsewhere(WriteAll(mem, init), last.addr, last.data, addr);
      }
    }
  }

  lemma {:induction false} WriteAllAppend(mem: seq<Octet>, run: seq<Input>, more: seq<Input>)
    ensures WriteAll(mem, run + more) == WriteAll(WriteAll(mem, run), more)
  {
    if more == [] {
      assert run + more == run;
    } else {
      WriteAllAppend(mem, run, more[..|more| - 1]);
      assert (run + more)[..|run + more| - 1] == run + more[..|more| - 1];
    }
  }

  /** The latest write to an address is what is read there. */
  lemma LatestWriteIsRead(mem: seq<Octet>, run: seq<Input>, k: nat, width: nat)
    requires k < |run| && run[k].write && WidthsOk(run, width) && InRange(mem, run[k].addr, width)
    requires Untouched(mem, run[k + 1..], run[k].addr, width)
    ensures ReadWord(WriteAll(mem, run), run[k].addr, width) == run[k].data
  {
    var before, after := run[..k + 1], run[k + 1..];
    assert run == before + after && before[..k] == run[..k];
    WriteAllAppend(mem, before, after);
    UntouchedStays(WriteAll(mem, before), after, run[k].addr, width);
    var m := WriteAll(mem, run[..k]);
    assert WriteAll(mem, before) == WriteWord(m, run[k].addr, run[k].data);
    assert WriteWord(m, run[k].addr, run[k].data)[run[k].addr..run[k].addr + width] == run[k].data;
  }

  /** Ticks without a write change nothing. */
  lemma {:induction false} IdleChangesNothing(mem: seq<Octet>, run: seq<Input>)
    requires forall k :: 0 <= k < |run| ==> !run[k].write
    ensures WriteAll(mem, run) == mem
  {
    if run != [] {
      IdleChangesNothing(mem, run[..|run| - 1]);
    }
  }

  // ---- The pipelines ----

  /** The address presented in a tick; zero before the first. */
  function AddrAt(run: seq<Input>, tick: int): nat {
    if 0 <= tick < |run| then run[tick].addr else 0
  }

  predicate WriteAt(run: seq<Input>, tick: int) {
    0 <= tick < |run| && run[tick].write
  }

  /** The writes that have reached the array after a run: those sampled at least the write latency ago. */
  function Committed(run: seq<Input>, latency: nat): seq<Input> {
    if |run| <= latency then [] else run[..|run| - latency]
  }

  /** Once the write latency has passed without further writes, the array holds every write of the run. */
  lemma DrainedHoldsEverything(mem: seq<Octet>, run: seq<Input>, idle: seq<Input>, latency: nat)
    requires |idle| >= latency && forall k :: 0 <= k < |idle| ==> !idle[k].write
    ensures WriteAll(mem, Committed(run + idle, latency)) == WriteAll(mem, run)
  {
    var rest := idle[..|idle| - latency];
    assert Committed(run + idle, latency) == run + rest;
    WriteAllAppend(mem, run, rest);
    IdleChangesNothing(WriteAll(mem, run), rest);
  }

  /** A pipeline stage holds the write request of the tick, if there was one. */
  predicate Holds(run: seq<Input>, tick: int, pend: bool, addr: nat, data: seq<Octet>) {
    (pend <==> WriteAt(run, tick)) && (pend ==> addr == run[tick].addr && data == run[tick].data)
  }

  /** Later inputs do not change what was requested. */
  lemma HoldsOn(run: seq<Input>, input: Input, tick: int, pend: bool, addr: nat, data: seq<Octet>)
    requires Holds(run, tick, pend, addr, data) && tick < |run|
    ensures Holds(run + [input], tick, pend, addr, data)
  {
  }

  // ---- Bytes, and when a write shows ----

  /** The tick writes byte x of an array of the given size. */
  predicate Covers(input: Input, size: nat, x: nat) {
    input.write && input.addr + |input.data| <= size && input.addr <= x < input.addr + |input.data|
  }

  lemma {:induction false} ByteKept(mem: seq<Octet>, run: seq<Input>, x: nat)
    requires x < |mem| && forall k :: 0 <= k < |run| ==> !Covers(run[k], |mem|, x)
    ensures WriteAll(mem, run)[x] == mem[x]
  {
    if run != [] {
      ByteKept(mem, run[..|run| - 1], x);
    }
  }

  lemma {:induction false} ByteWritten(mem: seq<Octet>, run: seq<Input>, k: nat, x: nat)
    requires x < |mem| && k < |run| && Covers(run[k], |mem|, x)
    requires forall l :: k < l < |run| ==> !Covers(run[l], |mem|, x)
    ensures WriteAll(mem, run)[x] == run[k].data[x - run[k].addr]
  {
    var init := run[..|run| - 1];
    if k < |init| {
      ByteWritten(mem, init, k, x);
    }
  }

  /** What reaches the array are the ticks more than the latency ago. */
  lemma CommittedIs(run: seq<Input>, latency: nat, t: nat)
    ensures t < |Committed(run, latency)| <==> t + latency < |run|
    ensures t < |Committed(run, latency)| ==> Committed(run, latency)[t] == run[t]
  {
  }

  /** Main result: byte i of the word read at addr is that of the latest write, among those sampled more than the write
      latency ago, that covers it, and zero if none does or the word does not fit. */
  lemma ReadSees(capacity: nat, run: seq<Input>, latency: nat, addr: nat, width: nat, i: nat)
    requires i < width
    ensures |ReadWord(WriteAll(Zeros(capacity), Committed(run, latency)), addr, width)| == width
    ensures addr + width > capacity ==> ReadWord(WriteAll(Zeros(capacity), Committed(run, latency)), addr, width)[i] == 0
    ensures forall t :: addr + width <= capacity && 0 <= t && t + latency < |run| && Covers(run[t], capacity, addr + i) &&
                        (forall l :: t < l && l + latency < |run| ==> !Covers(run[l], capacity, addr + i)) ==>
      ReadWord(WriteAll(Zeros(capacity), Committed(run, latency)), addr, width)[i] == run[t].data[addr + i - run[t].addr]
    ensures (forall l :: 0 <= l && l + latency < |run| ==> !Covers(run[l], capacity, addr + i)) ==>
      ReadWord(WriteAll(Zeros(capacity), Committed(run, latency)), addr, width)[i] == 0
  {
    var zeros, c := Zeros(capacity), Committed(run, latency);
    forall t: nat ensures (t < |c| <==> t + latency < |run|) && (t < |c| ==> c[t] == run[t]) {
      CommittedIs(run, latency, t);
    }
    if addr + width <= capacity {
      var x := addr + i;
      hide Committed, WriteAll;
      forall t | 0 <= t && t + latency < |run| && Covers(run[t], capacity, x) &&
                 (forall l :: t < l && l + latency < |run| ==> !Covers(run[l], capacity, x))
        ensures WriteAll(zeros, c)[x] == run[t].data[x - run[t].addr]
      {
        ByteWritten(zeros, c, t, x);
      }
      if forall l :: 0 <= l && l + latency < |run| ==> !Covers(run[l], capacity, x) {
        ByteKept(zeros, c, x);
      }
    }
  }

  class Memory {
    const width: nat
    const readLatency: nat
    const writeLatency: nat
    const mem: array<Octet>
    const rdAddr: array<nat>
    const wrAddr: array<nat>
    const wrData: array<seq<Octet>>
    const wrPend: array<bool>
    ghost const mem0: seq<Octet>
    ghost var run: seq<Input>

    ghost predicate Shape()
      reads this
    {
      && rdAddr != wrAddr && (mem as object) != wrPend && (mem as object) != wrData && (mem as object) != wrAddr
      && (mem as object) != rdAddr && (rdAddr as object) != wrPend && (rdAddr as object) != wrData
      && (wrAddr as object) != wrPend && (wrAddr as object) != wrData && (wrData as object) != wrPend
      && rdAddr.Length == readLatency + 1 && |mem0| == mem.Length && WidthsOk(run, width)
      && wrAddr.Length == writeLatency + 1 && wrData.Length == writeLatency + 1 && wrPend.Length == writeLatency + 1
    }

    ghost predicate Valid()
      reads this, mem, rdAddr, wrAddr, wrData, wrPend
    {
      && Shape()
      && mem[..] == WriteAll(mem0, Committed(run, writeLatency))
      && (forall i :: 0 <= i <= readLatency ==> rdAddr[i] == AddrAt(run, |run| - 1 - i))
      && (forall i :: 1 <= i <= writeLatency ==> Stage(i))
      && (writeLatency == 0 ==> !wrPend[0])
    }

    /** Write stage i holds the request of i ticks ago. */
    ghost predicate Stage(i: nat)
      requires Shape() && i <= writeLatency
      reads this, wrAddr, wrData, wrPend
    {
      Holds(run, |run| - i, wrPend[i], wrAddr[i], wrData[i])
    }

    constructor (width: nat, readLatency: nat, writeLatency: nat, capacity: nat)
      ensures Valid() && run == [] && mem0 == Zeros(capacity)
      ensures this.width == width && this.readLatency == readLatency && this.writeLatency == writeLatency
    {
      this.width, this.readLatency, this.writeLatency := width, readLatency, writeLatency;
      mem := new Octet[capacity](i => 0);
      rdAddr := new nat[readLatency + 1](i => 0);
      wrAddr := new nat[writeLatency + 1](i => 0);
      wrData := new seq<Octet>[writeLatency + 1](i => []);
      wrPend := new bool[writeLatency + 1](i => false);
      mem0 := Zeros(capacity);
      run := [];
    }

    method ShiftReads(addr: nat)
      requires Shape()
      modifies rdAddr
      ensures rdAddr[0] == addr && forall i :: 1 <= i <= readLatency ==> rdAddr[i] == old(rdAddr[i - 1])
    {
      var i := readLatency;
      while i > 0
        invariant 0 <= i <= readLatency
        invariant forall k :: i < k <= readLatency ==> rdAddr[k] == old(rdAddr[k - 1])
        invariant forall k :: 0 <= k <= i ==> rdAddr[k] == old(rdAddr[k])
      {
        rdAddr[i] := rdAddr[i - 1];
        i := i - 1;
      }
      rdAddr[0] := addr;
    }

    /** Copy a word into the array, unless it does not fit. */
    method Store(addr: nat, data: seq<Octet>)
      modifies mem
      ensures mem[..] == WriteWord(old(mem[..]), addr, data)
      ensures forall x :: 0 <= x < mem.Length ==>
        mem[x] == if addr + |data| <= mem.Length && addr <= x < addr + |data| then data[x - addr] else old(mem[x])
    {
      if addr + |data| <= mem.Length {
        var j := 0;
        while j < |data|
          invariant j <= |data|
          invariant forall x :: 0 <= x < mem.Length ==> mem[x] == if addr <= x < addr + j then data[x - addr] else old(mem[x])
        {
          mem[addr + j] := data[j];
          j := j + 1;
        }
        assert mem[..] == old(mem[..addr]) + data + old(mem[addr + |data|..]);
      }
    }

    method Sample(input: Input)
      requires Shape()
      modifies wrAddr, wrData, wrPend
      ensures wrPend[0] == input.write && (input.write ==> wrAddr[0] == input.addr && wrData[0] == input.data)
      ensures forall i :: 1 <= i <= writeLatency ==>
        wrAddr[i] == old(wrAddr[i]) && wrData[i] == old(wrData[i]) && wrPend[i] == old(wrPend[i])
    {
      wrPend[0] := false;
      if input.write {
        wrAddr[0], wrData[0], wrPend[0] := input.addr, input.data, true;
      }
    }

    /** The request in the last stage goes to the array. */
    method Commit()
      requires Shape()
      modifies mem, wrPend
      ensures forall i :: 0 <= i < writeLatency ==> wrPend[i] == old(wrPend[i])
      ensures mem[..] == if old(wrPend[writeLatency]) then WriteWord(old(mem[..]), wrAddr[writeLatency], wrData[writeLatency])
                         else old(mem[..])
    {
      if wrPend[writeLatency] {
        Store(wrAddr[writeLatency], wrData[writeLatency]);
        wrPend[writeLatency] := false;
      }
    }

    method ShiftWrites()
      requires Shape()
      modifies wrAddr, wrData, wrPend
      ensures wrAddr[0] == old(wrAddr[0]) && wrData[0] == old(wrData[0]) && wrPend[0] == old(wrPend[0])
      ensures forall i :: 1 <= i <= writeLatency ==>
        wrAddr[i] == old(wrAddr[i - 1]) && wrData[i] == old(wrData[i - 1]) && wrPend[i] == old(wrPend[i - 1])
    {
      var i := writeLatency;
      while i > 0
        invariant 0 <= i <= writeLatency
        invariant forall k :: i < k <= writeLatency ==>
          wrAddr[k] == old(wrAddr[k - 1]) && wrData[k] == old(wrData[k - 1]) && wrPend[k] == old(wrPend[k - 1])
        invariant forall k :: 0 <= k <= i ==>
          wrAddr[k] == old(wrAddr[k]) && wrData[k] == old(wrData[k]) && wrPend[k] == old(wrPend[k])
      {
        wrAddr[i], wrData[i], wrPend[i] := wrAddr[i - 1], wrData[i - 1], wrPend[i - 1];
        i := i - 1;
      }
    }

    /** The word at the last stage of the read pipeline. */
    method ReadOut() returns (dout: seq<Octet>)
      requires Shape()
      ensures dout == ReadWord(mem[..], rdAddr[readLatency], width)
    {
      var ra := rdAddr[readLatency];
      if ra + width <= mem.Length {
        dout := mem[ra..ra + width];
      } else {
        dout := Zeros(width);
      }
    }

    method AnyPending() returns (busy: bool)
      ensures busy <==> exists i :: 0 <= i < wrPend.Length && wrPend[i]
    {
      var i := 0;
      while i < wrPend.Length
        invariant i <= wrPend.Length && forall k :: 0 <= k < i ==> !wrPend[k]
      {
        if wrPend[i] {
          return true;
        }
        i := i + 1;
      }
      return false;
    }

    /** Sample, commit and shift the write pipeline. */
    method WriteStep(input: Input)
      requires Shape() && writeLatency > 0 && |input.data| == width && mem[..] == WriteAll(mem0, Committed(run, writeLatency))
      requires forall i :: 1 <= i <= writeLatency ==> Stage(i)
      modifies this`run, mem, wrAddr, wrData, wrPend
      ensures Shape() && run == old(run) + [input] && mem[..] == WriteAll(mem0, Committed(run, writeLatency))
      ensures forall i :: 1 <= i <= writeLatency ==> Stage(i)
      ensures wrPend[0] == input.write
    {
      hide WriteAll, WriteWord, Committed;
      CommittedNext(mem0, run, input, writeLatency);
      assert Stage(writeLatency);
      Sample(input);
      Commit();
      ShiftWrites();
      run := run + [input];
      forall i | 1 <= i <= writeLatency ensures Stage(i) {
        if i > 1 {
          assert old(Stage(i - 1));
          HoldsOn(old(run), input, |old(run)| - (i - 1), wrPend[i], wrAddr[i], wrData[i]);
        }
      }
    }

    /** One tick. The word read is that of the address presented readLatency ticks ago, in the array that holds exactly
        the writes sampled more than writeLatency ticks ago; busy tells that a later write is still pending. */
    method Tick(input: Input) returns (dout: seq<Octet>, busy: bool)
      requires Valid() && |input.data| == width
      modifies this`run, mem, rdAddr, wrAddr, wrData, wrPend
      ensures Valid() && run == old(run) + [input]
      ensures dout == ReadWord(WriteAll(mem0, Committed(old(run), writeLatency)), AddrAt(run, |old(run)| - readLatency), width)
      ensures busy <==> exists t :: |old(run)| - writeLatency < t <= |old(run)| && WriteAt(run, t)
    {
      hide WriteAll, WriteWord, Committed, ReadWord;
      ShiftReads(input.addr);
      assert rdAddr[readLatency] == AddrAt(run + [input], |run| - readLatency);
      dout := ReadOut();
      WritePhase(input);
      busy := AnyPending();
      BusyIs();
    }

    /** The write pipeline, or the direct write when there is no latency. */
    method WritePhase(input: Input)
      requires Shape() && |input.data| == width && mem[..] == WriteAll(mem0, Committed(run, writeLatency))
      requires (forall i :: 1 <= i <= writeLatency ==> Stage(i)) && (writeLatency == 0 ==> !wrPend[0])
      modifies this`run, mem, wrAddr, wrData, wrPend
      ensures Shape() && run == old(run) + [input] && mem[..] == WriteAll(mem0, Committed(run, writeLatency))
      ensures forall i :: 1 <= i <= writeLatency ==> Stage(i)
      ensures wrPend[0] == (writeLatency > 0 && input.write)
    {
      if writeLatency > 0 {
        WriteStep(input);
      } else {
        hide WriteAll, WriteWord, Committed;
        CommittedNext(mem0, run, input, 0);
        if input.write {
          Store(input.addr, input.data);
        }
        run := run + [input];
      }
    }

    lemma BusyIs()
      requires Shape() && |run| > 0 && (writeLatency == 0 ==> !wrPend[0])
      requires forall i :: 1 <= i <= writeLatency ==> Stage(i)
      requires writeLatency > 0 ==> (wrPend[0] <==> WriteAt(run, |run| - 1))
      ensures (exists i :: 0 <= i < wrPend.Length && wrPend[i]) <==>
              (exists t :: |run| - 1 - writeLatency < t <= |run| - 1 && WriteAt(run, t))
    {
      if i :| 0 <= i < wrPend.Length && wrPend[i] {
        if i > 0 { assert Stage(i); }
        assert WriteAt(run, if i == 0 then |run| - 1 else |run| - i);
      }
      if t :| |run| - 1 - writeLatency < t <= |run| - 1 && WriteAt(run, t) {
        assert Stage(|run| - t);
        assert wrPend[|run| - t];
      }
    }
  }

  /** What one more tick commits: the request sampled latency ticks before it, if that is a write. */
  lemma CommittedNext(mem0: seq<Octet>, run: seq<Input>, input: Input, latency: nat)
    ensures var t := |run| - latency;
      WriteAll(mem0, Committed(run + [input], latency)) ==
      if t < 0 then WriteAll(mem0, Committed(run, latency))
      else Apply(WriteAll(mem0, Committed(run, latency)), (run + [input])[t])
  {
    var t := |run| - latency;
    if t >= 0 {
      var all := run + [input];
      var c := Committed(all, latency);
      assert c == all[..t + 1];
      assert c[..|c| - 1] == Committed(run, latency);
    }
  }
}
