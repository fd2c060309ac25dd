/** The transport-stream handler of saa7231_dvb.c over the page-table slots of
    saa7231_ts2dtl.c. */
module TsStream {
  import opened Arithmetic
  import opened Basics
  import opened Ring
  import opened MmuRegisters

  const RINGSIZ: nat := 16

  /** What one stream keeps between interrupts; slots hold buffer numbers. */
  datatype Pipe = Pipe(ring: RingState, indexW: nat, slots: seq<nat>) {
    predicate Shaped() {
      ring.size == RINGSIZ && ring.head < RINGSIZ && ring.tail < RINGSIZ &&
      |slots| == SLOTS && forall i :: 0 <= i < SLOTS ==> slots[i] < RINGSIZ
    }
  }

  const FIRST_BUFFERS: seq<nat> := [0, 1, 2, 3, 4, 5, 6, 7]

  /** saa7231_init_ptables: the slots restart at buffers 0..7, the write index
      moves past the last slot, and the ring is not touched. */
  function ResetSlots(p: Pipe): Pipe { p.(slots := FIRST_BUFFERS, indexW := p.indexW + 8) }

  /** The slot the next handler call refills. */
  function NextSlot(p: Pipe): nat { if p.indexW > SLOTS - 1 then 0 else p.indexW }

  /** One interrupt: refill a slot from the ring, then hand a buffer on. */
  function Handle(p: Pipe): (Pipe, Option<nat>)
    requires p.Shaped()
  {
    var q :=
      if p.ring.Full() then p
      else Pipe(p.ring.Written(), NextSlot(p) + 1, p.slots[NextSlot(p) := p.ring.tail]);
    if q.ring.Empty() then (q, None)
    else (q.(ring := q.ring.Consumed()), Some(q.ring.head))
  }

  /** The register writes of one interrupt; they depend on the stream alone. */
  function HandlerWrites(p: Pipe, ch: nat, tables: seq<nat>): (ws: seq<MmuWrite>)
    requires p.Shaped() && |tables| == RINGSIZ
  {
    if p.ring.Full() then [] else SlotPair(ch, NextSlot(p), tables[p.ring.tail])
  }

  /** The register writes of saa7231_init_ptables, up to slot n. */
  function InitWrites(ch: nat, tables: seq<nat>, n: nat): seq<MmuWrite>
    requires n <= SLOTS <= |tables|
  {
    if n == 0 then [ConfigWrite(ch, SLOTS - 1)] else InitWrites(ch, tables, n - 1) + SlotPair(ch, n - 1, tables[n - 1])
  }

  // ---------------------------------------------------------------------
  // The slot registers of a port

  /** From port 223 on the configuration register would run into the slots. */
  const PORTS: nat := 223

  /** The two registers of a port's slot hold the halves of a table address. */
  predicate SlotHolds(r: Registers, port: nat, slot: nat, base: nat) {
    Reg(r, 0x440 + 0x40 * port + 8 * slot) == base % 0x1_0000_0000 &&
    Reg(r, 0x444 + 0x40 * port + 8 * slot) == base / 0x1_0000_0000
  }

  ghost predicate MappedBy(r: Registers, port: nat, tables: seq<nat>, slots: seq<nat>) {
    |tables| == RINGSIZ && |slots| == SLOTS &&
    forall i :: 0 <= i < SLOTS ==> slots[i] < RINGSIZ && SlotHolds(r, port, i, tables[slots[i]])
  }

  /** No other port's slot has moved. */
  ghost predicate OthersKept(r: Registers, r': Registers, port: nat) {
    forall p, i, base :: 0 <= p < PORTS && p != port && 0 <= i < SLOTS ==>
      (SlotHolds(r', p, i, base) <==> SlotHolds(r, p, i, base))
  }

  lemma OthersKeptTwice(r: Registers, r': Registers, r'': Registers, port: nat)
    requires OthersKept(r, r', port) && OthersKept(r', r'', port)
    ensures OthersKept(r, r'', port)
  {
  }

  /** So what a stream on another port has mapped stays mapped. */
  lemma MappedKept(r: Registers, r': Registers, port: nat, other: nat, tables: seq<nat>, slots: seq<nat>)
    requires OthersKept(r, r', port) && other != port && other < PORTS && MappedBy(r, other, tables, slots)
    ensures MappedBy(r', other, tables, slots)
  {
  }

  lemma HoldsAfterPair(r: Registers, port: nat, slot: nat, base: nat, p: nat, i: nat, b: nat)
    requires slot < SLOTS && i < SLOTS
    ensures var r' := ApplyAll(r, SlotPair(DmaChannel(port), slot, base));
      if p == port && i == slot then SlotHolds(r', p, i, base) else SlotHolds(r', p, i, b) <==> SlotHolds(r, p, i, b)
  {
    ApplyPair(r, DmaChannel(port), slot, base);
    if p != port || i != slot {
      SlotsDiffer(port, slot, p, i);
    }
  }

  lemma SlotsDiffer(port: nat, slot: nat, p: nat, i: nat)
    requires slot < SLOTS && i < SLOTS && (p != port || i != slot)
    ensures 0x40 * p + 8 * i != 0x40 * port + 8 * slot
  {
  }

  lemma PairKeeps(r: Registers, port: nat, slot: nat, base: nat)
    requires slot < SLOTS
    ensures var r' := ApplyAll(r, SlotPair(DmaChannel(port), slot, base));
      SlotHolds(r', port, slot, base) && OthersKept(r, r', port) &&
      forall i, b :: 0 <= i < SLOTS && i != slot ==> (SlotHolds(r', port, i, b) <==> SlotHolds(r, port, i, b))
  {
    var r' := ApplyAll(r, SlotPair(DmaChannel(port), slot, base));
    HoldsAfterPair(r, port, slot, base, port, slot, base);
    forall p, i, b | 0 <= p && 0 <= i < SLOTS && (p != port || i != slot)
      ensures SlotHolds(r', p, i, b) <==> SlotHolds(r, p, i, b)
    {
      HoldsAfterPair(r, port, slot, base, p, i, b);
    }
  }

  lemma ConfigKeeps(r: Registers, port: nat, value: nat)
    requires port < PORTS
    ensures ApplyAll(r, [ConfigWrite(DmaChannel(port), value)]) == r[0x84 + 4 * port := value]
    ensures OthersKept(r, r[0x84 + 4 * port := value], port)
  {
    var w := ConfigWrite(DmaChannel(port), value);
    assert ApplyAll(r, [w]) == ApplyAll(Apply(r, w), []);
  }

  /** Interrupts of adapters on two ports may interleave at any register write:
      each port's slots end as its own handler leaves them. */
  lemma InterruptsApart(r: Registers, ws: seq<MmuWrite>, p: Pipe, port: nat, tables: seq<nat>,
                        p': Pipe, port': nat, tables': seq<nat>)
    requires p.Shaped() && p'.Shaped() && |tables| == |tables'| == RINGSIZ
    requires port < PORTS && port' < PORTS && port != port'
    requires Interleaves(ws, HandlerWrites(p, DmaChannel(port), tables), HandlerWrites(p', DmaChannel(port'), tables'))
    ensures SamePort(ApplyAll(r, ws), ApplyAll(r, HandlerWrites(p, DmaChannel(port), tables)), port)
    ensures SamePort(ApplyAll(r, ws), ApplyAll(r, HandlerWrites(p', DmaChannel(port'), tables')), port')
  {
    var own, other := HandlerWrites(p, DmaChannel(port), tables), HandlerWrites(p', DmaChannel(port'), tables');
    HandlersApart(r, ws, own, other, DmaChannel(port), DmaChannel(port'));
    SameHolds(ApplyAll(r, ws), ApplyAll(r, own), port);
    SameHolds(ApplyAll(r, ws), ApplyAll(r, other), port');
  }

  ghost predicate SamePort(r: Registers, r': Registers, port: nat) {
    forall i, b :: 0 <= i < SLOTS ==> (SlotHolds(r, port, i, b) <==> SlotHolds(r', port, i, b))
  }

  lemma SameHolds(r: Registers, r': Registers, port: nat)
    requires SameSlots(r, r', DmaChannel(port))
    ensures SamePort(r, r', port)
  {
    forall i, b | 0 <= i < SLOTS
      ensures SlotHolds(r, port, i, b) <==> SlotHolds(r', port, i, b)
    {
      assert SameSlot(r, r', DmaChannel(port), i);
    }
  }

  class Mmu {
    var regs: Registers

    constructor ()
      ensures regs == map[]
    {
      regs := map[];
    }

    method Write(address: nat, value: nat)
      modifies this
      ensures regs == old(regs)[address := value]
    {
      regs := regs[address := value];
    }
  }

  class Stream {
    const ring: BufferRing
    const mmu: Mmu
    const port: nat
    /** Bus address of each buffer's page table (pt_phys). */
    const tables: seq<nat>
    var indexW: nat
    var clockRun: bool
    var streamRun: bool
    /** Which buffer each slot register points at. */
    ghost var slots: seq<nat>

    function Channel(): nat { DmaChannel(port) }

    ghost function State(): Pipe
      reads this, ring
    {
      Pipe(ring.State(), indexW, slots)
    }

    /** The slot registers hold the page tables of the recorded buffers. */
    ghost predicate Mapped()
      reads this, mmu
    {
      port < PORTS && MappedBy(mmu.regs, port, tables, slots)
    }

    ghost predicate Valid()
      reads this, ring, mmu
    {
      State().Shaped() && Mapped()
    }

    /** saa7231_ts2dtl_init from the point where the buffers exist. */
    constructor (port: nat, tables: seq<nat>, mmu: Mmu)
      requires |tables| == RINGSIZ
      requires 8 <= port <= 12
      modifies mmu
      ensures Valid() && fresh(ring) && this.mmu == mmu && this.tables == tables && this.port == port
      ensures State() == ResetSlots(Pipe(Fresh(RINGSIZ), 0, FIRST_BUFFERS))
      ensures !clockRun && !streamRun && OthersKept(old(mmu.regs), mmu.regs, port)
    {
      this.ring := new BufferRing(RINGSIZ);
      this.mmu, this.port, this.tables := mmu, port, tables;
      indexW, clockRun, streamRun := 0, false, false;
      slots := FIRST_BUFFERS;
      new;
      InitPtables();
    }

    /** saa7231_init_ptables, through the named register macros. */
    method InitPtables()
      requires |tables| == RINGSIZ && port < PORTS
      modifies this`indexW, this`slots, mmu
      ensures State() == ResetSlots(old(State())) && Mapped() && Reg(mmu.regs, 0x84 + 4 * port) == 7
      ensures mmu.regs == ApplyAll(old(mmu.regs), InitWrites(Channel(), tables, SLOTS))
      ensures OthersKept(old(mmu.regs), mmu.regs, port)
    {
      var ch := Channel();
      mmu.Write(DmaConfig(ch), SLOTS - 1);
      ConfigKeeps(old(mmu.regs), port, SLOTS - 1);
      var i := 0;
      while i < SLOTS
        invariant 0 <= i <= SLOTS && indexW == old(indexW)
        invariant mmu.regs == ApplyAll(old(mmu.regs), InitWrites(ch, tables, i))
        invariant Reg(mmu.regs, 0x84 + 4 * port) == 7
        invariant forall j :: 0 <= j < i ==> SlotHolds(mmu.regs, port, j, tables[j])
        invariant OthersKept(old(mmu.regs), mmu.regs, port)
      {
        ApplyTwoLists(old(mmu.regs), InitWrites(ch, tables, i), SlotPair(ch, i, tables[i]));
        ghost var before := mmu.regs;
        InitSlot(i);
        OthersKeptTwice(old(mmu.regs), before, mmu.regs, port);
        i := i + 1;
      }
      slots := FIRST_BUFFERS;
      indexW := indexW + 8;
    }

    /** The two writes of one slot. */
    method InitSlot(i: nat)
      requires i < SLOTS <= |tables| && port < PORTS
      modifies mmu
      ensures mmu.regs == ApplyAll(old(mmu.regs), SlotPair(Channel(), i, tables[i]))
      ensures SlotHolds(mmu.regs, port, i, tables[i]) && OthersKept(old(mmu.regs), mmu.regs, port)
      ensures forall j, b :: 0 <= j < SLOTS && j != i ==>
        (SlotHolds(mmu.regs, port, j, b) <==> SlotHolds(old(mmu.regs), port, j, b))
      ensures Reg(mmu.regs, 0x84 + 4 * port) == old(Reg(mmu.regs, 0x84 + 4 * port))
    {
      var ch := Channel();
      NamedMacrosAgree(Lsb, i, ch);
      NamedMacrosAgree(Msb, i, ch);
      mmu.Write(MmuPtaNamed(Lsb, i, ch), tables[i] % U32);
      mmu.Write(MmuPtaNamed(Msb, i, ch), tables[i] / U32);
      ApplyPair(old(mmu.regs), ch, i, tables[i]);
      PairKeeps(old(mmu.regs), port, i, tables[i]);
    }

    /** saa7231_ts2dtl_set_buffer: an index above 7 is refused. */
    method SetBuffer(index: nat, buffer: nat) returns (ok: bool)
      requires Mapped() && buffer < RINGSIZ
      modifies mmu, this`slots
      ensures ok == (index < SLOTS) && Mapped()
      ensures slots == if ok then old(slots)[index := buffer] else old(slots)
      ensures mmu.regs ==
        if ok then ApplyAll(old(mmu.regs), SlotPair(Channel(), index, tables[buffer])) else old(mmu.regs)
      ensures OthersKept(old(mmu.regs), mmu.regs, port)
    {
      ok := index < SLOTS;
      if ok {
        mmu.Write(MmuPta(Lsb, index, Channel()), tables[buffer] % U32);
        mmu.Write(MmuPta(Msb, index, Channel()), tables[buffer] / U32);
        ApplyPair(old(mmu.regs), Channel(), index, tables[buffer]);
        PairKeeps(old(mmu.regs), port, index, tables[buffer]);
        slots := slots[index := buffer];
      }
    }

    /** saa7231_dvbts2d0_evhandler and saa7231_dvbts2d1_evhandler, for one
        stream: the buffer given to the demultiplexer, if any. */
    method EventHandler() returns (delivered: Option<nat>)
      requires Valid()
      modifies this`indexW, this`slots, ring, mmu
      ensures Valid()
      ensures (State(), delivered) == Handle(old(State()))
      ensures mmu.regs == ApplyAll(old(mmu.regs), HandlerWrites(old(State()), Channel(), tables))
      ensures OthersKept(old(mmu.regs), mmu.regs, port)
    {
      if ring.count < ring.size {
        var buffer := ring.Write();
        if indexW > SLOTS - 1 {
          indexW := 0;
        }
        var _ := SetBuffer(indexW, buffer);
        indexW := indexW + 1;
      }
      delivered := None;
      if ring.count != 0 {
        var buffer := ring.Read();
        delivered := Some(buffer);
      }
    }

    /** saa7231_ts2dtl_acquire: whatever fails inside, the result is 0; the
        slots are reset exactly when the parameters are usable and the clocks
        were running or could be activated, and whether the page-table preload
        succeeds is lost. */
    method Acquire(paramsOk: bool, clocksOk: bool, preloadOk: bool) returns (ret: int)
      requires Valid()
      modifies this`indexW, this`slots, this`clockRun, mmu
      ensures Valid() && ret == 0
      ensures clockRun == (old(clockRun) || (paramsOk && clocksOk))
      ensures State() == if paramsOk && clockRun then ResetSlots(old(State())) else old(State())
      ensures OthersKept(old(mmu.regs), mmu.regs, port)
    {
      if !paramsOk {
        ret := EINVAL;
        return 0;
      }
      if !clockRun {
        if !clocksOk {
          ret := EINVAL;
          return 0;
        }
        clockRun := true;
      }
      InitPtables();
      if !preloadOk {
        ret := EINVAL;
      }
      return 0;
    }

    /** saa7231_ts2dtl_run */
    method Start() returns (ret: int)
      modifies this`streamRun
      ensures ret == 0 && streamRun
    {
      streamRun := true;
      ret := 0;
    }

    /** saa7231_ts2dtl_stop: only forgets that the clocks run. */
    method Stop() returns (ret: int)
      modifies this`clockRun
      ensures ret == 0 && !clockRun
    {
      clockRun := false;
      ret := 0;
    }
  }

  /** Two streams on one MMU, each interrupted once. */
  method BothInterrupts(a: Stream, b: Stream) returns (x: Option<nat>, y: Option<nat>)
    requires a.Valid() && b.Valid() && a.mmu == b.mmu && a.port != b.port && a != b && a.ring != b.ring
    modifies a, b, a.ring, b.ring, a.mmu
    ensures a.Valid() && b.Valid()
    ensures (a.State(), x) == Handle(old(a.State())) && (b.State(), y) == Handle(old(b.State()))
  {
    ghost var r := a.mmu.regs;
    x := a.EventHandler();
    MappedKept(r, a.mmu.regs, a.port, b.port, b.tables, b.slots);
    r := a.mmu.regs;
    y := b.EventHandler();
    MappedKept(r, a.mmu.regs, b.port, a.port, a.tables, a.slots);
  }

  /** A session starting on one port leaves the stream on another alone. */
  method AcquireBeside(a: Stream, b: Stream, paramsOk: bool, clocksOk: bool, preloadOk: bool)
    requires a.Valid() && b.Valid() && a.mmu == b.mmu && a.port != b.port && a != b && a.ring != b.ring
    modifies a, a.mmu
    ensures a.Valid() && b.Valid() && b.State() == old(b.State())
  {
    ghost var r := a.mmu.regs;
    var _ := a.Acquire(paramsOk, clocksOk, preloadOk);
    MappedKept(r, a.mmu.regs, a.port, b.port, b.tables, b.slots);
  }

  /** One digital adapter: saa7231_dvb_start_feed and saa7231_dvb_stop_feed. */
  class Adapter {
    const stream: Stream
    var feeds: int

    constructor (stream: Stream)
      ensures this.stream == stream && feeds == 0
    {
      this.stream := stream;
      feeds := 0;
    }

    /** Only the first feed starts a session; the result counts the feeds. */
    method StartFeed(frontend: bool, paramsOk: bool, clocksOk: bool, preloadOk: bool) returns (ret: int)
      requires stream.Valid()
      modifies this, stream, stream.mmu
      ensures stream.Valid()
      ensures !frontend ==> ret == EINVAL && feeds == old(feeds) && stream.State() == old(stream.State())
      ensures frontend ==> ret == feeds == old(feeds) + 1
      ensures stream.streamRun == (old(stream.streamRun) || (frontend && old(feeds) == 0))
      ensures stream.clockRun == (old(stream.clockRun) || (frontend && old(feeds) == 0 && paramsOk && clocksOk))
      ensures OthersKept(old(stream.mmu.regs), stream.mmu.regs, stream.port)
      ensures frontend && old(feeds) == 0 && paramsOk && (old(stream.clockRun) || clocksOk) ==>
        stream.State() == ResetSlots(old(stream.State()))
      ensures frontend && !(old(feeds) == 0 && paramsOk && (old(stream.clockRun) || clocksOk)) ==>
        stream.State() == old(stream.State())
    {
      if !frontend {
        return EINVAL;
      }
      feeds := feeds + 1;
      if feeds == 1 {
        ret := stream.Acquire(paramsOk, clocksOk, preloadOk);
        if ret >= 0 {
          ret := stream.Start();
        }
      }
      ret := feeds;
    }

    /** The last feed stops the session, which leaves slots and ring alone. */
    method StopFeed(frontend: bool) returns (ret: int)
      requires stream.Valid()
      modifies this, stream
      ensures stream.Valid() && stream.State() == old(stream.State())
      ensures !frontend ==> ret == EINVAL && feeds == old(feeds)
      ensures frontend ==> ret == 0 && feeds == old(feeds) - 1
      ensures stream.clockRun == (old(stream.clockRun) && !(frontend && feeds == 0))
    {
      if !frontend {
        return EINVAL;
      }
      feeds := feeds - 1;
      if feeds == 0 {
        ret := stream.Stop();
      }
      ret := 0;
    }
  }
}
