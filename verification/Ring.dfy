/** The buffer ring of saa7231_ring.c.  A `RingState` is the value of the C
    structure's counters; the class `BufferRing` updates them in place. */
module Ring {
  import opened Arithmetic

  datatype RingState = RingState(size: nat, head: nat, tail: nat, count: nat) {
    predicate Full() { count >= size }

    predicate Empty() { count == 0 }

    /** The counters describe `count` buffers starting at `head`. */
    predicate Sound() {
      0 < size < U32 && head < size && tail < size && count <= size &&
      tail == (head + count) % size
    }

    /** saa7231_ring_write: the tail moves even when the ring overflows. */
    function Written(): RingState
      requires size > 0
    {
      this.(tail := (tail + 1) % size, count := if count < size then count + 1 else count)
    }

    /** saa7231_ring_read: `count` is an unsigned 32-bit field and wraps. */
    function Consumed(): RingState
      requires size > 0
    {
      this.(head := (head + 1) % size, count := (count + U32 - 1) % U32)
    }
  }

  function Fresh(size: nat): RingState { RingState(size, 0, 0, 0) }

  /** A write keeps the counters sound exactly when the ring was not full,
      a ring of one buffer excepted. */
  lemma WriteSoundIff(r: RingState)
    requires r.Sound()
    ensures r.Written().Sound() <==> !r.Full() || r.size == 1
  {
    ModSuccessor(r.head + r.count, r.size);
    ModBelowTwice(r.head + r.count, r.size);
  }

  /** A read keeps the counters sound exactly when the ring was not empty. */
  lemma ReadSoundIff(r: RingState)
    requires r.Sound()
    ensures r.Consumed().Sound() <==> !r.Empty()
  {
    var r' := r.Consumed();
    ModBelowTwice(r.head + r.count, r.size);
    ModBelowTwice(r.head + 1, r.size);
    ModBelowTwice(r.count + U32 - 1, U32);
    if r'.count <= r.size {
      ModBelowTwice(r'.head + r'.count, r.size);
    }
  }

  // ---------------------------------------------------------------------
  // Runs of guarded operations against a queue

  datatype Op = Write | Read

  /** A ring together with the history of buffers it handed out. */
  datatype Trace = Trace(ring: RingState, written: seq<nat>, read: seq<nat>)

  /** One operation guarded as the event handler guards it. */
  function Perform(t: Trace, op: Op): Trace
    requires t.ring.size > 0
  {
    match op
    case Write =>
      if t.ring.Full() then t
      else Trace(t.ring.Written(), t.written + [t.ring.tail], t.read)
    case Read =>
      if t.ring.Empty() then t
      else Trace(t.ring.Consumed(), t.written, t.read + [t.ring.head])
  }

  function Run(size: nat, ops: seq<Op>): (t: Trace)
    requires size > 0
    ensures t.ring.size == size
  {
    if ops == [] then Trace(Fresh(size), [], [])
    else Perform(Run(size, ops[..|ops| - 1]), ops[|ops| - 1])
  }

  /** The bounded queue the ring stands for: what was written and not read. */
  ghost predicate Queues(t: Trace) {
    t.ring.Sound() &&
    |t.read| + t.ring.count == |t.written| &&
    t.ring.head == |t.read| % t.ring.size &&
    t.ring.tail == |t.written| % t.ring.size &&
    t.read <= t.written &&
    forall k :: 0 <= k < |t.written| ==> t.written[k] == k % t.ring.size
  }

  /** The ring refines a bounded queue: over every run of guarded operations
      the buffers read are, in order, the oldest buffers written, the writes
      walk round the buffers, and the rest is what `count` says is queued. */
  lemma {:induction false} RefinesQueue(size: nat, ops: seq<Op>)
    requires 0 < size < U32
    ensures Queues(Run(size, ops))
  {
    if ops != [] {
      RefinesQueue(size, ops[..|ops| - 1]);
      PerformQueues(Run(size, ops[..|ops| - 1]), ops[|ops| - 1]);
    } else {
      ModBelowTwice(0, size);
    }
  }

  lemma PerformQueues(t: Trace, op: Op)
    requires Queues(t)
    ensures Queues(Perform(t, op))
  {
    var t' := Perform(t, op);
    match op
    case Write =>
      WriteSoundIff(t.ring);
      ModSuccessor(|t.written|, t.ring.size);
    case Read =>
      ReadSoundIff(t.ring);
      ModSuccessor(|t.read|, t.ring.size);
      if !t.ring.Empty() {
        ModBelowTwice(t.ring.count + U32 - 1, U32);
        assert t.written[|t.read|] == t.ring.head;
      }
  }

  // ---------------------------------------------------------------------

  class BufferRing {
    const size: nat
    var head: nat
    var tail: nat
    var count: nat

    function State(): (s: RingState)
      reads this
    {
      RingState(size, head, tail, count)
    }

    constructor (size: nat)
      ensures this.size == size && State() == Fresh(size)
    {
      this.size := size;
      head, tail, count := 0, 0, 0;
    }

    /** saa7231_ring_reinit */
    method Reinit()
      modifies this
      ensures State() == Fresh(size)
    {
      head, tail, count := 0, 0, 0;
    }

    /** saa7231_ring_write returns the buffer the tail points at. */
    method Write() returns (buffer: nat)
      requires size > 0
      modifies this
      ensures buffer == old(tail) && State() == old(State()).Written()
    {
      buffer := tail;
      tail := (tail + 1) % size;
      if count < size {
        count := count + 1;
      }
    }

    /** saa7231_ring_read returns the buffer the head points at. */
    method Read() returns (buffer: nat)
      requires size > 0
      modifies this
      ensures buffer == old(head) && State() == old(State()).Consumed()
    {
      buffer := head;
      head := (head + 1) % size;
      count := (count + U32 - 1) % U32;
    }
  }
}
