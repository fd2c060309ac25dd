/** The DMA engine and the interrupt handler of one transport stream as two
    actors taking turns in any order the hardware allows.

    Environment, by name:
      - the engine fills block h through the page table it found in slot
        h mod 8 when the block began;
      - it does not begin block n + 8 before handler call n is over;
      - `strict` runs: handler call n comes after block n is complete;
        other runs: after block n has begun. */
module Pipeline {
  import opened Arithmetic
  import opened Basics
  import opened Ring
  import opened MmuRegisters
  import opened TsStream

  /** What a buffer holds: nothing yet, data of an earlier session, or a block
      of this session, in part or whole. */
  datatype Content = Never | Stale | Partial(n: nat) | Block(n: nat)

  /** One buffer given to the demultiplexer, with what it held just then and
      how many blocks were begun and completed. */
  datatype Delivery = Delivery(buffer: nat, content: Content, started: nat, done: nat)

  datatype Machine = Machine(
    pipe: Pipe,
    mem: seq<Content>,
    started: nat, done: nat, latched: nat,
    handled: nat, log: seq<Delivery>,
    base: nat, initial: seq<Content>,
    feeds: nat)
  {
    predicate Shaped() {
      pipe.Shaped() && |mem| == RINGSIZ && |initial| == RINGSIZ && latched < RINGSIZ && base < RINGSIZ
    }

    predicate Busy() { done < started }
  }

  datatype Action =
    | BeginBlock
    | CompleteBlock
    | Interrupt
    | StartFeed(acquired: bool)
    | StopFeed

  predicate Enabled(m: Machine, a: Action, strict: bool) {
    match a
    case BeginBlock => m.started == m.done && m.started < m.handled + SLOTS
    case CompleteBlock => m.Busy()
    case Interrupt => if strict then m.handled < m.done else m.handled < m.started
    case StartFeed(_) => true
    case StopFeed => m.feeds > 0
  }

  function Age(c: Content): Content { if c == Never then Never else Stale }

  function AgeAll(mem: seq<Content>): (aged: seq<Content>)
    ensures |aged| == |mem| && forall i :: 0 <= i < |mem| ==> aged[i] == Age(mem[i])
  {
    seq(|mem|, i requires 0 <= i < |mem| => Age(mem[i]))
  }

  function Apply(m: Machine, a: Action): (m': Machine)
    requires m.Shaped()
    ensures m'.Shaped()
  {
    match a
    case BeginBlock =>
      var b := m.pipe.slots[m.started % SLOTS];
      m.(started := m.started + 1, latched := b, mem := m.mem[b := Partial(m.started)])
    case CompleteBlock =>
      m.(done := m.done + 1, mem := m.mem[m.latched := Block(m.done)])
    case Interrupt =>
      var (p, d) := Handle(m.pipe);
      var entry := if d.None? then [] else [Delivery(d.value, m.mem[d.value], m.started, m.done)];
      m.(pipe := p, handled := m.handled + 1, log := m.log + entry)
    case StartFeed(acquired) =>
      if m.feeds == 0 && acquired then
        Machine(ResetSlots(m.pipe), AgeAll(m.mem), 0, 0, 0, 0, [], m.pipe.ring.head, AgeAll(m.mem), 1)
      else m.(feeds := m.feeds + 1)
    case StopFeed => m.(feeds := if m.feeds > 0 then m.feeds - 1 else 0)
  }

  /** After saa7231_ts2dtl_init. */
  function Initial(): (m: Machine)
    ensures m.Shaped()
  {
    var blank := seq(RINGSIZ, _ => Never);
    Machine(ResetSlots(Pipe(Fresh(RINGSIZ), 0, FIRST_BUFFERS)), blank, 0, 0, 0, 0, [], 0, blank, 0)
  }

  function Run(m: Machine, acts: seq<Action>): (m': Machine)
    requires m.Shaped()
    ensures m'.Shaped()
    decreases |acts|
  {
    if acts == [] then m else Run(Apply(m, acts[0]), acts[1..])
  }

  ghost predicate Allowed(m: Machine, acts: seq<Action>, strict: bool)
    requires m.Shaped()
    decreases |acts|
  {
    acts == [] ||
    (Enabled(m, acts[0], strict) && Allowed(Apply(m, acts[0]), acts[1..], strict))
  }

  // ---------------------------------------------------------------------
  // The invariant

  /** The buffer `n` places after `base` round the ring. */
  function RingAt(base: nat, n: nat): nat { (base + n) % RINGSIZ }

  /** The buffer block h of a session goes to, when the ring stood at `base`
      as the session began. */
  function BufferOf(base: nat, h: nat): nat { if h < SLOTS then h else RingAt(base, h - SLOTS) }

  /** What a buffer delivered in one of the first 16 calls holds: one of the
      first eight blocks if it is among the first eight buffers and the engine
      got there, and otherwise what it held before the session. */
  function Early(initial: seq<Content>, b: nat, started: nat, done: nat): Content
    requires b < |initial|
  {
    if b < SLOTS && b < done then Block(b)
    else if b < SLOTS && b < started then Partial(b)
    else initial[b]
  }

  ghost predicate Counters(m: Machine, strict: bool) {
    m.done <= m.started <= m.done + 1 && m.started <= m.handled + SLOTS &&
    m.handled <= (if strict then m.done else m.started)
  }

  ghost predicate RingInPlace(m: Machine) {
    var at := RingAt(m.base, m.handled);
    m.pipe.ring == RingState(RINGSIZ, at, at, 0) &&
    if m.handled == 0 then m.pipe.indexW >= SLOTS else m.pipe.indexW == (m.handled - 1) % SLOTS + 1
  }

  /** The slots serve the eight blocks the engine may begin next. */
  ghost predicate SlotsAhead(m: Machine)
    requires m.Shaped()
  {
    forall h :: m.handled <= h < m.handled + SLOTS ==> m.pipe.slots[h % SLOTS] == BufferOf(m.base, h)
  }

  /** A block stays in its buffer until the call that delivers it; a buffer
      due in the first 16 calls holds what `Early` says. */
  ghost predicate MemoryKept(m: Machine)
    requires m.Shaped()
  {
    (m.Busy() ==> m.latched == BufferOf(m.base, m.done)) &&
    (forall h :: SLOTS <= h < m.done && m.handled <= h + SLOTS ==> m.mem[BufferOf(m.base, h)] == Block(h)) &&
    (forall n :: m.handled <= n < RINGSIZ ==>
      m.mem[RingAt(m.base, n)] == Early(m.initial, RingAt(m.base, n), m.started, m.done)) &&
    (forall b :: 0 <= b < RINGSIZ ==> m.initial[b] == Never || m.initial[b] == Stale)
  }

  /** Entry n of the log of a session. */
  ghost predicate RightDelivery(base: nat, initial: seq<Content>, n: nat, d: Delivery, strict: bool)
    requires |initial| == RINGSIZ
  {
    d.buffer == RingAt(base, n) &&
    d.content == (if n < RINGSIZ then Early(initial, d.buffer, d.started, d.done) else Block(n - SLOTS)) &&
    d.done <= d.started <= n + SLOTS && n < (if strict then d.done else d.started)
  }

  ghost predicate LogRight(m: Machine, strict: bool)
    requires m.Shaped()
  {
    |m.log| == m.handled &&
    forall n :: 0 <= n < |m.log| ==> RightDelivery(m.base, m.initial, n, m.log[n], strict)
  }

  ghost predicate Inv(m: Machine, strict: bool) {
    m.Shaped() && Counters(m, strict) && RingInPlace(m) && SlotsAhead(m) && MemoryKept(m) && LogRight(m, strict)
  }

  /** Buffers less than a ring apart differ. */
  lemma BuffersDiffer(base: nat, x: nat, y: nat)
    requires x < y < x + RINGSIZ
    ensures RingAt(base, x) != RingAt(base, y)
  {
  }

  lemma InitialInv(strict: bool)
    ensures Inv(Initial(), strict)
  {
    var m := Initial();
    forall n | 0 <= n < RINGSIZ
      ensures m.mem[RingAt(0, n)] == Early(m.initial, RingAt(0, n), 0, 0)
    {
    }
  }

  /** Writing the block under way touches none of the buffers whose content is
      still to be delivered, its own excepted. */
  lemma FillKeeps(m: Machine, d: nat, c: Content)
    requires m.Shaped() && m.done <= d < m.handled + SLOTS
    ensures forall h :: SLOTS <= h < d && m.handled <= h + SLOTS ==>
      m.mem[BufferOf(m.base, d) := c][BufferOf(m.base, h)] == m.mem[BufferOf(m.base, h)]
    ensures forall n :: m.handled <= n < RINGSIZ && (d >= SLOTS || d != RingAt(m.base, n)) ==>
      m.mem[BufferOf(m.base, d) := c][RingAt(m.base, n)] == m.mem[RingAt(m.base, n)]
  {
    forall h | SLOTS <= h < d && m.handled <= h + SLOTS
      ensures BufferOf(m.base, d) != BufferOf(m.base, h)
    {
      BuffersDiffer(m.base, h - SLOTS, d - SLOTS);
    }
    forall n | m.handled <= n < RINGSIZ && (d >= SLOTS || d != RingAt(m.base, n))
      ensures BufferOf(m.base, d) != RingAt(m.base, n)
    {
      if d >= SLOTS {
        BuffersDiffer(m.base, d - SLOTS, n);
      }
    }
  }

  lemma BeginKeeps(m: Machine, strict: bool)
    requires Inv(m, strict) && Enabled(m, BeginBlock, strict)
    ensures Inv(Apply(m, BeginBlock), strict)
  {
    FillKeeps(m, m.started, Partial(m.started));
    var m' := Apply(m, BeginBlock);
    assert m'.latched == BufferOf(m.base, m.started);
  }

  lemma CompleteKeeps(m: Machine, strict: bool)
    requires Inv(m, strict) && Enabled(m, CompleteBlock, strict)
    ensures Inv(Apply(m, CompleteBlock), strict)
  {
    FillKeeps(m, m.done, Block(m.done));
  }

  /** One interrupt on a ring in place: the buffer due is put into slot
      n mod 8 and delivered. */
  lemma HandleInPlace(m: Machine)
    requires m.Shaped() && RingInPlace(m)
    ensures var at, next := RingAt(m.base, m.handled), RingAt(m.base, m.handled + 1);
      Handle(m.pipe) == (Pipe(RingState(RINGSIZ, next, next, 0), m.handled % SLOTS + 1,
                              m.pipe.slots[m.handled % SLOTS := at]), Some(at))
  {
    ModSuccessor(m.base + m.handled, RINGSIZ);
    if m.handled > 0 {
      ModSuccessor(m.handled - 1, SLOTS);
    }
    ModBelowTwice(U32, U32);
  }

  /** The slot refilled now serves the block eight ahead. */
  lemma RefillKeepsSlots(m: Machine)
    requires m.Shaped() && SlotsAhead(m)
    ensures forall h :: m.handled < h <= m.handled + SLOTS ==>
      m.pipe.slots[m.handled % SLOTS := RingAt(m.base, m.handled)][h % SLOTS] == BufferOf(m.base, h)
  {
    forall h | m.handled < h <= m.handled + SLOTS
      ensures m.pipe.slots[m.handled % SLOTS := RingAt(m.base, m.handled)][h % SLOTS] == BufferOf(m.base, h)
    {
      SlotAgain(m.handled, h);
      if h < m.handled + SLOTS {
        assert m.pipe.slots[h % SLOTS] == BufferOf(m.base, h);
      }
    }
  }

  lemma SlotAgain(n: nat, h: nat)
    requires n < h <= n + SLOTS
    ensures h % SLOTS == n % SLOTS <==> h == n + SLOTS
  {
  }

  lemma RingWraps(base: nat, n: nat)
    ensures RingAt(base, n + RINGSIZ) == RingAt(base, n)
  {
  }

  /** The buffer due next holds what its place in the log calls for. */
  lemma DeliveryDue(m: Machine, strict: bool)
    requires Inv(m, strict) && Enabled(m, Interrupt, strict)
    ensures RightDelivery(m.base, m.initial, m.handled,
              Delivery(RingAt(m.base, m.handled), m.mem[RingAt(m.base, m.handled)], m.started, m.done), strict)
  {
    if m.handled >= RINGSIZ {
      RingWraps(m.base, m.handled - RINGSIZ);
      assert m.mem[BufferOf(m.base, m.handled - SLOTS)] == Block(m.handled - SLOTS);
    } else {
      assert m.mem[RingAt(m.base, m.handled)]
          == Early(m.initial, RingAt(m.base, m.handled), m.started, m.done);
    }
  }

  lemma InterruptKeeps(m: Machine, strict: bool)
    requires Inv(m, strict) && Enabled(m, Interrupt, strict)
    ensures Inv(Apply(m, Interrupt), strict)
  {
    var m' := Apply(m, Interrupt);
    HandleInPlace(m);
    assert SlotsAhead(m') by { RefillKeepsSlots(m); }
    assert LogRight(m', strict) by { DeliveryDue(m, strict); }
    assert Counters(m', strict) && RingInPlace(m');
    assert MemoryKept(m');
  }

  lemma FeedKeeps(m: Machine, a: Action, strict: bool)
    requires Inv(m, strict) && (a.StartFeed? || a.StopFeed?)
    ensures Inv(Apply(m, a), strict)
  {
    if a.StartFeed? && m.feeds == 0 && a.acquired {
      var m' := Apply(m, a);
      assert RingInPlace(m') by { ModBelowTwice(m'.base, RINGSIZ); }
      assert SlotsAhead(m') && LogRight(m', strict) && Counters(m', strict);
      forall n | 0 <= n < RINGSIZ
        ensures m'.mem[RingAt(m'.base, n)] == Early(m'.initial, RingAt(m'.base, n), 0, 0)
      {
      }
      assert MemoryKept(m');
    }
  }

  lemma {:induction false} RunKeeps(m: Machine, acts: seq<Action>, strict: bool)
    requires Inv(m, strict) && Allowed(m, acts, strict)
    ensures Inv(Run(m, acts), strict)
    decreases |acts|
  {
    if acts != [] {
      match acts[0] {
        case BeginBlock => BeginKeeps(m, strict);
        case CompleteBlock => CompleteKeeps(m, strict);
        case Interrupt => InterruptKeeps(m, strict);
        case StartFeed(_) => FeedKeeps(m, acts[0], strict);
        case StopFeed => FeedKeeps(m, acts[0], strict);
      }
      RunKeeps(Apply(m, acts[0]), acts[1..], strict);
    }
  }

  // ---------------------------------------------------------------------
  // What the demultiplexer sees

  /** A machine some allowed run from driver initialisation leads to. */
  ghost predicate Reached(m: Machine, acts: seq<Action>, strict: bool) {
    Allowed(Initial(), acts, strict) && m == Run(Initial(), acts)
  }

  lemma ReachedInv(m: Machine, acts: seq<Action>, strict: bool)
    requires Reached(m, acts, strict)
    ensures Inv(m, strict)
  {
    InitialInv(strict);
    RunKeeps(Initial(), acts, strict);
  }

  /** The handler is an eight-deep pipeline: in every session, whatever the
      ring position at its start, call n >= 16 delivers the buffer holding
      exactly block n - 8, and the first 16 calls deliver what `Early` says. */
  lemma SteadyDelivery(m: Machine, acts: seq<Action>, strict: bool)
    requires Reached(m, acts, strict)
    ensures |m.log| == m.handled
    ensures forall n :: RINGSIZ <= n < |m.log| ==>
      m.log[n].buffer == RingAt(m.base, n) && m.log[n].content == Block(n - SLOTS)
    ensures forall n :: 0 <= n < |m.log| && n < RINGSIZ ==>
      m.log[n].buffer == RingAt(m.base, n) &&
      m.log[n].content == Early(m.initial, m.log[n].buffer, m.log[n].started, m.log[n].done)
  {
    ReachedInv(m, acts, strict);
  }

  /** Every block from 8 on is delivered exactly once, whole and in order. */
  lemma ExactlyOnceInOrder(m: Machine, acts: seq<Action>, strict: bool, h: nat)
    requires Reached(m, acts, strict)
    requires SLOTS <= h && h + SLOTS < |m.log|
    ensures m.log[h + SLOTS].content == Block(h)
    ensures forall n :: 0 <= n < |m.log| && m.log[n].content == Block(h) ==> n == h + SLOTS
    ensures forall n :: 0 <= n < |m.log| && m.log[n].content == Partial(h) ==> false
  {
    ReachedInv(m, acts, strict);
    forall n | 0 <= n < |m.log|
      ensures m.log[n].content == Block(h) ==> n == h + SLOTS
      ensures m.log[n].content != Partial(h)
    {
      assert RightDelivery(m.base, m.initial, n, m.log[n], strict);
    }
  }

  /** Exactly when an interrupt would deliver the buffer being filled: only for
      one of the first eight blocks, so never from the ninth call on. */
  lemma TornIff(m: Machine, acts: seq<Action>, strict: bool)
    requires Reached(m, acts, strict) && Enabled(m, Interrupt, strict) && m.Busy()
    ensures Handle(m.pipe).1 == Some(m.latched) <==>
      m.done < SLOTS && m.done == RingAt(m.base, m.handled)
    ensures m.handled >= SLOTS ==> Handle(m.pipe).1 != Some(m.latched)
  {
    ReachedInv(m, acts, strict);
    HandleInPlace(m);
    if m.done >= SLOTS {
      BuffersDiffer(m.base, m.done - SLOTS, m.handled);
    }
  }

  /** After eight calls the eight slots hold eight different buffers, the last
      eight taken from the ring; and the ring is empty between calls. */
  lemma SlotsHoldLastEight(m: Machine, acts: seq<Action>, strict: bool)
    requires Reached(m, acts, strict)
    ensures m.pipe.ring.count == 0
    ensures m.handled >= SLOTS ==>
      forall n :: m.handled - SLOTS <= n < m.handled ==> m.pipe.slots[n % SLOTS] == RingAt(m.base, n)
    ensures m.handled >= SLOTS ==>
      forall i, j :: 0 <= i < j < SLOTS ==> m.pipe.slots[i] != m.pipe.slots[j]
  {
    ReachedInv(m, acts, strict);
    if m.handled >= SLOTS {
      forall n | m.handled - SLOTS <= n < m.handled
        ensures m.pipe.slots[n % SLOTS] == RingAt(m.base, n)
      {
        assert (n + SLOTS) % SLOTS == n % SLOTS;
        assert m.pipe.slots[(n + SLOTS) % SLOTS] == BufferOf(m.base, n + SLOTS);
      }
      forall i, j | 0 <= i < j < SLOTS
        ensures m.pipe.slots[i] != m.pipe.slots[j]
      {
        var x, y := LastCall(m.handled, i), LastCall(m.handled, j);
        if x < y {
          BuffersDiffer(m.base, x, y);
        } else {
          BuffersDiffer(m.base, y, x);
        }
      }
    }
  }

  /** The last of `handled` calls that refilled slot i. */
  function LastCall(handled: nat, i: nat): (n: nat)
    requires i < SLOTS <= handled
    ensures handled - SLOTS <= n < handled && n % SLOTS == i
  {
    handled - 1 - (handled - 1 - i) % SLOTS
  }

  /** The two actors never block each other. */
  lemma NoDeadlock(m: Machine, acts: seq<Action>, strict: bool)
    requires Reached(m, acts, strict)
    ensures Enabled(m, BeginBlock, strict) || Enabled(m, CompleteBlock, strict) || Enabled(m, Interrupt, strict)
    ensures m.Busy() ==> Enabled(m, CompleteBlock, strict)
    ensures !m.Busy() && m.handled < m.started ==> Enabled(m, Interrupt, strict)
    ensures !m.Busy() && m.handled == m.started ==> Enabled(m, BeginBlock, strict)
  {
    ReachedInv(m, acts, strict);
  }

  /** With handlers running after their block, a session begins with block 0
      exactly when the ring stood at its first buffer; elsewhere the first
      delivery is another block or data from before the session. */
  lemma FirstDeliveryIff(m: Machine, acts: seq<Action>)
    requires Reached(m, acts, true) && m.handled > 0
    ensures |m.log| == m.handled && (m.log[0].content == Block(0) <==> m.base == 0)
  {
    ReachedInv(m, acts, true);
    assert RightDelivery(m.base, m.initial, 0, m.log[0], true);
  }

  // ---------------------------------------------------------------------
  // How a session begins

  /** Exactly when a call delivers data from before the session: one of the
      first 16, on a buffer filled before, unless that is one of the first
      eight buffers and the engine has got to it. */
  lemma StaleIff(m: Machine, acts: seq<Action>, strict: bool, n: nat)
    requires Reached(m, acts, strict) && n < |m.log|
    ensures m.log[n].content == Stale <==>
      n < RINGSIZ && m.initial[RingAt(m.base, n)] == Stale &&
      !(RingAt(m.base, n) < SLOTS && RingAt(m.base, n) < m.log[n].started)
  {
    ReachedInv(m, acts, strict);
    assert RightDelivery(m.base, m.initial, n, m.log[n], strict);
  }

  /** The call that delivers buffer b for the first time. */
  function CallOf(base: nat, b: nat): (n: nat)
    requires base < RINGSIZ && b < RINGSIZ
    ensures n < RINGSIZ && RingAt(base, n) == b
    ensures forall k :: 0 <= k < RINGSIZ && RingAt(base, k) == b ==> k == n
  {
    var n := (b + RINGSIZ - base) % RINGSIZ;
    assert RingAt(base, n) == b;
    OnlyOnce(base, n);
    n
  }

  lemma OnlyOnce(base: nat, n: nat)
    requires n < RINGSIZ
    ensures forall k :: 0 <= k < RINGSIZ && RingAt(base, k) == RingAt(base, n) ==> k == n
  {
    forall k | 0 <= k < RINGSIZ && k != n
      ensures RingAt(base, k) != RingAt(base, n)
    {
      if k < n {
        BuffersDiffer(base, k, n);
      } else {
        BuffersDiffer(base, n, k);
      }
    }
  }

  /** Exactly which of the first eight blocks are delivered: those complete by
      the call that comes to their buffer.  With handlers after their block that
      holds of block h whenever the session began at the ring's first buffer or
      past buffer h; otherwise the block is lost unless the engine was ahead. */
  lemma EarlyBlockIff(m: Machine, acts: seq<Action>, strict: bool, h: nat)
    requires Reached(m, acts, strict) && h < SLOTS && CallOf(m.base, h) < |m.log|
    ensures (exists n :: 0 <= n < |m.log| && m.log[n].content == Block(h)) <==> h < m.log[CallOf(m.base, h)].done
    ensures strict && (m.base == 0 || h < m.base) ==> h < m.log[CallOf(m.base, h)].done
    ensures m.log[CallOf(m.base, h)].done == CallOf(m.base, h) + 1 ==>
      (h < m.log[CallOf(m.base, h)].done <==> m.base == 0 || h < m.base)
  {
    ReachedInv(m, acts, strict);
    var at := CallOf(m.base, h);
    forall n | 0 <= n < |m.log|
      ensures m.log[n].content == Block(h) <==> n == at && h < m.log[at].done
    {
      assert RightDelivery(m.base, m.initial, n, m.log[n], strict);
    }
    assert m.base == 0 || h < m.base <==> h <= at by { CallAfter(m.base, h); }
    assert RightDelivery(m.base, m.initial, at, m.log[at], strict);
  }

  lemma CallAfter(base: nat, h: nat)
    requires base < RINGSIZ && h < SLOTS
    ensures h <= CallOf(base, h) <==> base == 0 || h < base
  {
    if base == 0 {
      ModBelowTwice(h + RINGSIZ, RINGSIZ);
    } else {
      ModBelowTwice(h + RINGSIZ - base, RINGSIZ);
    }
  }

  // ---------------------------------------------------------------------
  // Runs that show it

  lemma {:induction false} RunOn(m: Machine, acts: seq<Action>, more: seq<Action>, strict: bool)
    requires m.Shaped() && Allowed(m, acts, strict) && Allowed(Run(m, acts), more, strict)
    ensures Allowed(m, acts + more, strict) && Run(m, acts + more) == Run(Run(m, acts), more)
    decreases |acts|
  {
    if acts == [] {
      assert acts + more == more;
    } else {
      assert (acts + more)[1..] == acts[1..] + more;
      RunOn(Apply(m, acts[0]), acts[1..], more, strict);
    }
  }

  lemma OneStep(m: Machine, a: Action, strict: bool)
    requires m.Shaped() && Enabled(m, a, strict)
    ensures Allowed(m, [a], strict) && Run(m, [a]) == Apply(m, a)
  {
    assert [a][1..] == [];
    assert Allowed(Apply(m, a), [], strict) && Run(Apply(m, a), []) == Apply(m, a);
  }

  /** One more action on a run that leads to m. */
  lemma Onward(m: Machine, acts: seq<Action>, a: Action, strict: bool)
    requires Reached(m, acts, strict) && Enabled(m, a, strict)
    ensures Reached(Apply(m, a), acts + [a], strict) && Inv(Apply(m, a), strict)
  {
    OneStep(m, a, strict);
    RunOn(Initial(), acts, [a], strict);
    ReachedInv(Apply(m, a), acts + [a], strict);
  }

  /** A weaker handler can be called for the first time while the engine is
      still filling the buffer it delivers. */
  lemma TornExample() returns (m: Machine, acts: seq<Action>)
    ensures Reached(m, acts, false) && Enabled(m, Interrupt, false) && m.Busy() && Handle(m.pipe).1 == Some(m.latched)
  {
    var first := Apply(Initial(), StartFeed(true));
    OneStep(Initial(), StartFeed(true), false);
    Onward(first, [StartFeed(true)], BeginBlock, false);
    m, acts := Apply(first, BeginBlock), [StartFeed(true)] + [BeginBlock];
    TornIff(m, acts, false);
  }

  /** The engine runs k blocks ahead. */
  lemma {:induction false} Ahead(m: Machine, acts: seq<Action>, k: nat) returns (m': Machine, acts': seq<Action>)
    requires Reached(m, acts, true) && !m.Busy() && m.done <= m.started && m.started + k <= m.handled + SLOTS
    ensures Reached(m', acts', true) && !m'.Busy() && m'.done == m'.started == m.started + k
    ensures m'.handled == m.handled && m'.base == m.base && m'.feeds == m.feeds && m'.initial == m.initial
    decreases k
  {
    ReachedInv(m, acts, true);
    if k == 0 {
      m', acts' := m, acts;
    } else {
      Onward(m, acts, BeginBlock, true);
      var b := Apply(m, BeginBlock);
      Onward(b, acts + [BeginBlock], CompleteBlock, true);
      m', acts' := Ahead(Apply(b, CompleteBlock), acts + [BeginBlock] + [CompleteBlock], k - 1);
    }
  }

  /** The handler delivers k times, the engine filling one block before each. */
  lemma {:induction false} Deliver(m: Machine, acts: seq<Action>, k: nat) returns (m': Machine, acts': seq<Action>)
    requires Reached(m, acts, true) && !m.Busy() && m.handled < m.started
    ensures Reached(m', acts', true) && !m'.Busy() && m'.done == m'.started == m.started + k
    ensures m'.handled == m.handled + k && m'.base == m.base && m'.feeds == m.feeds && m'.initial == m.initial
    decreases k
  {
    ReachedInv(m, acts, true);
    if k == 0 {
      m', acts' := m, acts;
    } else {
      Onward(m, acts, Interrupt, true);
      var b := Apply(m, Interrupt);
      var c, acts1 := Ahead(b, acts + [Interrupt], 1);
      m', acts' := Deliver(c, acts1, k - 1);
    }
  }

  /** A session follows another of k calls with the engine eight blocks ahead;
      it begins at ring position k mod 16, over what the first left. */
  lemma SecondSession(k: nat) returns (m: Machine, acts: seq<Action>)
    ensures Reached(m, acts, true) && m.handled == m.done == m.started == 0 && m.base == RingAt(0, k)
    ensures forall h :: SLOTS <= h && k <= h < k + SLOTS ==> m.initial[BufferOf(0, h)] == Stale
  {
    var first := Apply(Initial(), StartFeed(true));
    OneStep(Initial(), StartFeed(true), true);
    var a, aRun := Ahead(first, [StartFeed(true)], SLOTS);
    var b, bRun := Deliver(a, aRun, k);
    ReachedInv(b, bRun, true);
    Onward(b, bRun, StopFeed, true);
    var c := Apply(b, StopFeed);
    Onward(c, bRun + [StopFeed], StartFeed(true), true);
    m, acts := Apply(c, StartFeed(true)), bRun + [StopFeed] + [StartFeed(true)];
    BlocksAge(b);
  }

  lemma BlocksAge(b: Machine)
    requires Inv(b, true) && b.done == b.handled + SLOTS
    ensures forall h :: SLOTS <= h && b.handled <= h < b.handled + SLOTS ==> AgeAll(b.mem)[BufferOf(b.base, h)] == Stale
  {
    forall h | SLOTS <= h && b.handled <= h < b.handled + SLOTS
      ensures AgeAll(b.mem)[BufferOf(b.base, h)] == Stale
    {
      assert b.mem[BufferOf(b.base, h)] == Block(h);
    }
  }

  /** A session need not begin with its first block: after one delivery the
      next session starts with something else. */
  lemma NotFirstBlock() returns (m: Machine, acts: seq<Action>)
    ensures Reached(m, acts, true) && m.base == 1 && |m.log| == 1 && m.log[0].content != Block(0)
  {
    var a, aRun := SecondSession(1);
    var b, bRun := Ahead(a, aRun, 1);
    m, acts := Deliver(b, bRun, 1);
    FirstDeliveryIff(m, acts);
  }

  /** Nor is it enough to begin at the ring's first buffer: after a session of
      16 calls the next one delivers old data at call 8. */
  lemma OldDataAtFirstBuffer() returns (m: Machine, acts: seq<Action>)
    ensures Reached(m, acts, true) && m.base == 0 && |m.log| == 9 && m.log[8].content == Stale
  {
    var a, aRun := SecondSession(RINGSIZ);
    assert a.initial[BufferOf(0, RINGSIZ)] == Stale;
    var b, bRun := Ahead(a, aRun, 1);
    m, acts := Deliver(b, bRun, 9);
    SteadyDelivery(m, acts, true);
    assert m.initial == a.initial;
    StaleIff(m, acts, true, 8);
  }

  // ---------------------------------------------------------------------
  // The first session

  ghost predicate Untouched(m: Machine)
    requires m.Shaped()
  {
    m.base == 0 && m.feeds > 0 && forall b :: 0 <= b < RINGSIZ ==> m.initial[b] == Never
  }

  /** Feeds come and go while the first one stays. */
  ghost predicate OneSession(m: Machine, acts: seq<Action>)
    requires m.Shaped()
    decreases |acts|
  {
    m.feeds > 0 && (acts == [] || OneSession(Apply(m, acts[0]), acts[1..]))
  }

  lemma {:induction false} SessionUntouched(m: Machine, acts: seq<Action>)
    requires m.Shaped() && Untouched(m) && OneSession(m, acts)
    ensures Untouched(Run(m, acts))
    decreases |acts|
  {
    if acts != [] {
      SessionUntouched(Apply(m, acts[0]), acts[1..]);
    }
  }

  /** The delivered contents without the buffers never filled. */
  function Filled(log: seq<Delivery>): seq<Content> {
    if log == [] then []
    else
      var last := log[|log| - 1].content;
      Filled(log[..|log| - 1]) + (if last == Never then [] else [last])
  }

  function Blocks(k: nat): seq<Content> { seq(k, i requires i >= 0 => Block(i)) }

  /** How many blocks n calls of the first session bring. */
  function BlocksAfter(n: nat): nat {
    if n < SLOTS then n else if n < RINGSIZ then SLOTS else n - SLOTS
  }

  /** What call n of the first session delivers. */
  function Expected(n: nat): Content {
    if n < SLOTS then Block(n) else if n < RINGSIZ then Never else Block(n - SLOTS)
  }

  lemma {:induction false} FilledIsBlocks(log: seq<Delivery>)
    requires forall n :: 0 <= n < |log| ==>
      log[n].content == Expected(n)
    ensures Filled(log) == Blocks(BlocksAfter(|log|))
  {
    if log != [] {
      var k := |log| - 1;
      FilledIsBlocks(log[..k]);
      assert log[k].content == Expected(k);
      assert Blocks(BlocksAfter(k + 1))
          == Blocks(BlocksAfter(k)) + (if Expected(k) == Never then [] else [Expected(k)]);
    }
  }

  /** In the first session calls 0..7 deliver blocks 0..7, calls 8..15 buffers
      never written, and later calls the blocks from 8 on: without the eight
      blanks the demultiplexer sees the block sequence, none missing. */
  lemma FirstSession(m: Machine, acts: seq<Action>)
    requires Reached(m, [StartFeed(true)] + acts, true)
    requires OneSession(Apply(Initial(), StartFeed(true)), acts)
    ensures forall n :: 0 <= n < |m.log| ==>
      m.log[n].content == Expected(n)
    ensures |m.log| == m.handled && Filled(m.log) == Blocks(BlocksAfter(m.handled))
  {
    FirstSessionUntouched(m, acts);
    forall n | 0 <= n < |m.log|
      ensures m.log[n].content == Expected(n)
    {
      assert RightDelivery(0, m.initial, n, m.log[n], true);
    }
    FilledIsBlocks(m.log);
  }

  lemma FirstSessionUntouched(m: Machine, acts: seq<Action>)
    requires Reached(m, [StartFeed(true)] + acts, true)
    requires OneSession(Apply(Initial(), StartFeed(true)), acts)
    ensures Inv(m, true) && Untouched(m)
  {
    ReachedInv(m, [StartFeed(true)] + acts, true);
    var first := Apply(Initial(), StartFeed(true));
    assert ([StartFeed(true)] + acts)[1..] == acts;
    SessionUntouched(first, acts);
  }
}
