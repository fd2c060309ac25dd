/** Registering interrupt vectors (saa7231_msi.c) and dispatching them
    (saa7231_irq_handler).  A 32-bit status or enable word is the set of the
    vectors whose bits are set in it. */
module Interrupts {

  const VECTORS: nat := 128

  /** The bus-access-violation vector the handler treats apart. */
  const DCSN: nat := 52

  function WordOf(v: nat): nat { v / 32 }

  function Word(bits: set<nat>, i: nat): set<nat> { set v | v in bits && WordOf(v) == i }

  /** A slot of the event table; an unused one is all zeros. */
  datatype Entry = Entry(vector: nat, hasHandler: bool)

  const UNUSED := Entry(0, false)

  datatype Table = Table(entries: seq<Entry>, enabled: set<nat>, handlers: int) {
    predicate Shaped() { |entries| == VECTORS }

    /** saa7231_add_irqevent: drivers may pass a null handler. */
    function Add(v: nat, hasHandler: bool): Table
      requires Shaped() && v < VECTORS
    {
      Table(entries[v := Entry(v, hasHandler)], enabled + {v}, handlers + 1)
    }

    /** saa7231_remove_irqevent: nothing without a handler; otherwise the whole
        enable word goes to the clear register. */
    function Remove(v: nat): Table
      requires Shaped() && v < VECTORS
    {
      if entries[v].hasHandler then
        Table(entries[v := UNUSED], enabled - Word(enabled, WordOf(v)), handlers - 1)
      else this
    }

    predicate Registered(v: nat)
      requires Shaped() && v < VECTORS
    {
      entries[v].vector == v
    }
  }

  // ---------------------------------------------------------------------
  // Runs of registrations

  datatype Op = Add(v: nat, hasHandler: bool) | Remove(v: nat)

  predicate InRange(ops: seq<Op>) { forall op :: op in ops ==> op.v < VECTORS }

  function Act(t: Table, op: Op): (t': Table)
    requires t.Shaped() && op.v < VECTORS
    ensures t'.Shaped()
  {
    match op
    case Add(v, h) => t.Add(v, h)
    case Remove(v) => t.Remove(v)
  }

  /** The table after a run of calls from saa7231_msi_init. */
  function Run(ops: seq<Op>): (t: Table)
    requires InRange(ops)
    ensures t.Shaped()
  {
    if ops == [] then Table(seq(VECTORS, _ => UNUSED), {}, 0)
    else Act(Run(ops[..|ops| - 1]), ops[|ops| - 1])
  }

  /** Call k put what is now in the entry of v there: no call for v came after
      it, but for removals that found no handler to remove. */
  ghost predicate Stands(ops: seq<Op>, k: nat, v: nat, hasHandler: bool)
    requires k < |ops|
  {
    ops[k] == Add(v, hasHandler) &&
    forall j :: k < j < |ops| && ops[j].v == v ==> !hasHandler && ops[j].Remove?
  }

  ghost predicate Standing(ops: seq<Op>, v: nat, hasHandler: bool) {
    exists k :: 0 <= k < |ops| && Stands(ops, k, v, hasHandler)
  }

  lemma StandsStep(ops: seq<Op>, v: nat, h: bool)
    requires ops != []
    ensures var n := |ops| - 1;
      Standing(ops, v, h) <==>
      (if ops[n].v == v && ops[n].Add? then ops[n].hasHandler == h
       else Standing(ops[..n], v, h) && (ops[n].v == v ==> !h))
  {
    var n := |ops| - 1;
    var before := ops[..n];
    if Standing(before, v, h) && (ops[n].v == v ==> !h && ops[n].Remove?) {
      var k :| 0 <= k < n && Stands(before, k, v, h);
      assert Stands(ops, k, v, h);
    }
    if Standing(ops, v, h) && !(ops[n].v == v && ops[n].Add?) {
      var k :| 0 <= k < |ops| && Stands(ops, k, v, h);
      assert Stands(before, k, v, h);
    }
    if ops[n] == Add(v, h) {
      assert Stands(ops, n, v, h);
    }
  }

  /** Over every run the table entry of a vector is what the last add put there,
      unless a removal that found a handler came after it. */
  lemma {:induction false} EntryIff(ops: seq<Op>, v: nat, h: bool)
    requires InRange(ops) && v < VECTORS && (v != 0 || h)
    ensures Run(ops).entries[v] == Entry(v, h) <==> Standing(ops, v, h)
  {
    if ops != [] {
      EntryIff(ops[..|ops| - 1], v, h);
      StandsStep(ops, v, h);
    }
  }

  /** A removal that finds a handler: the last call for its vector before it was
      an add with one. */
  ghost predicate Removes(ops: seq<Op>, j: nat)
    requires j < |ops|
  {
    ops[j].Remove? && exists k :: 0 <= k < j && LastBefore(ops, k, j) && ops[k] == Add(ops[j].v, true)
  }

  predicate LastBefore(ops: seq<Op>, k: nat, j: nat)
    requires k < j < |ops|
  {
    forall i :: k < i < j ==> ops[i].v != ops[j].v
  }

  lemma RemovesIff(ops: seq<Op>, j: nat)
    requires InRange(ops) && j < |ops| && ops[j].Remove?
    ensures Removes(ops, j) <==> Run(ops[..j]).entries[ops[j].v].hasHandler
  {
    var v := ops[j].v;
    EntryIff(ops[..j], v, true);
    EntriesNameThemselves(ops[..j], v);
    if k :| 0 <= k < j && LastBefore(ops, k, j) && ops[k] == Add(v, true) {
      assert Stands(ops[..j], k, v, true);
    }
    if k :| 0 <= k < j && Stands(ops[..j], k, v, true) {
      assert forall i :: k < i < j ==> ops[i] == ops[..j][i];
      assert LastBefore(ops, k, j);
    }
  }

  lemma RemovesPrefix(ops: seq<Op>, n: nat, j: nat)
    requires j < n <= |ops|
    ensures Removes(ops[..n], j) <==> Removes(ops, j)
  {
    forall k | 0 <= k < j
      ensures LastBefore(ops[..n], k, j) <==> LastBefore(ops, k, j)
    {
      assert forall i :: k < i <= j ==> ops[..n][i] == ops[i];
    }
  }

  ghost function Adds(ops: seq<Op>): set<nat> { set j: nat | j < |ops| && ops[j].Add? }

  /** The removals of a run that found a handler. */
  ghost function Removals(ops: seq<Op>): set<nat> { set j: nat | j < |ops| && Removes(ops, j) }

  lemma AddsStep(ops: seq<Op>)
    requires ops != []
    ensures |Adds(ops)| == |Adds(ops[..|ops| - 1])| + if ops[|ops| - 1].Add? then 1 else 0
  {
    var n := |ops| - 1;
    assert Adds(ops) == Adds(ops[..n]) + if ops[n].Add? then {n} else {};
  }

  lemma RemovalsStep(ops: seq<Op>)
    requires InRange(ops) && ops != []
    ensures var n := |ops| - 1;
      Removals(ops) == Removals(ops[..n]) + Now(ops[n], n, Run(ops[..n])) && n !in Removals(ops[..n])
  {
    var n := |ops| - 1;
    forall j: nat
      ensures j in Removals(ops[..n]) <==> j < n && j in Removals(ops)
    {
      if j < n {
        RemovesPrefix(ops, n, j);
      }
    }
    if ops[n].Remove? {
      RemovesIff(ops, n);
    }
  }

  /** What call n adds to the removals, made on table t. */
  ghost function Now(op: Op, n: nat, t: Table): set<nat>
    requires t.Shaped() && op.v < VECTORS
  {
    if op.Remove? && t.entries[op.v].hasHandler then {n} else {}
  }

  /** The counter counts the adds less the removals that found a handler. */
  lemma {:induction false} HandlersCount(ops: seq<Op>)
    requires InRange(ops)
    ensures Run(ops).handlers == |Adds(ops)| - |Removals(ops)|
  {
    if ops != [] {
      HandlersCount(ops[..|ops| - 1]);
      AddsStep(ops);
      RemovalsStep(ops);
    }
  }

  /** Call k added v, and no later call removed it. */
  ghost predicate Lasts(ops: seq<Op>, removals: set<nat>, k: nat, v: nat)
    requires k < |ops|
  {
    ops[k].Add? && ops[k].v == v && forall j :: k < j < |ops| && ops[j].v == v ==> j !in removals
  }

  ghost predicate Lasting(ops: seq<Op>, removals: set<nat>, v: nat) {
    exists k :: 0 <= k < |ops| && Lasts(ops, removals, k, v)
  }

  lemma LastingStep(ops: seq<Op>, removals: set<nat>, v: nat, now: set<nat>)
    requires ops != [] && |ops| - 1 !in removals && now <= {|ops| - 1}
    ensures var n := |ops| - 1;
      Lasting(ops, removals + now, v) <==>
      (ops[n].Add? && ops[n].v == v) || (Lasting(ops[..n], removals, v) && (ops[n].v == v ==> now == {}))
  {
    var n := |ops| - 1;
    if ops[n].Add? && ops[n].v == v {
      assert Lasts(ops, removals + now, n, v);
    } else if Lasting(ops, removals + now, v) {
      var k :| 0 <= k < |ops| && Lasts(ops, removals + now, k, v);
      assert Lasts(ops[..n], removals, k, v);
    } else if Lasting(ops[..n], removals, v) {
      var k :| 0 <= k < n && Lasts(ops[..n], removals, k, v);
      assert ops[k].Add? && !Lasts(ops, removals + now, k, v);
    }
  }

  /** Over every run a vector other than 0 is registered exactly when some add of
      it is not followed by a removal of it that found a handler. */
  lemma {:induction false} RegisteredIff(ops: seq<Op>, v: nat)
    requires InRange(ops) && 0 < v < VECTORS
    ensures Run(ops).Registered(v) <==> Lasting(ops, Removals(ops), v)
  {
    if ops != [] {
      var n := |ops| - 1;
      RegisteredIff(ops[..n], v);
      RemovalsStep(ops);
      LastingStep(ops, Removals(ops[..n]), v, Now(ops[n], n, Run(ops[..n])));
      RegisteredStep(Run(ops[..n]), ops[n], n, v);
    }
  }

  lemma RegisteredStep(t: Table, op: Op, n: nat, v: nat)
    requires t.Shaped() && op.v < VECTORS && 0 < v < VECTORS
    ensures Act(t, op).Registered(v) <==>
      (op.Add? && op.v == v) || (t.Registered(v) && (op.v == v ==> Now(op, n, t) == {}))
  {
  }

  /** Call k added v, and no later call removed a vector of its word. */
  ghost predicate Survives(ops: seq<Op>, removals: set<nat>, k: nat, v: nat)
    requires k < |ops|
  {
    ops[k].Add? && ops[k].v == v && forall j :: k < j < |ops| && ops[j].v / 32 == v / 32 ==> j !in removals
  }

  ghost predicate Surviving(ops: seq<Op>, removals: set<nat>, v: nat) {
    exists k :: 0 <= k < |ops| && Survives(ops, removals, k, v)
  }

  lemma SurvivingStep(ops: seq<Op>, removals: set<nat>, v: nat, now: set<nat>)
    requires ops != [] && |ops| - 1 !in removals && now <= {|ops| - 1}
    ensures var n := |ops| - 1;
      Surviving(ops, removals + now, v) <==>
      (ops[n].Add? && ops[n].v == v) ||
      (Surviving(ops[..n], removals, v) && (ops[n].v / 32 == v / 32 ==> now == {}))
  {
    var n := |ops| - 1;
    if ops[n].Add? && ops[n].v == v {
      assert Survives(ops, removals + now, n, v);
    } else if Surviving(ops, removals + now, v) {
      var k :| 0 <= k < |ops| && Survives(ops, removals + now, k, v);
      assert Survives(ops[..n], removals, k, v);
    } else if Surviving(ops[..n], removals, v) {
      var k :| 0 <= k < n && Survives(ops[..n], removals, k, v);
      assert ops[k].Add? && !Survives(ops, removals + now, k, v);
    }
  }

  /** Over every run a vector is enabled exactly when some add of it was not
      followed by a removal, in the same 32-vector word, that found a handler. */
  lemma {:induction false} EnabledIff(ops: seq<Op>, v: nat)
    requires InRange(ops)
    ensures v in Run(ops).enabled <==> Surviving(ops, Removals(ops), v)
  {
    if ops != [] {
      var n := |ops| - 1;
      EnabledIff(ops[..n], v);
      RemovalsStep(ops);
      SurvivingStep(ops, Removals(ops[..n]), v, Now(ops[n], n, Run(ops[..n])));
    }
  }

  /** Over every run an entry is either unused or names itself, and enabled
      vectors are registered. */
  lemma {:induction false} EntriesNameThemselves(ops: seq<Op>, v: nat)
    requires InRange(ops) && v < VECTORS
    ensures Run(ops).entries[v] == UNUSED || Run(ops).Registered(v)
    ensures v in Run(ops).enabled ==> Run(ops).Registered(v)
    ensures forall u :: u in Run(ops).enabled ==> u < VECTORS
  {
    if ops != [] {
      EntriesNameThemselves(ops[..|ops| - 1], v);
    }
  }

  /** While nothing is removed the enabled vectors are the registered ones,
      vector 0 apart, which an unused entry names as well. */
  lemma {:induction false} AddOnlyEnabled(ops: seq<Op>, v: nat)
    requires InRange(ops) && (forall op :: op in ops ==> op.Add?) && v < VECTORS
    ensures v in Run(ops).enabled <==> exists op :: op in ops && op.v == v
    ensures v != 0 ==> (v in Run(ops).enabled <==> Run(ops).Registered(v))
    ensures Run(ops).handlers == |ops|
  {
    if ops != [] {
      AddOnlyEnabled(ops[..|ops| - 1], v);
      assert forall op :: op in ops <==> op in ops[..|ops| - 1] || op == ops[|ops| - 1];
    }
  }

  // ---------------------------------------------------------------------
  // Dispatch

  /** Vectors the handler gets to: all pending ones, but the DCSN vector only
      if nothing below it is pending. */
  ghost predicate Reached(pending: set<nat>, v: nat) {
    v in pending && (v == DCSN ==> forall u :: u in pending ==> u >= DCSN)
  }

  lemma ReachedIff(pending: set<nat>, v: nat)
    ensures v != 52 ==> (Reached(pending, v) <==> v in pending)
    ensures Reached(pending, 52) <==> 52 in pending && !exists u :: u in pending && u < 52
  {
  }

  /** The vectors in [0, n) whose handler is called. */
  ghost predicate CalledBelow(t: Table, pending: set<nat>, n: nat, calls: seq<nat>)
    requires t.Shaped()
  {
    (forall i, j :: 0 <= i < j < |calls| ==> calls[i] < calls[j]) &&
    (forall v :: v in calls ==> v < n) &&
    forall v :: 0 <= v < n && v < VECTORS ==>
      (v in calls <==> Reached(pending, v) && t.Registered(v))
  }

  lemma CallStep(t: Table, pending: set<nat>, n: nat, calls: seq<nat>)
    requires t.Shaped() && n < VECTORS && CalledBelow(t, pending, n, calls)
    ensures CalledBelow(t, pending, n + 1, if Reached(pending, n) && t.Registered(n) then calls + [n] else calls)
  {
    var called := Reached(pending, n) && t.Registered(n);
    var calls' := if called then calls + [n] else calls;
    assert forall v :: v in calls' <==> v in calls || (called && v == n);
    forall i, j | 0 <= i < j < |calls'|
      ensures calls'[i] < calls'[j]
    {
      assert calls[i] in calls;
    }
  }

  /** No handler is called for a vector whose removal found one, until it is
      added again. */
  lemma RemovedNotCalled(ops: seq<Op>, j: nat, pending: set<nat>, n: nat, calls: seq<nat>)
    requires InRange(ops) && j in Removals(ops) && ops[j].v != 0
    requires forall i :: j < i < |ops| && ops[i].v == ops[j].v ==> ops[i].Remove?
    requires n <= VECTORS && CalledBelow(Run(ops), pending, n, calls)
    ensures ops[j].v !in calls
  {
    var v := ops[j].v;
    RegisteredIff(ops, v);
    forall k | 0 <= k < |ops|
      ensures !Lasts(ops, Removals(ops), k, v)
    {
      assert ops[j].v == v && j in Removals(ops);
    }
    assert v in calls ==> v < n;
  }

  ghost predicate AnyBelow(pending: set<nat>, n: nat) { exists u :: u in pending && u < n }

  /** Some vector of word w below n was reached. */
  ghost predicate WordHit(pending: set<nat>, n: nat, w: nat) {
    exists u: nat :: Reached(pending, u) && u < n && WordOf(u) == w
  }

  /** What the handler still sees once it is past the vectors below n. */
  ghost function StatusAt(pending: set<nat>, n: nat): set<nat> {
    if AnyBelow(pending, n) then pending - {DCSN} else pending
  }

  /** What the hardware still holds then. */
  ghost function LeftAt(pending: set<nat>, n: nat): set<nat> {
    set v | v in pending &&
      if v == DCSN then AnyBelow(pending, if n < 32 then n else 32) || !AnyBelow(pending, n)
      else !WordHit(pending, n, WordOf(v))
  }

  lemma StatusStep(pending: set<nat>, n: nat)
    ensures n in StatusAt(pending, n) <==> Reached(pending, n)
    ensures StatusAt(pending, n + 1)
         == if n in StatusAt(pending, n) then StatusAt(pending, n) - {DCSN} else StatusAt(pending, n)
  {
    assert AnyBelow(pending, n + 1) <==> AnyBelow(pending, n) || n in pending;
    if n == DCSN {
      assert Reached(pending, n) <==> n in pending && !AnyBelow(pending, n);
    }
  }

  lemma LeftStep(pending: set<nat>, n: nat)
    ensures LeftAt(pending, n + 1) ==
      if Reached(pending, n) then LeftAt(pending, n) - Word(StatusAt(pending, n), WordOf(n)) else LeftAt(pending, n)
  {
    assert AnyBelow(pending, n + 1) <==> AnyBelow(pending, n) || n in pending;
    forall w
      ensures WordHit(pending, n + 1, w) <==> WordHit(pending, n, w) || (Reached(pending, n) && WordOf(n) == w)
    {
    }
    assert Reached(pending, DCSN) <==> DCSN in pending && !AnyBelow(pending, DCSN);
  }

  /** At the end only a skipped DCSN vector is left, and only if a vector of
      the first word was what it was skipped for. */
  lemma LeftAtEnd(pending: set<nat>)
    requires forall v :: v in pending ==> v < VECTORS
    ensures LeftAt(pending, VECTORS) == set v | v in pending && v == DCSN && AnyBelow(pending, 32)
  {
    forall v | v in pending && v != DCSN
      ensures WordHit(pending, VECTORS, WordOf(v))
    {
      assert Reached(pending, v);
    }
  }

  /** The handler gets to a registered vector that has nothing to call. */
  ghost predicate FaultsAt(t: Table, pending: set<nat>, v: nat)
    requires t.Shaped() && v < VECTORS
  {
    Reached(pending, v) && t.Registered(v) && !t.entries[v].hasHandler
  }

  // ---------------------------------------------------------------------
  // Cases that show it

  /** A bus violation pending with a vector of its own word is never handled and
      does not stay pending. */
  lemma DcsnLost()
    ensures var pending := {40, 52}; !Reached(pending, 52) && LeftAt(pending, VECTORS) == {}
  {
    var pending: set<nat> := {40, DCSN};
    assert 40 in pending;
    assert !AnyBelow(pending, 32);
    LeftAtEnd(pending);
  }

  /** With a vector of the first word it is not handled either, but stays. */
  lemma DcsnStays()
    ensures var pending := {3, 52}; !Reached(pending, 52) && LeftAt(pending, VECTORS) == {52}
  {
    var pending: set<nat> := {3, DCSN};
    assert 3 in pending && AnyBelow(pending, 32);
    LeftAtEnd(pending);
  }

  lemma RunLast(ops: seq<Op>, op: Op)
    requires InRange(ops + [op])
    ensures InRange(ops)
    ensures Run(ops + [op]) == Act(Run(ops), op)
  {
    assert (ops + [op])[..|ops|] == ops;
    assert forall o :: o in ops ==> o in ops + [op];
  }

  /** An internal adapter registers vector 45 without a handler
      (saa7231_dvb.c:512-525); its first interrupt faults. */
  lemma InternalAdapterFaults()
    ensures var ops := [Add(45, false)]; InRange(ops) && FaultsAt(Run(ops), {45}, 45)
  {
    RunLast([], Add(45, false));
    assert [] + [Add(45, false)] == [Add(45, false)];
  }

  lemma WordAt(v: nat, w: nat)
    requires 32 * w <= v < 32 * w + 32
    ensures WordOf(v) == w
  {
  }

  /** Taking down the first external adapter's vector disables the second's
      (saa7231_dvb.c:527-539 and 582-593), which stays registered. */
  lemma NeighbourDisabled()
    ensures var ops := [Add(47, true)] + [Add(48, true)] + [Remove(47)];
      InRange(ops) && Run(ops).Registered(48) && 48 !in Run(ops).enabled
  {
    var one, two := [Add(47, true)], [Add(47, true)] + [Add(48, true)];
    assert [] + one == one;
    RunLast([], Add(47, true));
    RunLast(one, Add(48, true));
    RunLast(two, Remove(47));
    WordAt(47, 1);
    WordAt(48, 1);
    assert 48 in Word(Run(two).enabled, WordOf(47));
    assert Run(two).entries[47].hasHandler;
  }

  datatype Outcome =
    | NotOurs
    | Handled(calls: seq<nat>)
    | Fault(calls: seq<nat>, vector: nat)

  /** The edge field of a vector's configuration register. */
  datatype Edge = Rising | Falling | Any {
    function Code(): nat {
      match this
      case Rising => 1
      case Falling => 2
      case Any => 3
    }
  }

  lemma EdgeCodes()
    ensures Rising.Code() == 1 && Falling.Code() == 2 && Any.Code() == 3
  {
  }

  class IrqUnit {
    var entries: seq<Entry>
    var handlers: int
    /** The edge fields, and the enable and pending bits of the hardware. */
    var edges: map<nat, nat>
    var enabled: set<nat>
    var pending: set<nat>

    function State(): Table
      reads this
    {
      Table(entries, enabled, handlers)
    }

    constructor ()
      ensures State() == Run([]) && pending == {} && edges == map[]
    {
      entries := seq(VECTORS, _ => UNUSED);
      handlers, enabled, pending, edges := 0, {}, {}, map[];
    }

    /** saa7231_vector_ctl: the word read, with the bit, to SET or to CLR. */
    method VectorCtl(v: nat, on: bool)
      requires v < VECTORS
      modifies this`enabled
      ensures enabled == if on then old(enabled) + {v} else old(enabled) - Word(old(enabled), WordOf(v))
    {
      var reg := Word(enabled, WordOf(v)) + {v};
      enabled := if on then enabled + reg else enabled - reg;
    }

    /** saa7231_setup_vector: the edge first, then the enable bit. */
    method SetupVector(v: nat, edge: Edge)
      requires v < VECTORS
      modifies this`edges, this`enabled
      ensures edges == old(edges)[v := edge.Code()] && enabled == old(enabled) + {v}
    {
      edges := edges[v := edge.Code()];
      VectorCtl(v, true);
    }

    method AddIrqEvent(v: nat, edge: Edge, hasHandler: bool)
      requires State().Shaped() && v < VECTORS
      modifies this
      ensures State() == old(State()).Add(v, hasHandler) && pending == old(pending)
      ensures edges == old(edges)[v := edge.Code()]
    {
      SetupVector(v, edge);
      entries := entries[v := Entry(v, hasHandler)];
      handlers := handlers + 1;
    }

    method RemoveIrqEvent(v: nat)
      requires State().Shaped() && v < VECTORS
      modifies this
      ensures State() == old(State()).Remove(v) && pending == old(pending) && edges == old(edges)
    {
      if entries[v].hasHandler {
        entries := entries[v := UNUSED];
        handlers := handlers - 1;
        VectorCtl(v, false);
      }
    }

    /** saa7231_irq_handler.  Unless nothing or everything is pending, the
        handlers called are exactly the registered vectors reached, each once
        and in ascending order, up to the first that has no handler to call.
        The DCSN vector alone stays pending when it was skipped for a vector
        of the first word; skipped for one of its own word it is lost. */
    method HandleIrq() returns (outcome: Outcome)
      requires State().Shaped() && forall v :: v in pending ==> v < VECTORS
      modifies this`pending
      ensures outcome == NotOurs <==> old(pending) == {} || (forall v :: 0 <= v < VECTORS ==> v in old(pending))
      ensures outcome == NotOurs ==> pending == old(pending)
      ensures outcome.Handled? ==>
        CalledBelow(State(), old(pending), VECTORS, outcome.calls) &&
        forall v :: v in outcome.calls ==> entries[v].hasHandler
      ensures outcome.Handled? ==>
        pending == set v | v in old(pending) && v == DCSN && AnyBelow(old(pending), 32)
      ensures outcome.Fault? ==>
        outcome.vector < VECTORS && CalledBelow(State(), old(pending), outcome.vector, outcome.calls) &&
        (forall v :: v in outcome.calls ==> entries[v].hasHandler) &&
        FaultsAt(State(), old(pending), outcome.vector)
      ensures outcome.Handled? ==> forall v :: 0 <= v < VECTORS ==> !FaultsAt(State(), old(pending), v)
    {
      var status := pending;
      if status == {} {
        return NotOurs;
      }
      if forall v :: 0 <= v < VECTORS ==> v in status {
        return NotOurs;
      }
      var calls: seq<nat> := [];
      ghost var all := pending;
      var i := 0;
      while i < 4
        invariant 0 <= i <= 4 && SweptTo(all, status, 32 * i, calls)
      {
        var j := 0;
        while j < 32
          invariant 0 <= j <= 32 && SweptTo(all, status, 32 * i + j, calls)
        {
          var vector := 32 * i + j;
          var fault;
          status, calls, fault := OneBit(vector, status, calls, all);
          if fault {
            return Fault(calls, vector);
          }
          j := j + 1;
        }
        i := i + 1;
      }
      LeftAtEnd(all);
      return Handled(calls);
    }

    /** The inner loop's body. */
    method OneBit(vector: nat, status0: set<nat>, calls0: seq<nat>, ghost all: set<nat>)
      returns (status: set<nat>, calls: seq<nat>, fault: bool)
      requires vector < VECTORS && SweptTo(all, status0, vector, calls0)
      modifies this`pending
      ensures !fault ==> SweptTo(all, status, vector + 1, calls)
      ensures fault ==> calls == calls0 && Reached(all, vector) && State().Registered(vector)
      ensures fault ==> !entries[vector].hasHandler
    {
      CallStep(State(), all, vector, calls0);
      StatusStep(all, vector);
      LeftStep(all, vector);
      status, calls, fault := status0, calls0, false;
      if vector in status {
        pending := pending - Word(status, WordOf(vector));
        if DCSN in status {
          status := status - {DCSN};
        }
        if entries[vector].vector == vector {
          if !entries[vector].hasHandler {
            fault := true;
            return;
          }
          calls := calls + [vector];
        }
      }
    }

    /** The handler is past the vectors below n. */
    ghost predicate SweptTo(all: set<nat>, status: set<nat>, n: nat, calls: seq<nat>)
      reads this
    {
      State().Shaped() && status == StatusAt(all, n) && pending == LeftAt(all, n) &&
      CalledBelow(State(), all, n, calls) && forall v :: v in calls ==> v < VECTORS && entries[v].hasHandler
    }
  }
}
