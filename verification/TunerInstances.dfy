/** Sharing of hybrid tuner instances between drivers (tuner-i2c.h). */
module TunerInstances {

  datatype Adapter = Null | Adapter(id: nat)

  /** Addresses an instance can store: one byte. */
  const ADDRESSES: nat := 256

  /** A listed instance; the handle stands for the pointer its users keep. */
  datatype Instance = Instance(handle: nat, adapter: Adapter, addr: nat, count: int) {
    /** The match test of a request: never true for a missing adapter, nor for
        an address wider than the one stored. */
    predicate Serves(a: Adapter, at: nat) {
      a.Adapter? && adapter.Adapter? && adapter.id == a.id && addr == at
    }
  }

  datatype Registry = Registry(list: seq<Instance>, next: nat) {

    /** The first instance from k on that serves the request, or the length. */
    function Find(adapter: Adapter, addr: nat, k: nat): (i: nat)
      requires k <= |list|
      ensures k <= i <= |list|
      ensures forall j :: k <= j < i ==> !list[j].Serves(adapter, addr)
      ensures i < |list| ==> list[i].Serves(adapter, addr)
      decreases |list| - k
    {
      if k == |list| || list[k].Serves(adapter, addr) then k else Find(adapter, addr, k + 1)
    }

    /** An instance is listed for that adapter and address. */
    predicate Has(adapter: Adapter, addr: nat) {
      adapter != Null && exists i :: 0 <= i < |list| && list[i].adapter == adapter && list[i].addr == addr
    }

    predicate Listed(handle: nat) { exists i :: 0 <= i < |list| && list[i].handle == handle }

    /** Where a listed handle stands. */
    function Position(handle: nat, k: nat): (i: nat)
      requires k <= |list| && exists i :: k <= i < |list| && list[i].handle == handle
      ensures k <= i < |list| && list[i].handle == handle
      decreases |list| - k
    {
      if list[k].handle == handle then k else Position(handle, k + 1)
    }

    /** hybrid_tuner_request_state: the registry afterwards, the instance's
        count (0 when the allocation failed) and its handle. */
    function Request(adapter: Adapter, addr: nat, memory: bool): (Registry, int, nat) {
      var i := Find(adapter, addr, 0);
      if i < |list| then
        var s := list[i].(count := list[i].count + 1);
        (this.(list := list[i := s]), s.count, s.handle)
      else if !memory then (this, 0, next)
      else (Registry(list + [Instance(next, adapter, addr % ADDRESSES, 1)], next + 1), 1, next)
    }

    /** hybrid_tuner_release_state */
    function Release(handle: nat): Registry
      requires Listed(handle)
    {
      var i := Position(handle, 0);
      if list[i].count == 1 then this.(list := list[..i] + list[i + 1..])
      else this.(list := list[i := list[i].(count := list[i].count - 1)])
    }
  }

  // ---------------------------------------------------------------------
  // Runs of requests and releases

  /** The registry, and how often each handle has been granted and not yet
      given back. */
  datatype World = World(registry: Registry, holds: multiset<nat>) {

    ghost predicate Counted() {
      && (forall i :: 0 <= i < |registry.list| ==> CountedAt(i))
      && (forall h :: h in holds ==> registry.Listed(h))
    }

    ghost predicate CountedAt(i: nat)
      requires i < |registry.list|
    {
      var s := registry.list[i];
      s.handle < registry.next && s.addr < ADDRESSES && s.count > 0 && s.count == holds[s.handle]
    }

    /** No two listed instances have a handle in common. */
    ghost predicate Apart() {
      forall i, j :: 0 <= i < j < |registry.list| ==> ApartAt(i, j)
    }

    ghost predicate ApartAt(i: nat, j: nat)
      requires i < |registry.list| && j < |registry.list|
    {
      registry.list[i].handle != registry.list[j].handle
    }

    ghost predicate Inv() { Counted() && Apart() }

    /** No two listed instances are for one device. */
    ghost predicate Unshared() {
      forall i, j :: 0 <= i < j < |registry.list| ==> UnsharedAt(i, j)
    }

    ghost predicate UnsharedAt(i: nat, j: nat)
      requires i < |registry.list| && j < |registry.list|
    {
      !registry.list[i].Serves(registry.list[j].adapter, registry.list[j].addr)
    }
  }

  lemma EitherOrder(w: World, i: nat, j: nat)
    requires w.Apart() && i < |w.registry.list| && j < |w.registry.list| && i != j
    ensures w.ApartAt(i, j) && w.ApartAt(j, i)
  {
    assert w.ApartAt(if i < j then i else j, if i < j then j else i);
  }

  const START := World(Registry([], 0), multiset{})

  datatype Op = Request(adapter: Adapter, addr: nat, memory: bool) | Release(handle: nat)

  /** Only a handle somebody holds may be given back. */
  predicate Enabled(w: World, op: Op) { op.Release? ==> op.handle in w.holds }

  function AfterRequest(w: World, adapter: Adapter, addr: nat, memory: bool): World {
    var (r, ret, handle) := w.registry.Request(adapter, addr, memory);
    World(r, if ret > 0 then w.holds + multiset{handle} else w.holds)
  }

  function AfterRelease(w: World, handle: nat): World
    requires w.registry.Listed(handle)
  {
    World(w.registry.Release(handle), w.holds - multiset{handle})
  }

  lemma RequestKeeps(w: World, adapter: Adapter, addr: nat, memory: bool)
    requires w.Inv()
    ensures AfterRequest(w, adapter, addr, memory).Inv()
  {
    var i := w.registry.Find(adapter, addr, 0);
    var w' := AfterRequest(w, adapter, addr, memory);
    var a, b := w.registry.list, w'.registry.list;
    if i < |a| {
      assert w.CountedAt(i);
      assert forall k :: 0 <= k < |a| ==> b[k].handle == a[k].handle;
      forall k | 0 <= k < |b| ensures w'.CountedAt(k) {
        assert w.CountedAt(k);
        if k != i {
          EitherOrder(w, k, i);
        }
      }
      ApartCarries(w, w');
      forall h | h in w'.holds ensures w'.registry.Listed(h) {
        ListedCarries(w, w', h, a[i].handle);
      }
    } else if memory {
      Granted(w, w', adapter, addr);
    }
  }

  /** A new instance joins at the end under a handle nobody holds. */
  lemma Granted(w: World, w': World, adapter: Adapter, addr: nat)
    requires w.Inv()
    requires var more := [Instance(w.registry.next, adapter, addr % ADDRESSES, 1)];
      w' == World(Registry(w.registry.list + more, w.registry.next + 1), w.holds + multiset{w.registry.next})
    ensures w'.Inv()
  {
    var a, b := w.registry.list, w'.registry.list;
    forall k | 0 <= k < |a| ensures a[k].handle < w.registry.next {
      assert w.CountedAt(k);
    }
    assert w.registry.next !in w.holds;
    forall k | 0 <= k < |b| ensures w'.CountedAt(k) {
      assert k < |a| ==> b[k] == a[k] && w.CountedAt(k);
    }
    forall k, l | 0 <= k < l < |b| ensures w'.ApartAt(k, l) {
      assert b[k] == a[k] && w.CountedAt(k);
      assert l < |a| ==> w.ApartAt(k, l) && b[l] == a[l];
    }
    forall h | h in w'.holds ensures w'.registry.Listed(h) {
      assert b[|a|].handle == w.registry.next;
      if h in w.holds {
        var k :| 0 <= k < |a| && a[k].handle == h;
        assert b[k].handle == h;
      }
    }
  }

  /** Only counts differ between the two lists. */
  ghost predicate SameDevices(a: seq<Instance>, b: seq<Instance>) {
    |a| == |b| && forall k :: 0 <= k < |a| ==> a[k].(count := 0) == b[k].(count := 0)
  }

  lemma ApartCarries(w: World, w': World)
    requires w.Apart() && SameDevices(w.registry.list, w'.registry.list)
    ensures w'.Apart()
  {
    var a, b := w.registry.list, w'.registry.list;
    forall k, l | 0 <= k < l < |b| ensures w'.ApartAt(k, l) {
      assert w.ApartAt(k, l);
      assert a[k].(count := 0) == b[k].(count := 0) && a[l].(count := 0) == b[l].(count := 0);
    }
  }

  lemma ListedCarries(w: World, w': World, h: nat, known: nat)
    requires SameDevices(w.registry.list, w'.registry.list)
    requires h == known || h in w.holds
    requires w.registry.Listed(known) && (h in w.holds ==> w.registry.Listed(h))
    ensures w'.registry.Listed(h)
  {
    var k :| 0 <= k < |w.registry.list| && w.registry.list[k].handle == h;
    assert w.registry.list[k].(count := 0) == w'.registry.list[k].(count := 0);
  }

  lemma ReleaseKeeps(w: World, handle: nat)
    requires w.Inv() && handle in w.holds
    ensures AfterRelease(w, handle).Inv()
  {
    var w' := AfterRelease(w, handle);
    var a, b := w.registry.list, w'.registry.list;
    var i := w.registry.Position(handle, 0);
    assert w.CountedAt(i);
    if a[i].count == 1 {
      Dropped(w, w', i);
    } else {
      forall k | 0 <= k < |b| ensures w'.CountedAt(k) {
        assert w.CountedAt(k);
        if k != i {
          EitherOrder(w, k, i);
        }
      }
      ApartCarries(w, w');
      forall h | h in w'.holds ensures w'.registry.Listed(h) {
        ListedCarries(w, w', h, handle);
      }
    }
  }

  /** The last hold given back takes the instance off the list. */
  lemma Dropped(w: World, w': World, i: nat)
    requires w.Inv() && i < |w.registry.list| && w.registry.list[i].count == 1
    requires w' == World(w.registry.(list := w.registry.list[..i] + w.registry.list[i + 1..]),
                         w.holds - multiset{w.registry.list[i].handle})
    ensures w'.Inv()
  {
    var a, b := w.registry.list, w'.registry.list;
    forall k | 0 <= k < |b| ensures w'.CountedAt(k) {
      var from := if k < i then k else k + 1;
      assert b[k] == a[from] && w.CountedAt(from);
      assert k < i ==> w.ApartAt(k, i);
      assert k >= i ==> w.ApartAt(i, k + 1);
    }
    forall k, l | 0 <= k < l < |b| ensures w'.ApartAt(k, l) {
      var from, to := if k < i then k else k + 1, if l < i then l else l + 1;
      assert b[k] == a[from] && b[l] == a[to] && w.ApartAt(from, to);
    }
    forall h | h in w'.holds ensures w'.registry.Listed(h) {
      var k :| 0 <= k < |a| && a[k].handle == h;
      assert w.CountedAt(i) && w.CountedAt(k);
      assert k != i;
      assert b[if k < i then k else k - 1] == a[k];
    }
  }

  /** A request for an address that can be stored keeps devices apart. */
  lemma RequestUnshared(w: World, adapter: Adapter, addr: nat, memory: bool)
    requires w.Unshared() && addr < ADDRESSES
    ensures AfterRequest(w, adapter, addr, memory).Unshared()
  {
    var i := w.registry.Find(adapter, addr, 0);
    var w' := AfterRequest(w, adapter, addr, memory);
    var a, b := w.registry.list, w'.registry.list;
    forall k, l | 0 <= k < l < |b| ensures w'.UnsharedAt(k, l) {
      assert l < |a| ==> w.UnsharedAt(k, l);
      assert b[k].(count := 0) == a[k].(count := 0);
      if i < |a| {
        assert b[l].(count := 0) == a[l].(count := 0);
      }
    }
  }

  lemma ReleaseUnshared(w: World, handle: nat)
    requires w.Unshared() && w.registry.Listed(handle)
    ensures AfterRelease(w, handle).Unshared()
  {
    var w' := AfterRelease(w, handle);
    var i := w.registry.Position(handle, 0);
    var a, b := w.registry.list, w'.registry.list;
    forall k, l | 0 <= k < l < |b| ensures w'.UnsharedAt(k, l) {
      var gone := a[i].count == 1;
      var k', l' := if gone && k >= i then k + 1 else k, if gone && l >= i then l + 1 else l;
      assert w.UnsharedAt(k', l');
      assert b[k].(count := 0) == a[k'].(count := 0) && b[l].(count := 0) == a[l'].(count := 0);
    }
  }

  function Step(w: World, op: Op): (w': World)
    requires w.Inv() && Enabled(w, op)
    ensures w'.Inv()
  {
    match op
    case Request(adapter, addr, memory) =>
      RequestKeeps(w, adapter, addr, memory);
      AfterRequest(w, adapter, addr, memory)
    case Release(handle) =>
      ReleaseKeeps(w, handle);
      AfterRelease(w, handle)
  }

  /** Each op is enabled when its turn comes. */
  ghost predicate Allowed(w: World, ops: seq<Op>)
    requires w.Inv()
    decreases |ops|
  {
    ops == [] || (Enabled(w, ops[0]) && Allowed(Step(w, ops[0]), ops[1..]))
  }

  ghost function Run(w: World, ops: seq<Op>): (w': World)
    requires w.Inv() && Allowed(w, ops)
    ensures w'.Inv()
    decreases |ops|
  {
    if ops == [] then w else Run(Step(w, ops[0]), ops[1..])
  }

  /** Every request of a run is for an address that can be stored. */
  predicate Narrow(ops: seq<Op>) { forall op :: op in ops && op.Request? ==> op.addr < ADDRESSES }

  lemma {:induction false} RunUnshared(w: World, ops: seq<Op>)
    requires w.Inv() && w.Unshared() && Allowed(w, ops) && Narrow(ops)
    ensures Run(w, ops).Unshared()
    decreases |ops|
  {
    if ops != [] {
      match ops[0] {
        case Request(adapter, addr, memory) => RequestUnshared(w, adapter, addr, memory);
        case Release(handle) => ReleaseUnshared(w, handle);
      }
      RunUnshared(Step(w, ops[0]), ops[1..]);
    }
  }

  /** Over every run an instance is listed exactly while somebody holds it, and
      counts its holds. */
  lemma ListedWhileHeld(ops: seq<Op>)
    requires Allowed(START, ops)
    ensures var w := Run(START, ops);
      && (forall h :: w.registry.Listed(h) <==> w.holds[h] > 0)
      && (forall s :: s in w.registry.list ==> s.count == w.holds[s.handle])
  {
    var w := Run(START, ops);
    var a := w.registry.list;
    forall h | w.registry.Listed(h) ensures w.holds[h] > 0 {
      var k :| 0 <= k < |a| && a[k].handle == h;
      assert w.CountedAt(k);
    }
    forall s | s in a ensures s.count == w.holds[s.handle] {
      var k :| 0 <= k < |a| && a[k] == s;
      assert w.CountedAt(k);
    }
  }

  /** Over every run of requests for addresses of one byte, requests without an
      adapter included, an instance is the only one for its adapter and
      address. */
  lemma OneInstancePerDevice(ops: seq<Op>)
    requires Allowed(START, ops) && Narrow(ops)
    ensures var w := Run(START, ops);
      forall s, t :: s in w.registry.list && t in w.registry.list ==>
        (s.adapter == t.adapter && s.adapter != Null && s.addr == t.addr ==> s == t)
  {
    RunUnshared(START, ops);
    var w := Run(START, ops);
    var a := w.registry.list;
    forall s, t | s in a && t in a && s.adapter == t.adapter && s.adapter != Null && s.addr == t.addr
      ensures s == t
    {
      var k :| 0 <= k < |a| && a[k] == s;
      var l :| 0 <= l < |a| && a[l] == t;
      if k != l {
        UnsharedEither(w, k, l);
      }
    }
  }

  lemma UnsharedEither(w: World, i: nat, j: nat)
    requires w.Unshared() && i < |w.registry.list| && j < |w.registry.list| && i != j
    ensures w.UnsharedAt(i, j) && w.UnsharedAt(j, i)
  {
    assert w.UnsharedAt(if i < j then i else j, if i < j then j else i);
  }

  /** What a request returns is the number of holds on the instance it grants,
      its own included; it fails exactly when nothing serves and no memory is
      left. */
  lemma RequestReturnsHolds(w: World, adapter: Adapter, addr: nat, memory: bool)
    requires w.Inv()
    ensures var (r, ret, handle) := w.registry.Request(adapter, addr, memory);
      && (ret == 0 <==> !memory && !w.registry.Has(adapter, addr))
      && (ret > 0 ==> ret == AfterRequest(w, adapter, addr, memory).holds[handle])
  {
    var i := w.registry.Find(adapter, addr, 0);
    var (r, ret, handle) := w.registry.Request(adapter, addr, memory);
    if i < |w.registry.list| {
      assert w.CountedAt(i) && w.registry.list[i] in w.registry.list;
    } else if memory {
      RequestKeeps(w, adapter, addr, memory);
      var w' := AfterRequest(w, adapter, addr, memory);
      assert w'.CountedAt(|w.registry.list|);
    }
  }

  /** What is granted is listed for the adapter asked for and the address cut to
      its byte; nothing joins the list where there was one already, and the
      others stay. */
  lemma RequestGrants(w: World, adapter: Adapter, addr: nat, memory: bool)
    requires w.Inv()
    ensures var (r, ret, handle) := w.registry.Request(adapter, addr, memory);
      && (ret > 0 ==> Instance(handle, adapter, addr % 256, ret) in r.list)
      && (w.registry.Has(adapter, addr) ==> ret > 0 && |r.list| == |w.registry.list| && w.registry.Listed(handle))
      && (!w.registry.Has(adapter, addr) ==>
            (!w.registry.Listed(handle) &&
             r.list == w.registry.list + if memory then [Instance(handle, adapter, addr % 256, 1)] else []))
      && forall k :: 0 <= k < |w.registry.list| && w.registry.list[k].handle != handle ==>
        r.list[k] == w.registry.list[k]
  {
    var a := w.registry.list;
    var i := w.registry.Find(adapter, addr, 0);
    var (r, ret, handle) := w.registry.Request(adapter, addr, memory);
    if i < |a| {
      assert w.CountedAt(i) && a[i].adapter == adapter && a[i].addr == addr;
      assert r.list[i] == Instance(handle, adapter, addr % 256, ret);
    } else {
      forall k | 0 <= k < |a|
        ensures a[k].handle != handle && !(adapter != Null && a[k].adapter == adapter && a[k].addr == addr)
      {
        assert w.CountedAt(k) && !a[k].Serves(adapter, addr);
      }
      assert memory ==> r.list[|a|] == Instance(handle, adapter, addr % 256, ret);
    }
  }

  /** Giving back what was just granted restores the list and the holds. */
  lemma ReleaseUndoesRequest(w: World, adapter: Adapter, addr: nat, memory: bool)
    requires w.Inv() && w.registry.Request(adapter, addr, memory).1 > 0
    ensures var handle, w' := w.registry.Request(adapter, addr, memory).2, AfterRequest(w, adapter, addr, memory);
      && w'.registry.Listed(handle)
      && AfterRelease(w', handle).registry.list == w.registry.list
      && AfterRelease(w', handle).holds == w.holds
  {
    RequestKeeps(w, adapter, addr, memory);
    var handle, w' := w.registry.Request(adapter, addr, memory).2, AfterRequest(w, adapter, addr, memory);
    var i := w.registry.Find(adapter, addr, 0);
    assert w'.registry.list[i].handle == handle;
    var p := w'.registry.Position(handle, 0);
    if p != i {
      EitherOrder(w', p, i);
    }
    assert w'.CountedAt(i);
    if i < |w.registry.list| {
      assert w.CountedAt(i);
      assert AfterRelease(w', handle).registry.list == w.registry.list;
    } else {
      assert w'.registry.list[..i] == w.registry.list && w'.registry.list[i + 1..] == [];
    }
  }

  /** A granted instance is the only one with its adapter and stored address
      exactly when the request had an adapter and an address that can be stored,
      or there was none such before: other requests never share. */
  lemma AloneIff(w: World, adapter: Adapter, addr: nat)
    requires w.Inv() && w.Unshared()
    ensures var (r, ret, handle) := w.registry.Request(adapter, addr, true);
      (forall s :: s in r.list && s.adapter == adapter && s.addr == addr % ADDRESSES ==> s.handle == handle) <==>
      ((adapter.Adapter? && addr < ADDRESSES) ||
       forall s :: s in w.registry.list && s.addr == addr % ADDRESSES ==> s.adapter != adapter)
  {
    RequestKeeps(w, adapter, addr, true);
    var w' := AfterRequest(w, adapter, addr, true);
    var (r, ret, handle) := w.registry.Request(adapter, addr, true);
    var i := w.registry.Find(adapter, addr, 0);
    assert r.list[i].handle == handle;
    if adapter.Adapter? && addr < ADDRESSES {
      RequestUnshared(w, adapter, addr, true);
      forall s | s in r.list && s.adapter == adapter && s.addr == addr ensures s.handle == handle {
        var k :| 0 <= k < |r.list| && r.list[k] == s;
        if k != i {
          UnsharedEither(w', k, i);
        }
      }
    } else {
      forall k | 0 <= k < |w.registry.list|
        ensures !w.registry.list[k].Serves(adapter, addr) && w.registry.list[k].handle < w.registry.next
      {
        assert w.CountedAt(k);
      }
      assert handle == w.registry.next && r.list == w.registry.list + [r.list[|w.registry.list|]];
    }
  }

  /** Nor do two requests for one address that does not fit its byte. */
  lemma WideNeverShares(adapter: Adapter, addr: nat)
    requires addr >= ADDRESSES
    ensures var one := AfterRequest(START, adapter, addr, true);
      var two := AfterRequest(one, adapter, addr, true);
      two.registry.list == [Instance(0, adapter, addr % ADDRESSES, 1), Instance(1, adapter, addr % ADDRESSES, 1)]
  {
    var one := AfterRequest(START, adapter, addr, true);
    assert one.registry.list == [Instance(0, adapter, addr % ADDRESSES, 1)];
    assert one.registry.Find(adapter, addr, 0) == 1;
  }

  /** Two requests without an adapter end with two instances for one address. */
  lemma NullNeverShares(addr: nat)
    ensures var one := AfterRequest(START, Null, addr, true);
      var two := AfterRequest(one, Null, addr, true);
      two.registry.list == [Instance(0, Null, addr % ADDRESSES, 1), Instance(1, Null, addr % ADDRESSES, 1)]
  {
    var one := AfterRequest(START, Null, addr, true);
    assert one.registry.list == [Instance(0, Null, addr % ADDRESSES, 1)];
    assert one.registry.Find(Null, addr, 0) == 1;
  }

  // ---------------------------------------------------------------------

  class TunerList {
    var list: seq<Instance>
    var next: nat

    function State(): Registry
      reads this
    {
      Registry(list, next)
    }

    constructor ()
      ensures State() == START.registry
    {
      list, next := [], 0;
    }

    /** hybrid_tuner_request_state; no handle when the allocation failed. */
    method Request(adapter: Adapter, addr: nat, memory: bool) returns (ret: int, handle: nat)
      modifies this
      ensures (State(), ret, handle) == old(State()).Request(adapter, addr, memory)
    {
      ret := 0;
      handle := next;
      var i := 0;
      while i < |list|
        invariant 0 <= i <= |list| && State() == old(State())
        invariant State().Find(adapter, addr, 0) == State().Find(adapter, addr, i)
      {
        if list[i].Serves(adapter, addr) {
          list := list[i := list[i].(count := list[i].count + 1)];
          return list[i].count, list[i].handle;
        }
        i := i + 1;
      }
      if !memory {
        return;
      }
      list := list + [Instance(next, adapter, addr % ADDRESSES, 1)];
      next := next + 1;
      ret := 1;
    }

    /** hybrid_tuner_release_state */
    method Release(handle: nat) returns (ret: int)
      requires State().Listed(handle)
      modifies this`list
      ensures State() == old(State()).Release(handle)
      ensures ret + 1 == old(list[State().Position(handle, 0)].count)
    {
      var i := State().Position(handle, 0);
      list := list[i := list[i].(count := list[i].count - 1)];
      ret := list[i].count;
      if ret == 0 {
        list := list[..i] + list[i + 1..];
      }
    }
  }
}
