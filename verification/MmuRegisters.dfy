/** Page-table-address registers of the MMU (saa7231_mmu_reg.h) and the packed
    DMA addresses of saa7231_dtl.h. */
module MmuRegisters {
  import opened Arithmetic
  import opened Basics

  const MMU_DMA_CONFIG_BASE: nat := 0x80
  const MMU_PTA_BASE: nat := 0x400
  const MMU_PTA_OFFSET: nat := 0x40

  /** Register slots of one channel that belong to that channel alone. */
  const SLOTS: nat := 8

  /** From channel 224 on, MMU_DMA_CONFIG would run into the slot registers. */
  const CHANNELS: nat := 224

  datatype Half = Lsb | Msb

  function DmaChannel(port: nat): nat { port + 1 }

  function DmaConfig(ch: nat): nat { MMU_DMA_CONFIG_BASE + 4 * ch }

  function PtaBase(ch: nat): nat { MMU_PTA_BASE + MMU_PTA_OFFSET * ch }

  /** MMU_PTA(half, slot, ch), the form the interrupt handler uses. */
  function MmuPta(half: Half, slot: nat, ch: nat): nat {
    PtaBase(ch) + slot * 8 + (if half == Lsb then 0 else 4)
  }

  /** Offsets of the named macros MMU_PTA0_LSB .. MMU_PTA15_LSB, the form used
      when a session starts. */
  const PTA_LSB_OFFSETS: seq<nat> :=
    [0x00, 0x08, 0x10, 0x18, 0x20, 0x28, 0x30, 0x38, 0x40, 0x48, 0x50, 0x58, 0x60, 0x68, 0x70, 0x78]
  const PTA_MSB_OFFSETS: seq<nat> :=
    [0x04, 0x0c, 0x14, 0x1c, 0x24, 0x2c, 0x34, 0x3c, 0x44, 0x4c, 0x54, 0x5c, 0x64, 0x6c, 0x74, 0x7c]

  function MmuPtaNamed(half: Half, slot: nat, ch: nat): nat
    requires slot < 16
  {
    PtaBase(ch) + (if half == Lsb then PTA_LSB_OFFSETS[slot] else PTA_MSB_OFFSETS[slot])
  }

  /** Both ways of addressing a slot register agree. */
  lemma NamedMacrosAgree(half: Half, slot: nat, ch: nat)
    requires slot < 16
    ensures MmuPtaNamed(half, slot, ch) == MmuPta(half, slot, ch)
  {
    assert PTA_LSB_OFFSETS[slot] == slot * 8 && PTA_MSB_OFFSETS[slot] == slot * 8 + 4;
  }

  /** Exactly which registers coincide: slot 8 of a channel is slot 0 of the
      next one, so only slots below 8 are private to their channel. */
  lemma PtaCollisionIff(h: Half, i: nat, c: nat, h': Half, i': nat, c': nat)
    ensures MmuPta(h, i, c) == MmuPta(h', i', c') <==> h == h' && 8 * c + i == 8 * c' + i'
    ensures i < SLOTS && i' < SLOTS ==>
      (MmuPta(h, i, c) == MmuPta(h', i', c') <==> h == h' && i == i' && c == c')
  {
    var x, x' := 8 * c + i, 8 * c' + i';
    assert MmuPta(h, i, c) == MMU_PTA_BASE + 8 * x + (if h == Lsb then 0 else 4);
    assert MmuPta(h', i', c') == MMU_PTA_BASE + 8 * x' + (if h' == Lsb then 0 else 4);
  }

  // ---------------------------------------------------------------------
  // The register file

  /** The 64-bit page-table base a slot holds. */
  function SlotBase(r: Registers, ch: nat, slot: nat): nat {
    Reg(r, MmuPta(Lsb, slot, ch)) + Reg(r, MmuPta(Msb, slot, ch)) * U32
  }

  /** One register write of a channel. */
  datatype MmuWrite =
    | SlotWrite(ch: nat, slot: nat, half: Half, value: nat)
    | ConfigWrite(ch: nat, value: nat)
  {
    function Address(): nat { if SlotWrite? then MmuPta(half, slot, ch) else DmaConfig(ch) }

    /** Private slots, and channels whose configuration register lies below
        the slot registers. */
    predicate InRange() { ch < CHANNELS && (SlotWrite? ==> slot < SLOTS) }
  }

  /** The two writes that put a page-table base into a slot. */
  function SlotPair(ch: nat, slot: nat, base: nat): seq<MmuWrite> {
    [SlotWrite(ch, slot, Lsb, base % U32), SlotWrite(ch, slot, Msb, base / U32)]
  }

  function Apply(r: Registers, w: MmuWrite): Registers { r[w.Address() := w.value] }

  function ApplyAll(r: Registers, ws: seq<MmuWrite>): Registers
    decreases |ws|
  {
    if ws == [] then r else ApplyAll(Apply(r, ws[0]), ws[1..])
  }

  lemma {:induction false} ApplyTwoLists(r: Registers, ws: seq<MmuWrite>, ws': seq<MmuWrite>)
    ensures ApplyAll(r, ws + ws') == ApplyAll(ApplyAll(r, ws), ws')
    decreases |ws|
  {
    if ws == [] {
      assert ws + ws' == ws';
    } else {
      assert (ws + ws')[1..] == ws[1..] + ws';
      ApplyTwoLists(Apply(r, ws[0]), ws[1..], ws');
    }
  }

  lemma ApplyPair(r: Registers, ch: nat, slot: nat, base: nat)
    ensures ApplyAll(r, SlotPair(ch, slot, base))
         == r[MmuPta(Lsb, slot, ch) := base % U32][MmuPta(Msb, slot, ch) := base / U32]
  {
    var ws := SlotPair(ch, slot, base);
    assert ws[1..] == [ws[1]] && ws[1..][1..] == [];
    assert ApplyAll(Apply(r, ws[0]), [ws[1]]) == ApplyAll(Apply(Apply(r, ws[0]), ws[1]), []);
  }

  /** A write moves its own register and no other slot half of any channel. */
  lemma HalfAfterWrite(r: Registers, w: MmuWrite, ch: nat, slot: nat, half: Half)
    requires w.InRange() && ch < CHANNELS && slot < SLOTS
    ensures Reg(Apply(r, w), MmuPta(half, slot, ch))
         == if w.SlotWrite? && w.ch == ch && w.slot == slot && w.half == half then w.value
            else Reg(r, MmuPta(half, slot, ch))
  {
    if w.SlotWrite? {
      PtaCollisionIff(half, slot, ch, w.half, w.slot, w.ch);
    }
  }

  /** A pair reads back whole, and no other slot of any channel moves. */
  lemma SlotAfterPair(r: Registers, ch: nat, slot: nat, base: nat, ch': nat, slot': nat)
    requires ch < CHANNELS && ch' < CHANNELS && slot < SLOTS && slot' < SLOTS
    ensures SlotBase(ApplyAll(r, SlotPair(ch, slot, base)), ch', slot')
         == if ch == ch' && slot == slot' then base else SlotBase(r, ch', slot')
  {
    var ws := SlotPair(ch, slot, base);
    ApplyPair(r, ch, slot, base);
    HalfAfterWrite(r, ws[0], ch', slot', Lsb);
    HalfAfterWrite(r, ws[0], ch', slot', Msb);
    HalfAfterWrite(Apply(r, ws[0]), ws[1], ch', slot', Lsb);
    HalfAfterWrite(Apply(r, ws[0]), ws[1], ch', slot', Msb);
    assert base == base % U32 + base / U32 * U32;
  }

  function OnChannel(ws: seq<MmuWrite>, ch: nat): seq<MmuWrite> {
    if ws == [] then []
    else (if ws[0].ch == ch then [ws[0]] else []) + OnChannel(ws[1..], ch)
  }

  ghost predicate SameSlots(r: Registers, r': Registers, ch: nat) {
    forall slot :: 0 <= slot < SLOTS ==> SameSlot(r, r', ch, slot)
  }

  ghost predicate SameSlot(r: Registers, r': Registers, ch: nat, slot: nat) {
    Reg(r, MmuPta(Lsb, slot, ch)) == Reg(r', MmuPta(Lsb, slot, ch)) &&
    Reg(r, MmuPta(Msb, slot, ch)) == Reg(r', MmuPta(Msb, slot, ch))
  }

  /** However the register writes of several channels interleave, each
      channel's eight slots end as if only its own writes had been made. */
  lemma {:induction false} ChannelsIndependent(r: Registers, r': Registers, ws: seq<MmuWrite>, ch: nat)
    requires ch < CHANNELS && SameSlots(r, r', ch)
    requires forall w :: w in ws ==> w.InRange()
    ensures SameSlots(ApplyAll(r, ws), ApplyAll(r', OnChannel(ws, ch)), ch)
    decreases |ws|
  {
    if ws != [] {
      var w := ws[0];
      var own := OnChannel(ws, ch);
      var after, after' := Apply(r, w), if w.ch == ch then Apply(r', w) else r';
      forall slot | 0 <= slot < SLOTS
        ensures SameSlot(after, after', ch, slot)
      {
        assert SameSlot(r, r', ch, slot);
        HalfAfterWrite(r, w, ch, slot, Lsb);
        HalfAfterWrite(r, w, ch, slot, Msb);
        HalfAfterWrite(r', w, ch, slot, Lsb);
        HalfAfterWrite(r', w, ch, slot, Msb);
      }
      if w.ch == ch {
        assert own[0] == w && own[1..] == OnChannel(ws[1..], ch);
        ChannelsIndependent(Apply(r, w), Apply(r', w), ws[1..], ch);
      } else {
        assert own == OnChannel(ws[1..], ch);
        ChannelsIndependent(Apply(r, w), r', ws[1..], ch);
      }
    }
  }

  /** The writes of `ws` are those of two lists, each in its own order. */
  ghost predicate Interleaves(ws: seq<MmuWrite>, a: seq<MmuWrite>, b: seq<MmuWrite>)
    decreases |ws|
  {
    if ws == [] then a == b == []
    else
      (a != [] && a[0] == ws[0] && Interleaves(ws[1..], a[1..], b)) ||
      (b != [] && b[0] == ws[0] && Interleaves(ws[1..], a, b[1..]))
  }

  ghost predicate AllOn(ws: seq<MmuWrite>, ch: nat) { forall w :: w in ws ==> w.ch == ch && w.InRange() }

  lemma {:induction false} OwnPart(ws: seq<MmuWrite>, a: seq<MmuWrite>, b: seq<MmuWrite>, ch: nat, ch': nat)
    requires Interleaves(ws, a, b) && AllOn(a, ch) && AllOn(b, ch') && ch != ch'
    ensures OnChannel(ws, ch) == a && OnChannel(ws, ch') == b && forall w :: w in ws ==> w.InRange()
    decreases |ws|
  {
    if ws != [] {
      if a != [] && a[0] == ws[0] && Interleaves(ws[1..], a[1..], b) {
        OwnPart(ws[1..], a[1..], b, ch, ch');
      } else {
        OwnPart(ws[1..], a, b[1..], ch, ch');
      }
    }
  }

  /** Two handlers on different channels, interleaved at any register write:
      each channel's slots end as its own handler alone would leave them. */
  lemma HandlersApart(r: Registers, ws: seq<MmuWrite>, a: seq<MmuWrite>, b: seq<MmuWrite>, ch: nat, ch': nat)
    requires Interleaves(ws, a, b) && AllOn(a, ch) && AllOn(b, ch') && ch != ch' && ch < CHANNELS && ch' < CHANNELS
    ensures SameSlots(ApplyAll(r, ws), ApplyAll(r, a), ch) && SameSlots(ApplyAll(r, ws), ApplyAll(r, b), ch')
  {
    OwnPart(ws, a, b, ch, ch');
    ChannelsIndependent(r, r, ws, ch);
    ChannelsIndependent(r, r, ws, ch');
  }

  // ---------------------------------------------------------------------
  // Packed DMA addresses

  function DmaAddr(tc: bv32, port: bv32, index: bv32, offset: bv32): bv32 {
    (tc << 29) | (index << 26) | ((port + 1) << 21) | offset
  }

  function IndexOf(address: bv32): bv32 { (address & 0x1c00_0000) >> 26 }

  /** INDEX recovers the slot DMAADDR packed, and the other three fields are
      kept apart from it as well. */
  lemma DmaAddrFields(tc: bv32, port: bv32, index: bv32, offset: bv32)
    requires tc < 8 && index < 8 && port < 31 && offset < 0x20_0000
    ensures var a := DmaAddr(tc, port, index, offset);
      IndexOf(a) == index && a >> 29 == tc && (a >> 21) & 0x1f == port + 1 && a & 0x1f_ffff == offset
  {
    var a := DmaAddr(tc, port, index, offset);
    assert (tc << 29) & 0x1fff_ffff == 0 && (index << 26) & 0xe3ff_ffff == 0;
    assert ((port + 1) << 21) & 0xfc1f_ffff == 0 && offset & 0xffe0_0000 == 0;
  }

  /** The channel packed into a DMA address is the one whose slots the port's
      stream programs. */
  lemma PackedChannel(tc: bv32, port: bv32, index: bv32, offset: bv32, slot: nat, half: Half)
    requires tc < 8 && index < 8 && port < 31 && offset < 0x20_0000
    ensures var ch := ((DmaAddr(tc, port, index, offset) >> 21) & 0x1f) as nat;
      ch == DmaChannel(port as nat) &&
      MmuPta(half, slot, ch) == 0x400 + 0x40 * (port as nat + 1) + 8 * slot + (if half == Lsb then 0 else 4)
  {
    DmaAddrFields(tc, port, index, offset);
    Successor(port);
  }

  lemma Successor(b: bv32)
    requires b < 31
    ensures (b + 1) as nat == b as nat + 1
  {
  }
}
