/** Intermediate-frequency programming of the LGS8GXX demodulator and its
    read-back through the AFC phase (lgs8gxx.c). */
module IfFrequency {
  import opened Arithmetic
  import opened Basics
  import opened Lgs8gxx

  /** Four byte registers, least significant first. */
  function Word(r: Registers, base: nat): nat {
    Reg(r, base) + 0x100 * Reg(r, base + 1) + 0x1_0000 * Reg(r, base + 2) + 0x100_0000 * Reg(r, base + 3)
  }

  predicate Bytes(r: Registers, base: nat) {
    Reg(r, base) < 0x100 && Reg(r, base + 1) < 0x100 && Reg(r, base + 2) < 0x100 && Reg(r, base + 3) < 0x100
  }

  /** The 32-bit phase increment: the fraction f / clk of the clock, as the
      64-bit shift, divide and truncation compute it. */
  function Phase(f: nat, clk: nat): nat {
    if f == 0 then 0 else if clk == 0 then (f * U32) % U32 else (f * U32 / clk) % U32
  }

  /** What the AFC path makes of a phase. */
  function AfcKhz(phase: nat, clk: nat): nat { phase * clk / U32 }

  lemma BytesOfWord(v: nat)
    requires v < U32
    ensures v == v % 0x100 + 0x100 * (v / 0x100 % 0x100) + 0x1_0000 * (v / 0x1_0000 % 0x100)
               + 0x100_0000 * (v / 0x100_0000 % 0x100)
  {
  }

  /** The top i of four byte registers as one number. */
  function TopBytes(r: Registers, base: nat, i: nat): nat
    requires i <= 4
  {
    if i == 0 then 0 else TopBytes(r, base, i - 1) * 0x100 + Reg(r, base + 4 - i)
  }

  lemma TopBytesFit(r: Registers, base: nat, i: nat)
    requires Bytes(r, base) && i <= 3
    ensures TopBytes(r, base, i) * 0x100 % U32 == TopBytes(r, base, i) * 0x100
  {
    assert TopBytes(r, base, 1) < 0x100;
    assert TopBytes(r, base, 2) < 0x1_0000;
    assert TopBytes(r, base, 3) < 0x100_0000;
    ModBelowTwice(TopBytes(r, base, i) * 0x100, U32);
  }

  lemma TopBytesWhole(r: Registers, base: nat)
    ensures TopBytes(r, base, 4) == Word(r, base)
  {
    assert TopBytes(r, base, 1) == Reg(r, base + 3);
    assert TopBytes(r, base, 2) == TopBytes(r, base, 1) * 0x100 + Reg(r, base + 2);
    assert TopBytes(r, base, 3) == TopBytes(r, base, 2) * 0x100 + Reg(r, base + 1);
  }

  class FrequencyUnit {
    const prod: Product
    const ifClk: nat
    var regs: Registers

    constructor (prod: Product, ifClk: nat)
      ensures this.prod == prod && this.ifClk == ifClk && regs == map[]
    {
      this.prod, this.ifClk, regs := prod, ifClk, map[];
    }

    method WriteReg(address: nat, value: nat)
      modifies this
      ensures regs == old(regs)[address := value]
    {
      regs := regs[address := value];
    }

    function FreqBase(): nat { if prod == Lgs8g75 then 0x08 else 0x09 }

    function AfcBase(): nat { if prod == Lgs8g75 then 0x20 else 0x45 }

    /** lgs8gxx_set_if_freq: four bytes, and no other register. */
    method SetIfFreq(freq: nat)
      requires freq < U32 && ifClk < U32
      modifies this
      ensures Word(regs, FreqBase()) == Phase(freq, ifClk)
      ensures Bytes(regs, FreqBase())
      ensures var base, v := if prod == Lgs8g75 then 0x08 else 0x09, Phase(freq, ifClk);
        Reg(regs, base) == v % 0x100 && Reg(regs, base + 1) == v / 0x100 % 0x100 &&
        Reg(regs, base + 2) == v / 0x1_0000 % 0x100 && Reg(regs, base + 3) == v / 0x100_0000
      ensures forall a: nat :: !(FreqBase() <= a < FreqBase() + 4) ==> Reg(regs, a) == Reg(old(regs), a)
    {
      var v32 := 0;
      if freq != 0 {
        var val := freq * U32;
        if ifClk != 0 {
          val := val / ifClk;
        }
        v32 := val % U32;
      }
      assert v32 == Phase(freq, ifClk);
      WriteWord(FreqBase(), v32);
    }

    /** The four byte writes, least significant first. */
    method WriteWord(base: nat, v32: nat)
      requires v32 < U32
      modifies this
      ensures Word(regs, base) == v32 && Bytes(regs, base)
      ensures Reg(regs, base) == v32 % 0x100 && Reg(regs, base + 1) == v32 / 0x100 % 0x100
      ensures Reg(regs, base + 2) == v32 / 0x1_0000 % 0x100 && Reg(regs, base + 3) == v32 / 0x100_0000
      ensures forall a: nat :: !(base <= a < base + 4) ==> Reg(regs, a) == Reg(old(regs), a)
    {
      BytesOfWord(v32);
      WriteReg(base, v32 % 0x100);
      WriteReg(base + 1, v32 / 0x100 % 0x100);
      WriteReg(base + 2, v32 / 0x1_0000 % 0x100);
      WriteReg(base + 3, v32 / 0x100_0000 % 0x100);
    }

    /** The read loop of lgs8gxx_get_afc_phase, from the top address down. */
    method ReadWord() returns (v32: nat)
      requires Bytes(regs, AfcBase())
      ensures v32 == Word(regs, AfcBase())
    {
      v32 := 0;
      var address := AfcBase() + 3;
      var i := 0;
      while i < 4
        invariant 0 <= i <= 4 && address == AfcBase() + 3 - i
        invariant v32 == TopBytes(regs, AfcBase(), i)
      {
        TopBytesFit(regs, AfcBase(), i);
        v32 := (v32 * 0x100) % U32 + Reg(regs, address);
        address := address - 1;
        i := i + 1;
      }
      TopBytesWhole(regs, AfcBase());
    }

    /** lgs8gxx_get_afc_phase */
    method GetAfcPhase() returns (kHz: nat)
      requires Bytes(regs, AfcBase())
      ensures kHz == AfcKhz(Word(regs, AfcBase()), ifClk)
      ensures var base := if prod == Lgs8g75 then 0x20 else 0x45;
        var phase := Reg(regs, base) + 0x100 * (Reg(regs, base + 1) + 0x100 * (Reg(regs, base + 2)
                   + 0x100 * Reg(regs, base + 3)));
        kHz == phase * ifClk / 0x1_0000_0000
    {
      var v32 := ReadWord();
      kHz := v32 * ifClk / U32;
    }
  }

  /** Only the frequency modulo the clock counts; below the clock the phase is
      the whole quotient. */
  lemma PhaseModulo(f: nat, clk: nat)
    requires clk > 0
    ensures Phase(f, clk) == Phase(f % clk, clk) == f % clk * U32 / clk < U32
  {
    var q, g := f / clk, f % clk;
    var v, r := g * U32 / clk, g * U32 % clk;
    assert f == clk * q + g && g * U32 == clk * v + r;
    assert f * U32 == clk * (q * U32 + v) + r by {
      assert (clk * q) * U32 == clk * (q * U32);
      assert clk * (q * U32 + v) == clk * (q * U32) + clk * v;
    }
    DivModUnique(f * U32, clk, q * U32 + v, r);
    if v >= U32 {
      MulOrder(clk, U32, v);
    }
    DivModUnique(q * U32 + v, U32, q, v);
    DivModUnique(v, U32, 0, v);
  }

  /** Without a clock, or without a frequency, the phase is 0. */
  lemma PhaseZero(f: nat)
    ensures Phase(f, 0) == 0 && Phase(0, f) == 0
  {
    DivModUnique(f * U32, U32, f, 0);
  }

  lemma MulOrder(m: nat, a: nat, b: nat)
    requires a <= b
    ensures m * a <= m * b
  {
  }

  /** Reading the programmed phase back gives the frequency (modulo the clock)
      exactly when the clock divides it evenly into 2^32 parts, and 1 kHz less
      otherwise. */
  lemma AfcReadsBack(f: nat, clk: nat)
    requires 0 < clk < U32
    ensures AfcKhz(Phase(f, clk), clk) ==
      if f % clk * U32 % clk == 0 then f % clk else f % clk - 1
  {
    PhaseModulo(f, clk);
    var g := f % clk;
    var v, r := g * U32 / clk, g * U32 % clk;
    assert v * clk == g * U32 - r;
    if g == 0 {
      DivModUnique(0, clk, 0, 0);
    }
    if r == 0 {
      DivModUnique(v * clk, U32, g, 0);
    } else {
      DivModUnique(v * clk, U32, g - 1, U32 - r);
    }
  }
}
