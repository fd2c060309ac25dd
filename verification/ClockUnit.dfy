/** The clock generation unit (saa7231_cgu.c): its output-clock registers and
    the shadow of them the driver keeps. */
module ClockUnit {
  import opened Arithmetic
  import opened Basics

  const DOMAINS: nat := 19
  const XTAL_DCSN: nat := 0
  const PCC: nat := 11
  const CTRL_PCC: nat := 12
  const TSOUT_CAEXT_PCC: nat := 14
  const EXT_CA: nat := 17
  const BBADC: nat := 18

  const DIVIDER_LOW: nat := 7
  const INDEXES: nat := 24
  const PORTS: nat := 10
  const PORT_TSIN: nat := 8
  const PORT_TSOUT: nat := 9

  datatype Freq = Off | Low | UseCase | NoFreq

  datatype Setup = Setup(clkIn: nat, div: nat, preset: nat)

  // ---------------------------------------------------------------------
  // Tables

  /** clk_out_setup: source and divider of a domain, four alternatives. */
  function ClkOutSetup(domain: nat, k: nat): (nat, nat)
    requires domain < DOMAINS && k < 4
  {
    (match domain
     case 0 => [(0, 1), (0, 1), (0, 0), (0, 0)]
     case 1 => [(10, 2), (10, 1), (0, 0), (0, 0)]
     case 2 => [(0, 1), (10, 1), (10, 2), (0, 0)]
     case 3 => [(15, 8), (0, 4), (0, 0), (0, 0)]
     case 4 => [(15, 1), (15, 1), (0, 0), (0, 0)]
     case 7 => [(11, 1), (11, 1), (0, 0), (0, 0)]
     case 8 => [(18, 1), (18, 1), (0, 0), (0, 0)]
     case 9 => [(0, 8), (0, 8), (0, 0), (0, 0)]
     case 10 => [(11, 1), (11, 1), (0, 0), (0, 0)]
     case 13 => [(11, 1), (11, 1), (0, 0), (0, 0)]
     case 14 => [(12, 1), (12, 1), (0, 0), (0, 0)]
     case 18 => [(0, 8), (0, 8), (0, 0), (0, 0)]
     case _ => [(0, 1), (0, 1), (0, 0), (0, 0)])[k]
  }

  /** clk_sel: the preset of a clock index. */
  function ClkSel(index: nat): (preset: nat)
    requires index < INDEXES
    ensures preset < 9
  {
    if index < 11 then 1 else if index < 14 then 2
    else if index == 14 || index == 16 then 3
    else if index == 15 then 7
    else if index == 17 then 8
    else if index == 18 then 6
    else if index < 21 then 4 else 5
  }

  /** clkout_sel: which alternative a preset asks of a domain; 0 is none. */
  function ClkOutSel(domain: nat, preset: nat): nat
    requires domain < DOMAINS && preset < 9
  {
    (match domain
     case 0 => [0, 1, 1, 1, 1, 1, 1, 1, 1]
     case 1 => [0, 0, 0, 0, 0, 0, 0, 1, 1]
     case 2 => [0, 0, 0, 3, 0, 0, 2, 3, 0]
     case 3 => [0, 0, 0, 1, 0, 0, 2, 1, 2]
     case 4 => [0, 0, 0, 1, 0, 0, 1, 1, 1]
     case 6 => [0, 1, 1, 0, 0, 0, 0, 0, 0]
     case 7 => [0, 0, 1, 0, 1, 0, 0, 0, 0]
     case 8 => [0, 0, 1, 0, 1, 0, 0, 0, 0]
     case 9 => [0, 0, 0, 0, 1, 0, 0, 0, 0]
     case 10 => [0, 0, 1, 0, 1, 0, 0, 0, 0]
     case 12 => [1, 1, 1, 1, 1, 1, 1, 1, 1]
     case 13 => [0, 1, 1, 1, 1, 1, 1, 1, 1]
     case 14 => [0, 0, 0, 0, 0, 1, 0, 0, 0]
     case 18 => [0, 0, 0, 0, 1, 0, 0, 0, 0]
     case _ => [0, 0, 0, 0, 0, 0, 0, 0, 0])[preset]
  }

  lemma SetupInRange(domain: nat, k: nat)
    requires domain < DOMAINS && k < 4
    ensures ClkOutSetup(domain, k).0 < 256 && ClkOutSetup(domain, k).1 <= 8
  {
  }

  /** What the tables ask of a domain is real: a preset that asks for one names
      an alternative with a divider, and the three reserved domains behind the
      register gap are never asked for. */
  lemma SelectionInRange(domain: nat, preset: nat)
    requires domain < DOMAINS && preset < 9
    ensures ClkOutSel(domain, preset) < 4
    ensures ClkOutSel(domain, preset) > 0 ==> ClkOutSetup(domain, ClkOutSel(domain, preset) - 1).1 > 0
    ensures TSOUT_CAEXT_PCC < domain < BBADC ==> ClkOutSel(domain, preset) == 0
    ensures domain == BBADC && ClkOutSel(domain, preset) > 0 ==>
      ClkOutSel(domain, preset) == 1 && ClkOutSetup(domain, 0) == (0, 8)
  {
  }

  // ---------------------------------------------------------------------
  // Registers and shadow

  /** CLKOUT(k) */
  function ClkOut(k: nat): nat { 0x58 + 4 * k }

  /** The register that drives a domain; eight others lie in between. */
  function RegisterOf(domain: nat): nat {
    ClkOut(if domain <= TSOUT_CAEXT_PCC then domain else domain + 8)
  }

  /** An output-clock word; the fields do not overlap for the source and
      divider values in use, so the bitwise OR is a sum. */
  function OutWord(src: nat, div: nat, disable: bool): nat {
    src * 0x100_0000 + 0x800 + div * 4 + (if disable then 1 else 0)
  }

  function SourceOf(word: nat): nat { word / 0x100_0000 }

  function DividerOf(word: nat): nat { word / 4 % 0x200 }

  function Disabled(word: nat): bool { word % 2 == 1 }

  lemma OutWordFields(src: nat, div: nat, disable: bool)
    requires div < 0x200
    ensures var w := OutWord(src, div, disable);
      SourceOf(w) == src && DividerOf(w) == div && Disabled(w) == disable
  {
    var w, bit := OutWord(src, div, disable), if disable then 1 else 0;
    DivModUnique(w, 0x100_0000, src, 0x800 + div * 4 + bit);
    DivModUnique(w, 4, src * 0x40_0000 + 0x200 + div, bit);
    DivModUnique(src * 0x40_0000 + 0x200 + div, 0x200, src * 0x2000 + 1, div);
  }

  /** Three words by value: source 15 divided by 8, a clock turned off, and what
      initialisation writes for PCC. */
  lemma WordsByValue()
    ensures OutWord(15, 7, false) == 0x0F00_081C && OutWord(0, 7, true) == 0x0000_081D
    ensures SourceOf(0x0200_080C) == 2 && DividerOf(0x0200_080C) == 3 && !Disabled(0x0200_080C)
  {
  }

  datatype Port = Port(active: bool, index: nat, lastCfg: AdcMode)

  /** ADC modes with an alternative path, and the others. */
  datatype AdcMode = DvbtDif3 | DvbtDif1 | DvbtLowIf3 | DvbtLowIf1 | Other {
    /** The mode's bit; other modes have others. */
    function Bit(): nat {
      match this
      case DvbtDif3 => 0x4000
      case DvbtDif1 => 0x8000
      case DvbtLowIf3 => 0x1_0000
      case DvbtLowIf1 => 0x2_0000
      case Other => 0
    }

    /** The mode to try instead, with its clock index. */
    function Alternative(): (AdcMode, nat) {
      match this
      case DvbtLowIf1 => (DvbtLowIf3, 16)
      case DvbtLowIf3 => (DvbtLowIf1, 17)
      case DvbtDif1 => (DvbtDif3, 14)
      case DvbtDif3 => (DvbtDif1, 15)
      case Other => (Other, 0)
    }
  }

  function Log2(n: nat): nat { if n <= 1 then 0 else 1 + Log2(n / 2) }

  /** Each mode's alternative is the other one of its kind, and its clock index
      the number of its bit. */
  lemma Alternatives(m: AdcMode)
    requires m != Other
    ensures m.Alternative().0.Alternative().0 == m && m.Alternative().0 != m
    ensures m.DvbtDif1? || m.DvbtDif3? <==> m.Alternative().0.DvbtDif1? || m.Alternative().0.DvbtDif3?
    ensures m.Alternative().1 == Log2(m.Alternative().0.Bit())
  {
    assert Log2(0x4000) == 14 && Log2(0x8000) == 15 && Log2(0x1_0000) == 16 && Log2(0x2_0000) == 17;
  }

  datatype Clocks = Clocks(regs: map<nat, nat>, setup: seq<Setup>, freq: seq<Freq>, ports: seq<Port>) {
    predicate Shaped() { |setup| == DOMAINS && |freq| == DOMAINS && |ports| == PORTS }

    function Register(domain: nat): nat {
      if RegisterOf(domain) in regs then regs[RegisterOf(domain)] else 0
    }

    /** A domain's register carries the shadow's source and divider. */
    predicate InStep(domain: nat)
      requires Shaped() && domain < DOMAINS
    {
      SourceOf(Register(domain)) == setup[domain].clkIn && DividerOf(Register(domain)) == setup[domain].div
    }

    /** All domains but PCC, which is also written directly. */
    ghost predicate Synced() {
      Shaped() && forall d :: 0 <= d < DOMAINS && d != PCC ==> InStep(d)
    }

    /** Register and shadow of one domain written together. */
    function Program(address: nat, word: nat, domain: nat, s: Setup, f: Freq): Clocks
      requires Shaped() && domain < DOMAINS
    {
      this.(regs := regs[address := word], setup := setup[domain := s], freq := freq[domain := f])
    }

    /** saa7231_set_clk; asked for the frequency it has, it writes 0. */
    function SetClk(domain: nat, f: Freq): (c: Clocks)
      requires Shaped() && domain < DOMAINS
      ensures c.Shaped()
    {
      if f == Off && (domain == PCC || domain == XTAL_DCSN) then this.(freq := freq[domain := f])
      else if domain == PCC then this
      else if f == freq[domain] then Program(RegisterOf(domain), 0, domain, Setup(0, 0, 0), f)
      else if f == NoFreq then this
      else
        var (src, tableDiv) := ClkOutSetup(domain, 0);
        var div := if f == UseCase then (if tableDiv > 0 then tableDiv - 1 else 0) else DIVIDER_LOW;
        Program(RegisterOf(domain), OutWord(src, div, f == Off), domain, Setup(src, div, 0), f)
    }

    /** One row of cgu_system_setup; its register address has no gap. */
    function SetupRow(row: nat, preset: nat): (c: Clocks)
      requires Shaped() && row < DOMAINS && preset < 9
      ensures c.Shaped() && c.ports == ports
    {
      var sel := ClkOutSel(row, preset);
      if row == PCC || row == CTRL_PCC || row == XTAL_DCSN || sel == 0 then this
      else
        SelectionInRange(row, preset);
        var (src, divOut) := ClkOutSetup(row, sel - 1);
        if (divOut + U32 - 1) % U32 != setup[row].div || src != setup[row].clkIn || sel - 1 != setup[row].preset then
          var div := if divOut > 0 then divOut - 1 else 0;
          Program(ClkOut(row), OutWord(src, div, false), row, Setup(src, div, sel - 1), UseCase)
        else this
    }

    /** The first n rows of cgu_system_setup. */
    function SetupRows(n: nat, preset: nat): (c: Clocks)
      requires Shaped() && n <= DOMAINS && preset < 9
      ensures c.Shaped() && c.ports == ports
    {
      if n == 0 then this else SetupRows(n - 1, preset).SetupRow(n - 1, preset)
    }

    /** The port setting an activation goes by: its own, or the alternative path
        where its index is unusable and there is one. */
    function Chosen(port: nat): (chosen: Option<Port>)
      requires Shaped() && port < PORTS
      ensures chosen.Some? ==> chosen.value.index < INDEXES
    {
      var p := ports[port];
      if p.index < INDEXES then Some(p)
      else if p.lastCfg == Other then None
      else Some(Port(false, p.lastCfg.Alternative().1, p.lastCfg.Alternative().0))
    }

    /** saa7231_activate_clocks for a port known to the unit. */
    function Activate(port: nat): (c: Clocks)
      requires Shaped() && port < PORTS
      ensures c.Shaped()
    {
      if ports[port].active || Chosen(port) == None then this
      else
        var q := Chosen(port).value;
        var c := this.(ports := ports[port := q]).SetupRows(DOMAINS, ClkSel(q.index));
        c.(ports := c.ports[port := c.ports[port].(active := true)])
    }

    /** saa7231_disable_clocks: only the transport output clock is ever turned
        off, when neither of its two ports needs it any more. */
    function Disable(port: nat): (c: Clocks)
      requires Shaped() && port < PORTS
      ensures c.Shaped()
    {
      var c := this.(ports := ports[port := ports[port].(active := false)]);
      if (port == PORT_TSIN && !c.ports[PORT_TSOUT].active) || (port == PORT_TSOUT && !c.ports[PORT_TSIN].active)
      then c.SetClk(TSOUT_CAEXT_PCC, Off)
      else c
    }
  }

  // ---------------------------------------------------------------------
  // Registers follow the shadow

  /** The register of every domain: 0x58 to 0x90, then 0xB4 to 0xC0. */
  lemma RegisterTable(domain: nat)
    requires domain < DOMAINS
    ensures RegisterOf(domain) == if domain <= 14 then 0x58 + 4 * domain else 0xB4 + 4 * (domain - 15)
    ensures RegisterOf(PCC) == 0x84 && RegisterOf(TSOUT_CAEXT_PCC) == 0x90
    ensures RegisterOf(EXT_CA) == 0xBC && RegisterOf(BBADC) == 0xC0
  {
  }

  lemma RegistersDistinct(d: nat, e: nat)
    requires d != e
    ensures RegisterOf(d) != RegisterOf(e)
  {
  }

  lemma ProgramInStep(c: Clocks, domain: nat, word: nat, s: Setup, f: Freq)
    requires c.Shaped() && domain < DOMAINS
    requires SourceOf(word) == s.clkIn && DividerOf(word) == s.div
    ensures var c' := c.Program(RegisterOf(domain), word, domain, s, f);
      c'.InStep(domain) && c'.Register(domain) == word &&
      forall d :: 0 <= d < DOMAINS && d != domain ==> c'.Register(d) == c.Register(d) && (c'.InStep(d) <==> c.InStep(d))
  {
    forall d | 0 <= d < DOMAINS && d != domain
      ensures RegisterOf(d) != RegisterOf(domain)
    {
      RegistersDistinct(d, domain);
    }
  }

  /** A word for domain d: on, from its first alternative in the table; or at the
      low divider, on or off. */
  predicate UseCaseWord(d: nat, w: nat)
    requires d < DOMAINS
  {
    SourceOf(w) == ClkOutSetup(d, 0).0 && DividerOf(w) + 1 == ClkOutSetup(d, 0).1 && !Disabled(w)
  }

  predicate LowWord(d: nat, w: nat, disabled: bool)
    requires d < DOMAINS
  {
    SourceOf(w) == ClkOutSetup(d, 0).0 && DividerOf(w) == 7 && Disabled(w) == disabled
  }

  /** The three frequencies, asked of a domain that has another. */
  lemma SetClkSets(c: Clocks, domain: nat, f: Freq)
    requires c.Shaped() && domain < DOMAINS && domain != PCC && f != c.freq[domain]
    ensures f == UseCase ==> UseCaseWord(domain, c.SetClk(domain, f).Register(domain))
    ensures f == Low ==> LowWord(domain, c.SetClk(domain, f).Register(domain), false)
    ensures f == Off && domain != XTAL_DCSN ==> LowWord(domain, c.SetClk(domain, f).Register(domain), true)
  {
    SetupInRange(domain, 0);
    var (src, tableDiv) := ClkOutSetup(domain, 0);
    assert tableDiv > 0;
    OutWordFields(src, if f == UseCase then tableDiv - 1 else DIVIDER_LOW, f == Off);
  }

  lemma SetClkInStep(c: Clocks, domain: nat, f: Freq)
    requires c.Shaped() && domain < DOMAINS
    ensures f == UseCase && c.freq[domain] == Off && domain != PCC ==> c.SetClk(domain, f).InStep(domain)
    ensures forall d :: 0 <= d < DOMAINS && d != PCC && c.InStep(d) ==> c.SetClk(domain, f).InStep(d)
    ensures forall d :: 0 <= d < DOMAINS && d != domain ==>
      c.SetClk(domain, f).setup[d] == c.setup[d] && c.SetClk(domain, f).freq[d] == c.freq[d] &&
      c.SetClk(domain, f).Register(d) == c.Register(d)
    ensures f != Off && domain != PCC && f != NoFreq ==> !Disabled(c.SetClk(domain, f).Register(domain))
    ensures f == Off && domain != PCC && domain != XTAL_DCSN && Disabled(c.SetClk(domain, f).Register(domain)) ==>
      c.SetClk(domain, f).setup[domain].div == DIVIDER_LOW
  {
    var (src, tableDiv) := ClkOutSetup(domain, 0);
    SetupInRange(domain, 0);
    var div := if f == UseCase then (if tableDiv > 0 then tableDiv - 1 else 0) else DIVIDER_LOW;
    OutWordFields(src, div, f == Off);
    ProgramInStep(c, domain, OutWord(src, div, f == Off), Setup(src, div, 0), f);
    ProgramInStep(c, domain, 0, Setup(0, 0, 0), f);
  }

  /** No clock is off but EXT_CA's, and the transport output clock's only at the
      low divider. */
  ghost predicate Running(c: Clocks)
    requires c.Shaped()
  {
    (forall d :: 0 <= d < DOMAINS && d != PCC && d != EXT_CA && d != TSOUT_CAEXT_PCC ==> !Disabled(c.Register(d))) &&
    (Disabled(c.Register(TSOUT_CAEXT_PCC)) ==> c.setup[TSOUT_CAEXT_PCC].div == DIVIDER_LOW)
  }

  /** The state every run stays in: in step, the clocks running, and the
      base-band ADC domain, the one row whose address would miss the gap, as
      initialisation left it. */
  ghost predicate Steady(c: Clocks) {
    c.Synced() && Running(c) && c.setup[BBADC] == Setup(0, 7, 0)
  }

  lemma RowSteady(c: Clocks, row: nat, preset: nat)
    requires Steady(c) && row < DOMAINS && preset < 9
    ensures Steady(c.SetupRow(row, preset))
  {
    SelectionInRange(row, preset);
    var sel := ClkOutSel(row, preset);
    if sel > 0 {
      var (src, divOut) := ClkOutSetup(row, sel - 1);
      SetupInRange(row, sel - 1);
      if row == BBADC {
        assert c.SetupRow(row, preset) == c;
      } else if row <= TSOUT_CAEXT_PCC {
        OutWordFields(src, divOut - 1, false);
        ProgramInStep(c, row, OutWord(src, divOut - 1, false), Setup(src, divOut - 1, sel - 1), UseCase);
      }
    }
  }

  lemma {:induction false} RowsSteady(c: Clocks, n: nat, preset: nat)
    requires Steady(c) && n <= DOMAINS && preset < 9
    ensures Steady(c.SetupRows(n, preset))
  {
    if n > 0 {
      RowsSteady(c, n - 1, preset);
      RowSteady(c.SetupRows(n - 1, preset), n - 1, preset);
    }
  }

  lemma WithPortsSteady(c: Clocks, ports: seq<Port>)
    requires Steady(c) && |ports| == PORTS
    ensures Steady(c.(ports := ports))
  {
    var c' := c.(ports := ports);
    assert forall d :: 0 <= d < DOMAINS ==> c'.Register(d) == c.Register(d);
    assert forall d :: 0 <= d < DOMAINS && d != PCC ==> c.InStep(d) && c'.InStep(d);
  }

  /** Writing a register no domain but PCC is driven by. */
  lemma OtherRegisterSteady(c: Clocks, address: nat, word: nat)
    requires Steady(c)
    requires address == RegisterOf(PCC) || ClkOut(TSOUT_CAEXT_PCC) < address < RegisterOf(TSOUT_CAEXT_PCC + 1)
    ensures var c' := c.(regs := c.regs[address := word]);
      Steady(c') && forall d :: 0 <= d < DOMAINS && d != PCC ==> c'.Register(d) == c.Register(d)
  {
    var c' := c.(regs := c.regs[address := word]);
    forall d | 0 <= d < DOMAINS && d != PCC
      ensures c'.InStep(d) && c'.Register(d) == c.Register(d)
    {
      RegistersDistinct(d, PCC);
      assert c.InStep(d) && c'.Register(d) == c.Register(d);
    }
  }

  // ---------------------------------------------------------------------
  // Initialisation

  /** The domains below i have been set up on zeroed driver state. */
  ghost predicate SetUpTo(c: Clocks, i: nat) {
    c.Shaped() && (forall d :: i <= d < DOMAINS ==> c.freq[d] == Off) &&
    forall d :: 0 <= d < i && d < DOMAINS && d != PCC ==> IsSetUp(c, d)
  }

  ghost predicate IsSetUp(c: Clocks, d: nat)
    requires c.Shaped() && d < DOMAINS
  {
    c.InStep(d) && UseCaseWord(d, c.Register(d)) && c.freq[d] == UseCase && c.setup[d].preset == 0
  }

  lemma SetUpStep(c: Clocks, i: nat)
    requires i < DOMAINS && SetUpTo(c, i)
    ensures SetUpTo(c.SetClk(i, UseCase), i + 1)
  {
    var c' := c.SetClk(i, UseCase);
    SetClkInStep(c, i, UseCase);
    if i != PCC {
      SetClkSets(c, i, UseCase);
    }
    forall d | 0 <= d < i && d != PCC
      ensures IsSetUp(c', d)
    {
      assert IsSetUp(c, d) && c'.Register(d) == c.Register(d);
    }
  }

  lemma OtherRegisterSetUp(c: Clocks, address: nat, word: nat)
    requires SetUpTo(c, DOMAINS)
    requires ClkOut(TSOUT_CAEXT_PCC) < address < RegisterOf(TSOUT_CAEXT_PCC + 1)
    ensures SetUpTo(c.(regs := c.regs[address := word]), DOMAINS)
  {
    var c' := c.(regs := c.regs[address := word]);
    forall d | 0 <= d < DOMAINS && d != PCC
      ensures IsSetUp(c', d)
    {
      assert IsSetUp(c, d) && c'.Register(d) == c.Register(d);
    }
  }

  lemma SetUpSteady(c: Clocks)
    requires SetUpTo(c, DOMAINS)
    ensures Steady(c)
  {
    forall d | 0 <= d < DOMAINS && d != PCC
      ensures c.InStep(d) && !Disabled(c.Register(d)) && (d == BBADC ==> c.setup[d] == Setup(0, 7, 0))
    {
      assert IsSetUp(c, d);
    }
  }

  lemma TurnOffExtCa(c: Clocks)
    requires SetUpTo(c, DOMAINS)
    ensures var c' := c.SetClk(EXT_CA, Off);
      Steady(c') && c'.freq[TSOUT_CAEXT_PCC] == UseCase && LowWord(EXT_CA, c'.Register(EXT_CA), true) &&
      forall d :: 0 <= d < DOMAINS && d != PCC && d != EXT_CA ==> UseCaseWord(d, c'.Register(d))
  {
    SetUpSteady(c);
    assert IsSetUp(c, EXT_CA) && IsSetUp(c, TSOUT_CAEXT_PCC);
    SetClkInStep(c, EXT_CA, Off);
    SetClkSets(c, EXT_CA, Off);
    forall d | 0 <= d < DOMAINS && d != PCC && d != EXT_CA
      ensures UseCaseWord(d, c.SetClk(EXT_CA, Off).Register(d))
    {
      assert IsSetUp(c, d);
    }
  }

  // ---------------------------------------------------------------------
  // Activation and release

  datatype Op = Activate(port: nat) | Disable(port: nat)

  function Apply(c: Clocks, op: Op): (c': Clocks)
    requires c.Shaped() && op.port < PORTS
    ensures c'.Shaped()
  {
    match op
    case Activate(port) => c.Activate(port)
    case Disable(port) => c.Disable(port)
  }

  lemma ApplySteady(c: Clocks, op: Op)
    requires Steady(c) && op.port < PORTS
    ensures Steady(Apply(c, op))
  {
    var c' := Apply(c, op);
    match op
    case Activate(port) =>
      if !c.ports[port].active && c.Chosen(port) != None {
        var q := c.Chosen(port).value;
        var b := c.(ports := c.ports[port := q]);
        WithPortsSteady(c, b.ports);
        RowsSteady(b, DOMAINS, ClkSel(q.index));
        WithPortsSteady(b.SetupRows(DOMAINS, ClkSel(q.index)), c'.ports);
      }
    case Disable(port) =>
      var b := c.(ports := c.ports[port := c.ports[port].(active := false)]);
      WithPortsSteady(c, b.ports);
      SetClkInStep(b, TSOUT_CAEXT_PCC, Off);
  }

  function Run(c: Clocks, ops: seq<Op>): (c': Clocks)
    requires c.Shaped() && forall op :: op in ops ==> op.port < PORTS
    ensures c'.Shaped()
    decreases |ops|
  {
    if ops == [] then c else Run(Apply(c, ops[0]), ops[1..])
  }

  /** Over every run of activations and releases, for every clock index, the
      registers of all domains but PCC follow the shadow. */
  lemma {:induction false} RunSteady(c: Clocks, ops: seq<Op>)
    requires Steady(c) && forall op :: op in ops ==> op.port < PORTS
    ensures Steady(Run(c, ops))
    decreases |ops|
  {
    if ops != [] {
      ApplySteady(c, ops[0]);
      RunSteady(Apply(c, ops[0]), ops[1..]);
    }
  }

  /** The row address without the gap drives the wrong register exactly for
      the domains behind it. */
  lemma RowAddressIff(domain: nat)
    requires domain < DOMAINS
    ensures ClkOut(domain) == RegisterOf(domain) <==> domain <= TSOUT_CAEXT_PCC
  {
  }

  /** For the base-band ADC row that address is harmless exactly while the
      domain runs as the row would set it, which is how initialisation leaves
      it and every run keeps it. */
  lemma BbadcRowIff(c: Clocks, preset: nat)
    requires c.Shaped() && preset < 9 && c.InStep(BBADC) && ClkOutSel(BBADC, preset) > 0
    ensures c.SetupRow(BBADC, preset).InStep(BBADC) <==> c.setup[BBADC].clkIn == 0 && c.setup[BBADC].div == 7
  {
    SelectionInRange(BBADC, preset);
    ModBelowTwice(8 + U32 - 1, U32);
    assert c.SetupRow(BBADC, preset).Register(BBADC) == c.Register(BBADC);
  }

  /** The preset asks for the domain, and the set-up manages it. */
  predicate Named(row: nat, preset: nat)
    requires row < DOMAINS && preset < 9
  {
    row != PCC && row != CTRL_PCC && row != XTAL_DCSN && ClkOutSel(row, preset) > 0
  }

  /** Rows that are done keep what the preset asks for. */
  ghost predicate RowDone(c: Clocks, row: nat, preset: nat)
    requires c.Shaped() && row < DOMAINS && preset < 9
  {
    var sel := ClkOutSel(row, preset);
    SelectionInRange(row, preset);
    Named(row, preset) ==> c.setup[row] == Setup(ClkOutSetup(row, sel - 1).0, ClkOutSetup(row, sel - 1).1 - 1, sel - 1)
  }

  lemma {:induction false} RowsDone(c: Clocks, n: nat, preset: nat, row: nat)
    requires c.Shaped() && row < n <= DOMAINS && preset < 9
    ensures RowDone(c.SetupRows(n, preset), row, preset)
  {
    var b := c.SetupRows(n - 1, preset);
    if row < n - 1 {
      RowsDone(c, n - 1, preset, row);
      OtherRowKept(b, n - 1, preset, row);
    } else {
      RowDoneNow(b, row, preset);
    }
  }

  lemma OtherRowKept(c: Clocks, row: nat, preset: nat, d: nat)
    requires c.Shaped() && row < DOMAINS && preset < 9 && d < DOMAINS && d != row
    ensures c.SetupRow(row, preset).setup[d] == c.setup[d]
  {
    SelectionInRange(row, preset);
  }

  lemma RowDoneNow(c: Clocks, row: nat, preset: nat)
    requires c.Shaped() && row < DOMAINS && preset < 9
    ensures RowDone(c.SetupRow(row, preset), row, preset)
  {
    SelectionInRange(row, preset);
    var sel := ClkOutSel(row, preset);
    if sel > 0 {
      SetupInRange(row, sel - 1);
      ModBelowTwice(ClkOutSetup(row, sel - 1).1 + U32 - 1, U32);
    }
  }

  /** An activation that goes through, on the port's own index or on the
      alternative path, leaves every managed domain its preset names running
      from exactly the table's source and divider. */
  lemma ActivationPrograms(c: Clocks, port: nat, row: nat)
    requires Steady(c) && port < PORTS && !c.ports[port].active && c.Chosen(port) != None
    requires row < DOMAINS && Named(row, ClkSel(c.Chosen(port).value.index))
    ensures var c', sel := c.Activate(port), ClkOutSel(row, ClkSel(c.Chosen(port).value.index));
      c'.ports == c.ports[port := c.Chosen(port).value.(active := true)] &&
      sel < 4 && SourceOf(c'.Register(row)) == ClkOutSetup(row, sel - 1).0 &&
      DividerOf(c'.Register(row)) + 1 == ClkOutSetup(row, sel - 1).1 && !Disabled(c'.Register(row))
  {
    var q := c.Chosen(port).value;
    var b, preset := c.(ports := c.ports[port := q]), ClkSel(q.index);
    SelectionInRange(row, preset);
    ApplySteady(c, Activate(port));
    RowsDone(b, DOMAINS, preset, row);
    assert c.Activate(port).setup == b.SetupRows(DOMAINS, preset).setup;
    assert c.Activate(port).InStep(row);
    assert row != EXT_CA && (row == TSOUT_CAEXT_PCC ==> c.Activate(port).setup[row].div == 0);
  }

  /** A domain the preset does not name keeps its register. */
  lemma {:induction false} RowsKeep(c: Clocks, n: nat, preset: nat, d: nat)
    requires c.Shaped() && n <= DOMAINS && preset < 9 && d < DOMAINS && !Named(d, preset)
    ensures c.SetupRows(n, preset).Register(d) == c.Register(d)
  {
    if n > 0 {
      RowsKeep(c, n - 1, preset, d);
      RowKeeps(c.SetupRows(n - 1, preset), n - 1, preset, d);
    }
  }

  lemma RowKeeps(c: Clocks, row: nat, preset: nat, d: nat)
    requires c.Shaped() && row < DOMAINS && preset < 9 && d < DOMAINS && !Named(d, preset)
    ensures c.SetupRow(row, preset).Register(d) == c.Register(d)
  {
    SelectionInRange(row, preset);
    if row != d {
      RegisterTable(d);
    }
  }

  /** An activation changes nothing when the port is active already or has no
      usable path, and otherwise no register its preset does not name. */
  lemma ActivationKeeps(c: Clocks, port: nat, d: nat)
    requires c.Shaped() && port < PORTS && d < DOMAINS
    ensures c.ports[port].active || c.Chosen(port) == None ==> c.Activate(port) == c
    ensures c.Chosen(port) != None && !Named(d, ClkSel(c.Chosen(port).value.index)) ==>
      c.Activate(port).Register(d) == c.Register(d)
  {
    if !c.ports[port].active && c.Chosen(port) != None && !Named(d, ClkSel(c.Chosen(port).value.index)) {
      var b := c.(ports := c.ports[port := c.Chosen(port).value]);
      RowsKeep(b, DOMAINS, ClkSel(c.Chosen(port).value.index), d);
    }
  }

  /** A release turns the transport output clock off, if it was not off already,
      when neither of its two ports is left active, and changes no other
      register. */
  lemma ReleaseIs(c: Clocks, port: nat)
    requires c.Shaped() && port < PORTS && c.freq[TSOUT_CAEXT_PCC] != Off
    ensures var c' := c.Disable(port);
      var last := (port == 8 && !c.ports[9].active) || (port == 9 && !c.ports[8].active);
      c'.ports == c.ports[port := c.ports[port].(active := false)] &&
      (forall d :: 0 <= d < DOMAINS && d != 14 ==> c'.Register(d) == c.Register(d)) &&
      if last then LowWord(14, c'.Register(14), true) else c'.regs == c.regs && c'.setup == c.setup && c'.freq == c.freq
  {
    var b := c.(ports := c.ports[port := c.ports[port].(active := false)]);
    SetClkInStep(b, TSOUT_CAEXT_PCC, Off);
    SetClkSets(b, TSOUT_CAEXT_PCC, Off);
    assert forall d :: 0 <= d < DOMAINS ==> b.Register(d) == c.Register(d);
  }

  /** Turning a domain off disables its clock exactly when it was not off
      already: asked again, the all-zero word enables it. */
  lemma OffDisablesIff(c: Clocks, domain: nat)
    requires c.Shaped() && domain < DOMAINS && domain != PCC && domain != XTAL_DCSN
    ensures Disabled(c.SetClk(domain, Off).Register(domain)) <==> c.freq[domain] != Off
  {
    SetupInRange(domain, 0);
    OutWordFields(ClkOutSetup(domain, 0).0, DIVIDER_LOW, true);
  }

  /** Releasing the transport input port twice while the output port is idle
      turns their clock off and then on again.  No code of this repository
      calls saa7231_disable_clocks. */
  lemma SecondReleaseEnables(c: Clocks)
    requires c.Shaped() && c.freq[TSOUT_CAEXT_PCC] != Off && !c.ports[PORT_TSOUT].active
    ensures Disabled(Run(c, [Disable(PORT_TSIN)]).Register(TSOUT_CAEXT_PCC))
    ensures !Disabled(Run(c, [Disable(PORT_TSIN), Disable(PORT_TSIN)]).Register(TSOUT_CAEXT_PCC))
  {
    var once := Apply(c, Disable(PORT_TSIN));
    var b := c.(ports := c.ports[PORT_TSIN := c.ports[PORT_TSIN].(active := false)]);
    OffDisablesIff(b, TSOUT_CAEXT_PCC);
    var b' := once.(ports := once.ports[PORT_TSIN := once.ports[PORT_TSIN].(active := false)]);
    OffDisablesIff(b', TSOUT_CAEXT_PCC);
    assert Run(c, [Disable(PORT_TSIN)]) == Run(once, []) == once;
    assert [Disable(PORT_TSIN), Disable(PORT_TSIN)][1..] == [Disable(PORT_TSIN)];
    assert Run(once, [Disable(PORT_TSIN)]) == Run(Apply(once, Disable(PORT_TSIN)), []);
  }

  // ---------------------------------------------------------------------

  class Unit {
    var regs: map<nat, nat>
    var setup: seq<Setup>
    var freq: seq<Freq>
    var ports: seq<Port>

    function State(): Clocks
      reads this
    {
      Clocks(regs, setup, freq, ports)
    }

    method SetClk(domain: nat, f: Freq) returns (ret: int)
      requires State().Shaped() && domain < DOMAINS
      modifies this`regs, this`setup, this`freq
      ensures State() == old(State()).SetClk(domain, f)
      ensures domain != PCC && f != old(freq[domain]) ==>
        var w := State().Register(domain);
        (f == UseCase ==> UseCaseWord(domain, w)) && (f == Low ==> LowWord(domain, w, false)) &&
        (f == Off && domain != XTAL_DCSN ==> LowWord(domain, w, true))
      ensures domain != PCC && f == old(freq[domain]) && !(f == Off && domain == XTAL_DCSN) ==>
        State().Register(domain) == 0
      ensures ret == if f == NoFreq && domain != PCC && old(freq[domain]) != NoFreq then EINVAL else 0
    {
      if f != freq[domain] && domain != PCC {
        SetClkSets(State(), domain, f);
      }
      if f == Off && (domain == PCC || domain == XTAL_DCSN) {
        freq := freq[domain := f];
        return 0;
      }
      if domain == PCC {
        return 0;
      }
      var src, div, val := 0, 0, 0;
      if f != freq[domain] {
        var disable := false;
        match f {
          case Off =>
            div, disable := DIVIDER_LOW, true;
          case Low =>
            div := DIVIDER_LOW;
          case UseCase =>
            div := ClkOutSetup(domain, 0).1;
            if div > 0 {
              div := div - 1;
            }
          case NoFreq =>
            return EINVAL;
        }
        src := ClkOutSetup(domain, 0).0;
        val := OutWord(src, div, disable);
      }
      if domain <= TSOUT_CAEXT_PCC {
        regs := regs[ClkOut(domain) := val];
      } else {
        regs := regs[ClkOut(domain + 8) := val];
      }
      setup := setup[domain := Setup(src, div, 0)];
      freq := freq[domain := f];
      return 0;
    }

    /** cgu_system_setup, its output-clock half. */
    method SystemSetup(index: nat)
      requires State().Shaped() && index < INDEXES
      modifies this`regs, this`setup, this`freq
      ensures State() == old(State()).SetupRows(DOMAINS, ClkSel(index))
    {
      var preset := ClkSel(index);
      var row := 0;
      while row < DOMAINS
        invariant 0 <= row <= DOMAINS && State() == old(State()).SetupRows(row, preset)
      {
        OneRow(row, preset);
        row := row + 1;
      }
    }

    method OneRow(row: nat, preset: nat)
      requires State().Shaped() && row < DOMAINS && preset < 9
      modifies this`regs, this`setup, this`freq
      ensures State() == old(State()).SetupRow(row, preset)
    {
      if row == PCC || row == CTRL_PCC || row == XTAL_DCSN {
        return;
      }
      var sel := ClkOutSel(row, preset);
      if sel == 0 {
        return;
      }
      SelectionInRange(row, preset);
      var src, divOut := ClkOutSetup(row, sel - 1).0, ClkOutSetup(row, sel - 1).1;
      if (divOut + U32 - 1) % U32 != setup[row].div || src != setup[row].clkIn || sel - 1 != setup[row].preset {
        if divOut > 0 {
          divOut := divOut - 1;
        }
        regs := regs[ClkOut(row) := OutWord(src, divOut, false)];
        setup := setup[row := Setup(src, divOut, sel - 1)];
        freq := freq[row := UseCase];
      }
    }

    /** The loop that finds the index of an alternative. */
    method BitNumber(bit: nat) returns (index: nat)
      ensures index == Log2(bit)
    {
      index := 0;
      var i: nat := bit / 2;
      while i != 0
        invariant Log2(bit) == index + if i == 0 then 0 else 1 + Log2(i)
      {
        i := i / 2;
        index := index + 1;
      }
    }

    /** saa7231_activate_clocks */
    method Activate(port: nat) returns (ret: int)
      requires State().Shaped() && port < PORTS
      modifies this
      ensures State() == old(State()).Activate(port)
      ensures ret < 0 <==> !old(ports[port].active) && old(State()).Chosen(port) == None
    {
      if ports[port].active {
        return 0;
      }
      if ports[port].index >= INDEXES {
        if ports[port].lastCfg == Other {
          return EINVAL;
        }
        var alt := ports[port].lastCfg.Alternative().0;
        var index := BitNumber(alt.Bit());
        Alternatives(ports[port].lastCfg);
        ports := ports[port := Port(false, index, alt)];
      }
      assert ports == ports[port := ports[port]];
      SystemSetup(ports[port].index);
      ports := ports[port := ports[port].(active := true)];
      return 0;
    }

    /** saa7231_disable_clocks */
    method Disable(port: nat)
      requires State().Shaped() && port < PORTS
      modifies this
      ensures State() == old(State()).Disable(port)
    {
      ports := ports[port := ports[port].(active := false)];
      if (port == PORT_TSIN && !ports[PORT_TSOUT].active) || (port == PORT_TSOUT && !ports[PORT_TSIN].active) {
        var _ := SetClk(TSOUT_CAEXT_PCC, Off);
      }
    }

    /** saa7231_cgu_init on zeroed driver state, whatever the registers held. */
    constructor Init(hardware: map<nat, nat>, ports: seq<Port>)
      requires |ports| == PORTS
      ensures Steady(State()) && this.ports == ports && freq[TSOUT_CAEXT_PCC] == UseCase
      ensures forall d :: 0 <= d < DOMAINS && d != PCC && d != EXT_CA ==> UseCaseWord(d, State().Register(d))
      ensures LowWord(EXT_CA, State().Register(EXT_CA), true) && State().Register(PCC) == 0x0200_080C
    {
      regs := hardware;
      setup := seq(DOMAINS, _ => Setup(0, 0, 0));
      freq := seq(DOMAINS, _ => Off);
      this.ports := ports;
      new;
      var i := 0;
      while i < DOMAINS
        invariant 0 <= i <= DOMAINS && SetUpTo(State(), i) && this.ports == ports
      {
        SetUpStep(State(), i);
        var _ := SetClk(i, UseCase);
        i := i + 1;
      }
      var k := TSOUT_CAEXT_PCC + 1;
      while k < TSOUT_CAEXT_PCC + 9
        invariant TSOUT_CAEXT_PCC < k <= TSOUT_CAEXT_PCC + 9
        invariant SetUpTo(State(), DOMAINS) && this.ports == ports
      {
        OtherRegisterSetUp(State(), ClkOut(k), DIVIDER_LOW * 4 + 1);
        regs := regs[ClkOut(k) := DIVIDER_LOW * 4 + 1];
        k := k + 1;
      }
      TurnOffExtCa(State());
      var _ := SetClk(EXT_CA, Off);
      OtherRegisterSteady(State(), RegisterOf(PCC), 0x0200_080C);
      regs := regs[RegisterOf(PCC) := 0x0200_080C];
    }
  }
}
