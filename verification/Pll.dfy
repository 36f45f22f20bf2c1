/** Programming the PLLs and reading their frequency back, on the chips before BCM2711. */
module Pll {
  import opened Bits
  import opened PackedFields

  const XTAL := 19_200_000
  const ONE := 0x10_0000 // 1.0 with 20 fractional bits
  const MAX_UNSCALED := 1_750_000_000
  const MAX_LOCKWAIT := 1000
  const PASSWORD: word := 0x5a00_0000
  const FRAC_MASK: word := 0x000f_ffff
  const PDIV_MASK: word := 0x0000_7000
  const CTRL_PWRDN: word := 0x0001_0000
  const CTRL_PRSTN: word := 0x0002_0000
  const PLL_ANARST: word := 0x0000_0100
  const CM_DIGRST: word := 0x200
  const CM_HOLDPER: word := 0x80
  const CM_HOLDCORE2: word := 0x20
  const CM_HOLDCORE1: word := 0x8
  const CM_HOLDCORE0: word := 0x2
  const CM_LOADCORE0: word := 0x1
  const KI_MASK: word := 0x0038_0000
  const KP_MASK: word := 0x0007_8000
  const KA_MASK: word := 0x0000_0380
  const H_KA_MASK: word := 0x0038_0000
  const H_KI_LO_MASK: word := 0x00c0_0000
  const H_KI_HI_MASK: word := 0x0000_0001
  const H_KP_MASK: word := 0x0000_001e

  datatype PllId = PllA | PllB | PllC | PllD | PllH

  function NdivMask(id: PllId): word { if id.PllH? then 0xff else 0x3ff }

  function NdivBits(id: PllId): nat { if id.PllH? then 8 else 10 }

  function PrescaleBit(id: PllId): nat { if id.PllH? then 11 else 14 }

  // What programming means.

  /** The multiplier of the crystal, with 20 fractional bits, rounded to nearest. */
  function Divider(freq: word): (d: word)
    ensures d < 0x1000_0000
  {
    (freq * ONE + XTAL / 2) / XTAL
  }

  predicate Prescaled(freq: word)
  {
    freq > MAX_UNSCALED
  }

  /** The multiplier written: halved, rounding up, when the prescaler is to double it. */
  function Written(freq: word): (d: word)
    ensures d < 0x1000_0000
  {
    if Prescaled(freq) then (Divider(freq) + 1) / 2 else Divider(freq)
  }

  /** The frequency of a multiplier, with or without the prescaler in the feedback path. */
  function Meaning(div: nat, prescaled: bool): nat
  {
    (if prescaled then 2 * div else div) * XTAL / ONE
  }

  /** The last step of the read-back: `mult1 >> 20`, in 32 bits. */
  function Divided(div: nat, pdiv: nat): word
    requires pdiv > 0
  {
    div * XTAL / pdiv / ONE % TWO32
  }

  /** Dividing twice is dividing by the product. */
  lemma DividedExact(div: nat, pdiv: nat, f: nat)
    requires pdiv > 0
    ensures f * (pdiv * ONE) <= div * XTAL < f * (pdiv * ONE) + pdiv * ONE ==> Divided(div, pdiv) == f % TWO32
  {
    var a := div * XTAL;
    if f * (pdiv * ONE) <= a < f * (pdiv * ONE) + pdiv * ONE {
      TwiceDivided(a, pdiv, ONE, f);
    }
  }

  lemma TwiceDivided(a: nat, p: nat, q: nat, f: nat)
    requires p > 0 && q > 0 && f * (p * q) <= a < f * (p * q) + p * q
    ensures a / p / q == f
  {
    var b, r := a / p, a % p;
    assert a == p * b + r;
    assert f * (p * q) == p * (f * q);
    if b < f * q {
      MulSub(p, f * q, b);
      MulAtLeast(p, f * q - b);
    }
    if b >= f * q + q {
      MulSub(p, b, f * q);
      MulSub(p, b - f * q, q);
      MulNonneg(p, b - f * q - q);
    }
    DivUnique(b, q, f, b - f * q);
  }

  /**
   The frequency read back after programming, in 32 bits. On every PLL but PLLH the prescale bit is lost, because
   ANA1 is masked with the KI mask where its complement is meant.
   */
  function ReadBack(id: PllId, freq: word): word
  {
    if freq == 0 then 0
    else Meaning(Written(freq), Prescaled(freq) && id.PllH?) % TWO32
  }

  predicate Close(read: int, freq: int)
  {
    freq - 10 <= read <= freq + 27
  }

  /**
   For every request the read-back is within 10 Hz below and 27 Hz above it exactly where the prescaler is not lost
   and rounding up does not leave the 32 bits, which happens to the largest request alone.
   */
  lemma ReadBackCloseIff(id: PllId, freq: word)
    ensures Close(ReadBack(id, freq), freq) <==> (id.PllH? && freq != 0xffff_ffff) || freq <= 1_750_000_000
    ensures freq <= 1_750_000_000 ==> ReadBack(id, freq) <= freq + 9
    ensures freq == 0 ==> ReadBack(id, freq) == 0
  {
    LargestRequest();
    if freq != 0xffff_ffff {
      BelowLargest(freq, freq);
    }
  }

  /**
   On PLLH a higher request never reads back lower, also across the threshold of the prescaler, except that the
   largest request reads back lower than every other one above 27 Hz.
   */
  lemma ReadBackMonotoneIff(f: word, g: word)
    requires f <= g
    ensures ReadBack(PllH, f) <= ReadBack(PllH, g) <==> g != 0xffff_ffff || f == g || f <= 27
  {
    hide ReadBack;
    LargestRequest();
    if g != 0xffff_ffff {
      BelowLargest(f, g);
    } else if f != g {
      SmallRequest(f);
    }
  }

  /** The largest request is rounded up past 32 bits: it reads back as 25 Hz. */
  lemma LargestRequest()
    ensures ReadBack(PllH, 0xffff_ffff) == 25
  {
  }

  lemma SmallRequest(f: word)
    requires f < 0xffff_ffff
    ensures ReadBack(PllH, f) <= 25 <==> f <= 27
  {
    BelowLargest(f, f);
  }

  lemma BelowLargest(f: word, g: word)
    requires f <= g < 0xffff_ffff
    ensures ReadBack(PllH, f) <= ReadBack(PllH, g)
    ensures f != 0 ==> ReadBack(PllH, f) == Meaning(Written(f), Prescaled(f))
  {
    MeaningGrows(f, g);
    MeaningGrows(f, f);
  }

  lemma MeaningGrows(f: word, g: word)
    requires f <= g < 0xffff_ffff
    ensures Meaning(Written(f), Prescaled(f)) <= Meaning(Written(g), Prescaled(g)) < TWO32
  {
    hide Divider;
    DividerGrows(f, g);
    DividerGrows(g, 0xffff_fffe);
    LargestBelow();
    MultiplierGrows(Effective(f), Effective(g));
    MultiplierGrows(Effective(g), Effective(0xffff_fffe));
    EffectiveMeans(f);
    EffectiveMeans(g);
  }

  /** The multiplier with the doubling of the prescaler. */
  function Effective(freq: word): nat
  {
    if Prescaled(freq) then 2 * Written(freq) else Written(freq)
  }

  lemma EffectiveMeans(freq: word)
    ensures Meaning(Written(freq), Prescaled(freq)) == Effective(freq) * XTAL / ONE
  {
    hide Written;
  }

  lemma LargestBelow()
    ensures Effective(0xffff_fffe) * XTAL / ONE < TWO32
  {
  }

  lemma DividerGrows(f: word, g: word)
    requires f <= g
    ensures Divider(f) <= Divider(g)
  {
  }

  lemma MultiplierGrows(a: nat, b: nat)
    requires a <= b
    ensures a * XTAL / ONE <= b * XTAL / ONE
  {
  }

  lemma ReadBackMeans(id: PllId, freq: word)
    ensures ReadBack(id, 0) == 0
    ensures freq != 0 ==> ReadBack(id, freq) == Meaning(Written(freq), Prescaled(freq) && id.PllH?) % TWO32
  {
  }

  // Loop gains.

  function GainAna0(id: PllId, a0: word): word
  {
    if id.PllH? then Or32(Or32(And(And(a0, Not32(H_KA_MASK)), Not32(H_KI_LO_MASK)), 0x10_0000), 0x80_0000) else a0
  }

  function GainAna1(id: PllId, a1: word): word
  {
    if id.PllH? then Or32(And(And(a1, Not32(H_KI_HI_MASK)), Not32(H_KP_MASK)), 0xc)
    else Or32(Or32(And(And(a1, KI_MASK), Not32(KP_MASK)), 0x10_0000), 0x4_0000)
  }

  function GainAna3(id: PllId, a3: word): word
  {
    if id.PllH? then a3 else Or32(And(a3, Not32(KA_MASK)), 0x100)
  }

  /** The gains in the four words, where `ki` is what KI was. On the PLLs other than PLLH, KI should become 2. */
  ghost predicate Tuned(id: PllId, ki: nat, a0: word, a1: word, a3: word)
  {
    if id.PllH? then
      && Field(a0, 19, 3) == 2 && Field(a0, 22, 2) == 2
      && Field(a1, 0, 1) == 0 && Field(a1, 1, 4) == 6
    else
      && Field(a3, 7, 3) == 2 && Field(a1, 15, 4) == 8
      && Field(a1, 19, 3) == Or(ki, 2)
  }

  /**
   What happens to the other bits of the four words below the password: they stay, except that on the PLLs other
   than PLLH everything in ANA1 outside KI and KP is cleared.
   */
  ghost predicate OtherBits(id: PllId, b0: word, b1: word, b3: word, a0: word, a1: word, a3: word)
  {
    forall i: nat :: i < 24 ==>
      if id.PllH? then
        && (i < 19 ==> Field(a0, i, 1) == Field(b0, i, 1))
        && (i >= 5 && i != 11 ==> Field(a1, i, 1) == Field(b1, i, 1))
        && Field(a3, i, 1) == Field(b3, i, 1)
      else
        && Field(a0, i, 1) == Field(b0, i, 1)
        && (i < 15 || i >= 22 ==> Field(a1, i, 1) == 0)
        && (i < 7 || i >= 10 ==> Field(a3, i, 1) == Field(b3, i, 1))
  }

  /** Or-ing 2 into a three-bit KI gives 2 only if it had no other bit. */
  lemma KiBecomesTwo(ki: nat)
    requires ki < 8
    ensures Or(ki, 2) == 2 <==> ki == 0 || ki == 2
  {
  }

  // The registers.

  datatype Reg = CmPll | Xosc | Ana0 | Ana1 | Ana2 | Ana3 | Frac | Ctrl | Dig0 | Dig1 | Dig2 | Dig3 | Core0 | Per

  datatype Write = Write(reg: Reg, value: word)

  function AnaWrites(a3: word, a2: word, a1: word, a0: word): seq<Write>
  {
    [Write(Ana3, a3), Write(Ana2, a2), Write(Ana1, a1), Write(Ana0, a0)]
  }

  function DigWrites(d3: word, d2: word, d1: word, d0: word): seq<Write>
  {
    [Write(Dig3, d3), Write(Dig2, d2), Write(Dig1, d1), Write(Dig0, d0)]
  }

  /** The registers that a sequence of stores goes to. */
  function Regs(ws: seq<Write>): seq<Reg>
  {
    seq(|ws|, i requires 0 <= i < |ws| => ws[i].reg)
  }

  lemma RegsConcat(a: seq<Write>, b: seq<Write>)
    ensures Regs(a + b) == Regs(a) + Regs(b)
  {
  }

  /** The stores of a change of frequency: the multiplier comes before the gains only where the prescaler goes. */
  function ProgramOrder(unscales: bool): seq<Reg>
  {
    [Xosc] + (if unscales then [Frac, Ctrl, Ana3, Ana2, Ana1, Ana0] else [Ana3, Ana2, Ana1, Ana0, Frac, Ctrl]) + [CmPll]
  }

  function StartOrder(id: PllId): seq<Reg>
  {
    (if id.PllH? then [] else [CmPll]) + [Dig3, Dig2, Dig1, Dig0, Ctrl, Dig3, Dig2, Dig1, Dig0]
  }

  /** The stores of a change of frequency, `ana1` and the two halves of the multiplier being among them. */
  function ProgramWrites(unscales: bool, xosc: word, a3: word, a2: word, a1: word, a0: word, frac: word, ctrl: word,
                         cm: word): seq<Write>
  {
    [Write(Xosc, xosc)]
    + (if unscales then [Write(Frac, frac), Write(Ctrl, ctrl)] + AnaWrites(a3, a2, a1, a0)
       else AnaWrites(a3, a2, a1, a0) + [Write(Frac, frac), Write(Ctrl, ctrl)])
    + [Write(CmPll, cm)]
  }

  /** What a register holds after the first `k` of some stores. */
  function Latest(ws: seq<Write>, k: nat, reg: Reg, before: word): word
    requires k <= |ws|
  {
    if k == 0 then before else if ws[k - 1].reg == reg then ws[k - 1].value else Latest(ws, k - 1, reg, before)
  }

  /**
   The divider does not cope with the full frequency. So after no store of a change that turns the prescaler off is it
   off while any part of the old multiplier stands; and after no store of any other change is any part of the new
   multiplier in while the old prescaler bit stands.
   */
  lemma PrescalerGuardsDivider(unscales: bool, xosc: word, a3: word, a2: word, a1: word, a0: word, frac: word,
                               ctrl: word, cm: word, k: nat, oldA1: word, oldFrac: word, oldCtrl: word)
    requires k <= 8
    ensures var ws := ProgramWrites(unscales, xosc, a3, a2, a1, a0, frac, ctrl, cm);
            && |ws| == 8
            && var a := Latest(ws, k, Ana1, oldA1);
               var f, c := Latest(ws, k, Frac, oldFrac), Latest(ws, k, Ctrl, oldCtrl);
               if unscales then a == oldA1 || (f == frac && c == ctrl)
               else (f == oldFrac && c == oldCtrl) || a == a1
  {
    var ws := ProgramWrites(unscales, xosc, a3, a2, a1, a0, frac, ctrl, cm);
    EightSteps(ws, Ana1, oldA1);
    EightSteps(ws, Frac, oldFrac);
    EightSteps(ws, Ctrl, oldCtrl);
    assert if unscales then ws[1].reg == Frac && ws[2].reg == Ctrl && ws[5].reg == Ana1
           else ws[3].reg == Ana1 && ws[5].reg == Frac && ws[6].reg == Ctrl;
    hide Latest;
  }

  lemma EightSteps(ws: seq<Write>, reg: Reg, before: word)
    requires |ws| == 8
    ensures var l := k requires 0 <= k <= 8 => Latest(ws, k, reg, before);
            && l(0) == before
            && l(1) == (if ws[0].reg == reg then ws[0].value else l(0))
            && l(2) == (if ws[1].reg == reg then ws[1].value else l(1))
            && l(3) == (if ws[2].reg == reg then ws[2].value else l(2))
            && l(4) == (if ws[3].reg == reg then ws[3].value else l(3))
            && l(5) == (if ws[4].reg == reg then ws[4].value else l(4))
            && l(6) == (if ws[5].reg == reg then ws[5].value else l(5))
            && l(7) == (if ws[6].reg == reg then ws[6].value else l(6))
            && l(8) == (if ws[7].reg == reg then ws[7].value else l(7))
  {
  }

  /** All four channels held, and the digital part in reset. */
  function HoldAll(): word
  {
    Or32(Or32(Or32(Or32(Or32(PASSWORD, CM_DIGRST), CM_HOLDPER), CM_HOLDCORE2), CM_HOLDCORE1), CM_HOLDCORE0)
  }

  /** The two channels not in use held. */
  function HoldUnused(): word
  {
    Or32(Or32(Or32(PASSWORD, CM_DIGRST), CM_HOLDCORE2), CM_HOLDCORE1)
  }

  lemma HoldValues()
    ensures HoldAll() == 0x5a00_02aa && HoldUnused() == 0x5a00_0228 && Or32(HoldAll(), CM_LOADCORE0) == 0x5a00_02ab
  {
    hide Or, Pow2;
    PowTable();
    OrAt(PASSWORD, CM_DIGRST, 9, 1, 0x200, 2);
    OrAt(0x5a00_0200, CM_HOLDPER, 7, 1, 0x80, 2);
    OrAt(0x5a00_0280, CM_HOLDCORE2, 5, 1, 0x20, 2);
    OrAt(0x5a00_02a0, CM_HOLDCORE1, 3, 1, 8, 2);
    OrAt(0x5a00_02a8, CM_HOLDCORE0, 1, 1, 2, 2);
    OrAt(0x5a00_02aa, CM_LOADCORE0, 0, 1, 1, 2);
    OrAt(0x5a00_0200, CM_HOLDCORE2, 5, 1, 0x20, 2);
    OrAt(0x5a00_0220, CM_HOLDCORE1, 3, 1, 8, 2);
  }

  /** The stores of `setup_pllc` before it holds the channels. */
  function AnalogWrites(enableBit: word, xosc: word, div: word, fraction: word): seq<Write>
  {
    [Write(CmPll, Or32(PASSWORD, PLL_ANARST)), Write(Xosc, Or32(xosc, Or32(PASSWORD, enableBit))),
     Write(Frac, Or32(PASSWORD, fraction)), Write(Ctrl, Or32(Or32(PASSWORD, div), 0x1000))]
    + AnaWrites(Or32(PASSWORD, 0x100), PASSWORD, Or32(Or32(Or32(PASSWORD, 0x4000), 0x10_0000), 0x4_0000), PASSWORD)
    + [Write(CmPll, Or32(PASSWORD, CM_DIGRST))]
  }

  function ChannelWrites(core0Div: word, perDiv: word): seq<Write>
  {
    [Write(Core0, Or32(PASSWORD, core0Div)), Write(Per, Or32(PASSWORD, perDiv)),
     Write(CmPll, Or32(HoldAll(), CM_LOADCORE0)), Write(CmPll, HoldAll()),
     Write(CmPll, HoldUnused())]
  }

  function SetupWrites(enableBit: word, xosc: word, div: word, fraction: word, core0Div: word, perDiv: word): seq<Write>
  {
    AnalogWrites(enableBit, xosc, div, fraction)
    + [Write(CmPll, HoldAll())]
    + DigWrites(PASSWORD, Or32(PASSWORD, 0x40_0000), Or32(PASSWORD, 0x5), Or32(Or32(PASSWORD, div), 0x55_5000))
    + [Write(Ctrl, Or32(Or32(Or32(PASSWORD, div), 0x1000), CTRL_PRSTN))]
    + [Write(Frac, Or32(PASSWORD, fraction))]
    + DigWrites(Or32(PASSWORD, 0x42), Or32(PASSWORD, 0x50_0401), Or32(PASSWORD, 0x4005),
                Or32(Or32(PASSWORD, div), 0x55_5000))
    + ChannelWrites(core0Div, perDiv)
    + [Write(Frac, Or32(PASSWORD, fraction))]
  }

  function SetupOrder(): seq<Reg>
  {
    [CmPll, Xosc, Frac, Ctrl, Ana3, Ana2, Ana1, Ana0, CmPll] + [CmPll] + [Dig3, Dig2, Dig1, Dig0] + [Ctrl] + [Frac]
    + [Dig3, Dig2, Dig1, Dig0] + [Core0, Per, CmPll, CmPll, CmPll] + [Frac]
  }

  /** The hold bits of the four channels. */
  predicate Holding(v: word)
  {
    Field(v, 1, 1) == 1 && Field(v, 3, 1) == 1 && Field(v, 5, 1) == 1 && Field(v, 7, 1) == 1
  }

  lemma HoldingOr(a: word, b: word)
    ensures Holding(a) ==> Holding(Or32(a, b))
  {
    hide Or, Low, Shr, Field;
    EitherBit(a, b, 1);
    EitherBit(a, b, 3);
    EitherBit(a, b, 5);
    EitherBit(a, b, 7);
  }

  lemma HoldAllHolds()
    ensures Holding(HoldAll()) && Holding(Or32(HoldAll(), CM_LOADCORE0))
  {
    hide Or, Pow2, Low, Shr, Field, HoldAll;
    HoldValues();
    HoldingOr(HoldAll(), CM_LOADCORE0);
    PowTable();
    FieldIs(0x5a00_02aa, 0x5a00_02aa / 4, 1, 0, 1, 1, 2, 2);
    FieldIs(0x5a00_02aa, 0x5a00_02aa / 16, 1, 2, 3, 1, 8, 2);
    FieldIs(0x5a00_02aa, 0x5a00_02aa / 64, 1, 0xa, 5, 1, 0x20, 2);
    FieldIs(0x5a00_02aa, 0x5a00_02aa / 256, 1, 0x2a, 7, 1, 0x80, 2);
  }

  /**
   While `setup_pllc` changes the DIG words and the channel dividers, all four channels are held: every such store
   lies behind one of the hold bits and no store between takes one of them away.
   */
  lemma ChannelsHeld(enableBit: word, xosc: word, div: word, fraction: word, core0Div: word, perDiv: word, i: nat)
    requires i < |SetupWrites(enableBit, xosc, div, fraction, core0Div, perDiv)|
    ensures var ws := SetupWrites(enableBit, xosc, div, fraction, core0Div, perDiv);
            && (ws[i].reg in {Dig3, Dig2, Dig1, Dig0, Core0, Per} ==> 10 <= i < 22)
            && ws[9].reg == CmPll
            && (9 <= i < 24 && ws[i].reg == CmPll ==> Holding(ws[i].value))
  {
    hide Or32, Or, Holding, HoldAll, Regs, SetupWrites;
    HoldAllHolds();
    SetupRegs(enableBit, xosc, div, fraction, core0Div, perDiv);
    RegAt(SetupWrites(enableBit, xosc, div, fraction, core0Div, perDiv), i);
    RegAt(SetupWrites(enableBit, xosc, div, fraction, core0Div, perDiv), 9);
    SetupHolds(enableBit, xosc, div, fraction, core0Div, perDiv);
  }

  lemma RegAt(ws: seq<Write>, i: nat)
    requires i < |ws|
    ensures |Regs(ws)| == |ws| && Regs(ws)[i] == ws[i].reg
  {
  }

  lemma SetupHolds(enableBit: word, xosc: word, div: word, fraction: word, core0Div: word, perDiv: word)
    ensures var ws := SetupWrites(enableBit, xosc, div, fraction, core0Div, perDiv);
            && |ws| == 26 && ws[9].value == HoldAll()
            && ws[22].value == Or32(HoldAll(), CM_LOADCORE0) && ws[23].value == HoldAll()
  {
    hide Or32, Or, HoldAll;
  }

  /** The four bits of the password. A register of these blocks ignores a store without them. */
  predicate Passworded(v: word)
  {
    Field(v, 30, 1) == 1 && Field(v, 28, 1) == 1 && Field(v, 27, 1) == 1 && Field(v, 25, 1) == 1
  }

  ghost predicate AllPassworded(ws: seq<Write>)
  {
    forall i :: 0 <= i < |ws| ==> Passworded(ws[i].value)
  }

  /** The stores since `before` went to these registers, in this order, each with the password. */
  ghost predicate Grown(before: seq<Write>, after: seq<Write>, order: seq<Reg>)
  {
    before <= after && Regs(after[|before|..]) == order && AllPassworded(after[|before|..])
  }

  lemma GrownBy(before: seq<Write>, ws: seq<Write>)
    requires AllPassworded(ws)
    ensures Grown(before, before + ws, Regs(ws))
  {
    hide Passworded;
    assert (before + ws)[|before|..] == ws;
  }

  lemma GrownTwice(a: seq<Write>, b: seq<Write>, c: seq<Write>, order1: seq<Reg>, order2: seq<Reg>)
    requires Grown(a, b, order1) && Grown(b, c, order2)
    ensures Grown(a, c, order1 + order2)
  {
    hide Passworded;
    assert c[|a|..] == b[|a|..] + c[|b|..];
    RegsConcat(b[|a|..], c[|b|..]);
  }

  /** A word put together with the password carries it. */
  lemma Passwords()
    ensures Passworded(PASSWORD)
    ensures forall a: word, b: word :: Passworded(a) || Passworded(b) ==> Passworded(Or32(a, b))
  {
    hide Passworded;
    PasswordHolds();
    forall a: word, b: word
      ensures Passworded(a) || Passworded(b) ==> Passworded(Or32(a, b))
    {
      PasswordedOr(a, b);
    }
  }

  lemma ProgramLogged(unscales: bool, xosc: word, a3: word, a2: word, a1: word, a0: word, frac: word, ctrl: word,
                      cm: word)
    ensures ProgramWrites(unscales, xosc, a3, a2, a1, a0, frac, ctrl, cm)
         == [Write(Xosc, xosc)] + (if unscales then [] else AnaWrites(a3, a2, a1, a0))
            + [Write(Frac, frac), Write(Ctrl, ctrl)] + (if unscales then AnaWrites(a3, a2, a1, a0) else [])
            + [Write(CmPll, cm)]
  {
    hide AnaWrites;
  }

  lemma ProgramGrows(before: seq<Write>, unscales: bool, xosc: word, a3: word, a2: word, a1: word, a0: word, frac: word,
                     ctrl: word, cm: word)
    requires Passworded(xosc) && Passworded(a3) && Passworded(a2) && Passworded(a1) && Passworded(a0)
    requires Passworded(frac) && Passworded(ctrl) && Passworded(cm)
    ensures Grown(before, before + ProgramWrites(unscales, xosc, a3, a2, a1, a0, frac, ctrl, cm),
                  ProgramOrder(unscales))
  {
    hide Passworded;
    var ws := ProgramWrites(unscales, xosc, a3, a2, a1, a0, frac, ctrl, cm);
    GrownBy(before, ws);
    assert Regs(ws) == ProgramOrder(unscales);
  }

  /** The stores of `pll_start`. */
  function StartWrites(id: PllId, cm: word, first: seq<Write>, ctrl: word, last: seq<Write>): seq<Write>
  {
    (if id.PllH? then [] else [Write(CmPll, cm)]) + first + [Write(Ctrl, ctrl)] + last
  }

  /** Their first values of the four DIG registers: the old ones without the bits to be pulsed. */
  function FirstDigs(id: PllId, d3: word, d2: word, d1: word, d0: word): seq<Write>
  {
    if id.PllH? then
      DigWrites(Or32(PASSWORD, d3), Or32(PASSWORD, And(d2, Not32(0xa8))), Or32(PASSWORD, d1), Or32(PASSWORD, d0))
    else
      DigWrites(Or32(PASSWORD, d3), Or32(PASSWORD, And(d2, Not32(0x10_0401))), Or32(PASSWORD, And(d1, Not32(0x4000))),
                Or32(PASSWORD, d0))
  }

  lemma DigsPassworded(d3: word, d2: word, d1: word, d0: word)
    requires Passworded(d3) && Passworded(d2) && Passworded(d1) && Passworded(d0)
    ensures AllPassworded(DigWrites(d3, d2, d1, d0)) && Regs(DigWrites(d3, d2, d1, d0)) == [Dig3, Dig2, Dig1, Dig0]
  {
    hide Passworded;
  }

  lemma FirstDigsPassworded(id: PllId, d3: word, d2: word, d1: word, d0: word)
    ensures AllPassworded(FirstDigs(id, d3, d2, d1, d0))
    ensures Regs(FirstDigs(id, d3, d2, d1, d0)) == [Dig3, Dig2, Dig1, Dig0]
  {
    hide Passworded, DigWrites, Or32, And, Or;
    Passwords();
    DigsPassworded(Or32(PASSWORD, d3), Or32(PASSWORD, And(d2, Not32(0xa8))), Or32(PASSWORD, d1), Or32(PASSWORD, d0));
    DigsPassworded(Or32(PASSWORD, d3), Or32(PASSWORD, And(d2, Not32(0x10_0401))),
                   Or32(PASSWORD, And(d1, Not32(0x4000))), Or32(PASSWORD, d0));
  }

  lemma StartGrows(before: seq<Write>, id: PllId, cm: word, first: seq<Write>, ctrl: word, last: seq<Write>)
    requires (id.PllH? || Passworded(cm)) && Passworded(ctrl) && AllPassworded(first) && AllPassworded(last)
    requires Regs(first) == Regs(last) == [Dig3, Dig2, Dig1, Dig0]
    ensures Grown(before, before + StartWrites(id, cm, first, ctrl, last), StartOrder(id))
  {
    hide Passworded, Regs;
    var hold := if id.PllH? then [] else [Write(CmPll, cm)];
    RegsOne(Write(CmPll, cm));
    RegsOne(Write(Ctrl, ctrl));
    RegsConcat(hold, first);
    RegsConcat(hold + first, [Write(Ctrl, ctrl)]);
    RegsConcat(hold + first + [Write(Ctrl, ctrl)], last);
    GrownBy(before, StartWrites(id, cm, first, ctrl, last));
  }

  lemma OffGrows(before: seq<Write>, cm: word, ctrl: word)
    requires Passworded(cm) && Passworded(ctrl)
    ensures Grown(before, before + [Write(CmPll, cm)] + [Write(Ctrl, ctrl)], [CmPll, Ctrl])
  {
    hide Passworded;
    GrownBy(before, [Write(CmPll, cm), Write(Ctrl, ctrl)]);
    assert before + [Write(CmPll, cm)] + [Write(Ctrl, ctrl)] == before + [Write(CmPll, cm), Write(Ctrl, ctrl)];
  }

  lemma SetupRegs(enableBit: word, xosc: word, div: word, fraction: word, core0Div: word, perDiv: word)
    ensures Regs(SetupWrites(enableBit, xosc, div, fraction, core0Div, perDiv)) == SetupOrder()
  {
    hide Or32, Or, HoldAll;
    var a, h := AnalogWrites(enableBit, xosc, div, fraction), [Write(CmPll, HoldAll())];
    var d1 := DigWrites(PASSWORD, Or32(PASSWORD, 0x40_0000), Or32(PASSWORD, 0x5), Or32(Or32(PASSWORD, div), 0x55_5000));
    var c := [Write(Ctrl, Or32(Or32(Or32(PASSWORD, div), 0x1000), CTRL_PRSTN))];
    var f := [Write(Frac, Or32(PASSWORD, fraction))];
    var d2 := DigWrites(Or32(PASSWORD, 0x42), Or32(PASSWORD, 0x50_0401), Or32(PASSWORD, 0x4005),
                        Or32(Or32(PASSWORD, div), 0x55_5000));
    var ch := ChannelWrites(core0Div, perDiv);
    assert Regs(a) == [CmPll, Xosc, Frac, Ctrl, Ana3, Ana2, Ana1, Ana0, CmPll];
    assert Regs(d1) == Regs(d2) == [Dig3, Dig2, Dig1, Dig0];
    assert Regs(ch) == [Core0, Per, CmPll, CmPll, CmPll];
    assert Regs(h) == [CmPll] && Regs(c) == [Ctrl] && Regs(f) == [Frac];
    hide Regs, AnalogWrites, DigWrites, ChannelWrites;
    RegsConcat(a, h);
    RegsConcat(a + h, d1);
    RegsConcat(a + h + d1, c);
    RegsConcat(a + h + d1 + c, f);
    RegsConcat(a + h + d1 + c + f, d2);
    RegsConcat(a + h + d1 + c + f + d2, ch);
    RegsConcat(a + h + d1 + c + f + d2 + ch, f);
  }

  lemma SetupPassworded(enableBit: word, xosc: word, div: word, fraction: word, core0Div: word, perDiv: word)
    ensures AllPassworded(SetupWrites(enableBit, xosc, div, fraction, core0Div, perDiv))
  {
    hide Passworded, Or32, Or;
    Passwords();
    assert AllPassworded(AnalogWrites(enableBit, xosc, div, fraction));
    HoldAllPassworded();
    hide HoldAll;
    assert AllPassworded(ChannelWrites(core0Div, perDiv));
    hide AnalogWrites, ChannelWrites;
  }

  lemma SetupGrows(before: seq<Write>, enableBit: word, xosc: word, div: word, fraction: word, core0Div: word,
                   perDiv: word)
    ensures Grown(before, before + SetupWrites(enableBit, xosc, div, fraction, core0Div, perDiv), SetupOrder())
  {
    hide SetupWrites, AllPassworded, Regs, SetupOrder, Grown;
    SetupRegs(enableBit, xosc, div, fraction, core0Div, perDiv);
    SetupPassworded(enableBit, xosc, div, fraction, core0Div, perDiv);
    GrownBy(before, SetupWrites(enableBit, xosc, div, fraction, core0Div, perDiv));
  }

  lemma SetupChain(o: seq<Write>, enableBit: word, xosc: word, div: word, fraction: word, core0Div: word, perDiv: word)
    ensures o + SetupWrites(enableBit, xosc, div, fraction, core0Div, perDiv)
         == o + AnalogWrites(enableBit, xosc, div, fraction) + [Write(CmPll, HoldAll())]
            + DigWrites(PASSWORD, Or32(PASSWORD, 0x40_0000), Or32(PASSWORD, 0x5), Or32(Or32(PASSWORD, div), 0x55_5000))
            + [Write(Ctrl, Or32(Or32(Or32(PASSWORD, div), 0x1000), CTRL_PRSTN))]
            + [Write(Frac, Or32(PASSWORD, fraction))]
            + DigWrites(Or32(PASSWORD, 0x42), Or32(PASSWORD, 0x50_0401), Or32(PASSWORD, 0x4005),
                        Or32(Or32(PASSWORD, div), 0x55_5000))
            + ChannelWrites(core0Div, perDiv) + [Write(Frac, Or32(PASSWORD, fraction))]
  {
    hide Or32, Or, HoldAll, AnalogWrites, DigWrites, ChannelWrites;
    var a, h := AnalogWrites(enableBit, xosc, div, fraction), [Write(CmPll, HoldAll())];
    var d1 := DigWrites(PASSWORD, Or32(PASSWORD, 0x40_0000), Or32(PASSWORD, 0x5), Or32(Or32(PASSWORD, div), 0x55_5000));
    var c := [Write(Ctrl, Or32(Or32(Or32(PASSWORD, div), 0x1000), CTRL_PRSTN))];
    var f := [Write(Frac, Or32(PASSWORD, fraction))];
    var d2 := DigWrites(Or32(PASSWORD, 0x42), Or32(PASSWORD, 0x50_0401), Or32(PASSWORD, 0x4005),
                        Or32(Or32(PASSWORD, div), 0x55_5000));
    var ch := ChannelWrites(core0Div, perDiv);
    Appended(o, a, h);
    Appended(o, a + h, d1);
    Appended(o, a + h + d1, c);
    Appended(o, a + h + d1 + c, f);
    Appended(o, a + h + d1 + c + f, d2);
    Appended(o, a + h + d1 + c + f + d2, ch);
    Appended(o, a + h + d1 + c + f + d2 + ch, f);
  }

  lemma Appended(o: seq<Write>, a: seq<Write>, b: seq<Write>)
    ensures o + a + b == o + (a + b)
  {
  }

  lemma HoldAllPassworded()
    ensures Passworded(HoldAll())
  {
    hide Passworded, Or32, Or;
    Passwords();
  }

  lemma RegsOne(w: Write)
    ensures Regs([]) == [] && Regs([w]) == [w.reg]
  {
  }

  lemma PasswordHolds()
    ensures Passworded(PASSWORD)
  {
    hide Pow2, Low, Shr, Field;
    PowTable();
    FieldIs(PASSWORD, 0, 1, PASSWORD - 0x4000_0000, 30, 1, 0x4000_0000, 2);
    FieldDivMod(PASSWORD, 28, 1);
    FieldDivMod(PASSWORD, 27, 1);
    FieldDivMod(PASSWORD, 25, 1);
    PowAdd(24, 4);
    PowAdd(24, 3);
    PowAdd(24, 1);
  }

  lemma PasswordedOr(a: word, b: word)
    ensures Passworded(a) || Passworded(b) ==> Passworded(Or32(a, b))
  {
    hide Or, Pow2, Low, Shr, Field;
    EitherBit(a, b, 30);
    EitherBit(a, b, 28);
    EitherBit(a, b, 27);
    EitherBit(a, b, 25);
  }

  lemma EitherBit(a: nat, b: nat, i: nat)
    ensures Field(a, i, 1) == 1 || Field(b, i, 1) == 1 ==> Field(Or(a, b), i, 1) == 1
  {
    hide Or, Low, Shr, Field;
    FieldOr(a, b, i, 1);
    BitBound(a, i);
    BitBound(b, i);
    BitOrs();
  }

  lemma BitOrs()
    ensures Or(0, 1) == 1 && Or(1, 0) == 1 && Or(1, 1) == 1
  {
  }

  class PllRegs {
    const id: PllId
    const enableBit: word
    var ana0: word
    var ana1: word
    var ana2: word
    var ana3: word
    var frac: word
    var ctrl: word
    var cmPll: word
    var xosc: word
    var dig0: word
    var dig1: word
    var dig2: word
    var dig3: word
    /** The dividers of the CORE0 and PER channels. */
    var core0: word
    var per: word

    /** Every store to a register, in order. */
    ghost var log: seq<Write>

    /** The registers of one PLL, with whatever they hold. */
    constructor (id: PllId, enableBit: word)
      ensures this.id == id && this.enableBit == enableBit
    {
      this.id, this.enableBit := id, enableBit;
    }

    method SetCm(v: word)
      modifies this`cmPll, this`log
      ensures cmPll == v && log == old(log) + [Write(CmPll, v)]
    {
      cmPll := v;
      log := log + [Write(CmPll, v)];
    }

    method SetXosc(v: word)
      modifies this`xosc, this`log
      ensures xosc == v && log == old(log) + [Write(Xosc, v)]
    {
      xosc := v;
      log := log + [Write(Xosc, v)];
    }

    method SetFrac(v: word)
      modifies this`frac, this`log
      ensures frac == v && log == old(log) + [Write(Frac, v)]
    {
      frac := v;
      log := log + [Write(Frac, v)];
    }

    method SetCtrl(v: word)
      modifies this`ctrl, this`log
      ensures ctrl == v && log == old(log) + [Write(Ctrl, v)]
    {
      ctrl := v;
      log := log + [Write(Ctrl, v)];
    }

    method SetCore0(v: word)
      modifies this`core0, this`log
      ensures core0 == v && log == old(log) + [Write(Core0, v)]
    {
      core0 := v;
      log := log + [Write(Core0, v)];
    }

    method SetPer(v: word)
      modifies this`per, this`log
      ensures per == v && log == old(log) + [Write(Per, v)]
    {
      per := v;
      log := log + [Write(Per, v)];
    }

    method StoreAna(a3: word, a2: word, a1: word, a0: word)
      modifies this`ana3, this`ana2, this`ana1, this`ana0, this`log
      ensures ana3 == a3 && ana2 == a2 && ana1 == a1 && ana0 == a0 && log == old(log) + AnaWrites(a3, a2, a1, a0)
    {
      ana3 := a3;
      log := log + [Write(Ana3, a3)];
      ana2 := a2;
      log := log + [Write(Ana2, a2)];
      ana1 := a1;
      log := log + [Write(Ana1, a1)];
      ana0 := a0;
      log := log + [Write(Ana0, a0)];
    }

    method StoreDig(d3: word, d2: word, d1: word, d0: word)
      modifies this`dig3, this`dig2, this`dig1, this`dig0, this`log
      ensures dig3 == d3 && dig2 == d2 && dig1 == d1 && dig0 == d0 && log == old(log) + DigWrites(d3, d2, d1, d0)
    {
      dig3 := d3;
      log := log + [Write(Dig3, d3)];
      dig2 := d2;
      log := log + [Write(Dig2, d2)];
      dig1 := d1;
      log := log + [Write(Dig1, d1)];
      dig0 := d0;
      log := log + [Write(Dig0, d0)];
    }

    /** The registers hold this multiplier, undivided, with or without the prescaler. */
    ghost predicate Holds(div: nat, prescaled: bool)
      reads this
    {
      && Field(ctrl, 0, NdivBits(id)) == div / ONE
      && Field(ctrl, 12, 3) == 1
      && Field(frac, 0, 20) == div % ONE
      && (Field(ana1, PrescaleBit(id), 1) == 1 <==> prescaled)
    }

    /** The frequency the registers mean, by the formula of the PLL. */
    function PllFreq(): word
      reads this
    {
      var ndiv, pdiv, fraction := Field(ctrl, 0, NdivBits(id)), Field(ctrl, 12, 3), Field(frac, 0, 20);
      var div := if Field(ana1, PrescaleBit(id), 1) == 1 then 2 * (ndiv * ONE + fraction) else ndiv * ONE + fraction;
      if pdiv == 0 then 0 else Divided(div, pdiv)
    }

    /**
     The formula on the numbers in the registers: the frequency is the largest whole number of Hz not above the crystal
     times the multiplier, which has 20 fractional bits and is doubled by the prescaler, over the pre-divider.
     */
    lemma FreqOfRegisters(f: nat)
      ensures ctrl / 0x1000 % 8 == 0 ==> PllFreq() == 0
      ensures var ndiv := if id.PllH? then ctrl % 0x100 else ctrl % 0x400;
              var doubled := if id.PllH? then ana1 / 0x800 % 2 == 1 else ana1 / 0x4000 % 2 == 1;
              var mult := (if doubled then 2 else 1) * (ndiv * 0x10_0000 + frac % 0x10_0000);
              var step := ctrl / 0x1000 % 8 * 0x10_0000;
              step > 0 && f * step <= mult * 19_200_000 < f * step + step ==> PllFreq() == f % 0x1_0000_0000
    {
      hide Pow2, Field, Divided;
      PowTable();
      FieldDivMod(ctrl, 0, NdivBits(id));
      FieldDivMod(ctrl, 12, 3);
      FieldDivMod(frac, 0, 20);
      FieldDivMod(ana1, PrescaleBit(id), 1);
      var ndiv, pdiv, fraction := Field(ctrl, 0, NdivBits(id)), Field(ctrl, 12, 3), Field(frac, 0, 20);
      var mult := if Field(ana1, PrescaleBit(id), 1) == 1 then 2 * (ndiv * ONE + fraction) else ndiv * ONE + fraction;
      if pdiv > 0 {
        DividedExact(mult, pdiv, f);
      }
    }

    lemma HoldsMeans(div: nat, prescaled: bool)
      requires Holds(div, prescaled) && div < 0x4000_0000
      ensures PllFreq() == Meaning(div, prescaled) % TWO32
    {
      hide Field;
    }

    method GetPllFreq() returns (freq: word)
      ensures freq == PllFreq()
    {
      hide And, Or, Shl, Shr, Low, Pow2, Field, Divided;
      FieldReads(ctrl, frac, ana1, id);
      var ndiv := And(ctrl, NdivMask(id));
      var pdiv := Shr(And(ctrl, PDIV_MASK), 12);
      if pdiv == 0 {
        return 0;
      }
      var fraction := And(frac, FRAC_MASK);
      JoinDivider(ndiv, fraction);
      var div := Or32(Shl32(ndiv, 20), fraction);
      if And(ana1, Pow2(PrescaleBit(id))) != 0 {
        PowTable();
        ShlAt(div, 1, 2);
        div := Shl32(div, 1);
      }
      freq := Divided(div, pdiv);
    }

    /** The frequency of a channel: nothing when it is disabled or has no divider. */
    method GetPllChanFreq(chanCtrl: word) returns (freq: word)
      ensures freq == if Field(chanCtrl, 8, 1) == 1 || Field(chanCtrl, 0, 8) == 0 then 0
                      else PllFreq() / Field(chanCtrl, 0, 8)
    {
      hide And, Low, Shr, Pow2, Field, Divided, NdivBits, PrescaleBit;
      ChannelReads(chanCtrl);
      var div := And(chanCtrl, 0xff);
      if And(chanCtrl, 0x100) != 0 || div == 0 {
        return 0;
      }
      var pll := GetPllFreq();
      return pll / div;
    }

    /** `pll_start`: holds the channels, pulses the digital control and takes the divider out of reset. */
    method PllStart()
      modifies this`ctrl, this`cmPll, this`dig0, this`dig1, this`dig2, this`dig3, this`log
      ensures forall div: nat, prescaled :: old(Holds(div, prescaled)) ==> Holds(div, prescaled)
      ensures Field(ctrl, 17, 1) == 1 && Field(ctrl, 16, 1) == old(Field(ctrl, 16, 1))
      ensures Field(cmPll, 8, 1) == old(Field(cmPll, 8, 1))
      ensures dig0 == Or32(PASSWORD, old(dig0)) && dig1 == Or32(PASSWORD, old(dig1))
      ensures dig2 == Or32(PASSWORD, old(dig2)) && dig3 == Or32(PASSWORD, Or32(old(dig3), 0x42))
      ensures ctrl == Or32(PASSWORD, Or32(old(ctrl), CTRL_PRSTN))
      ensures cmPll == if id.PllH? then old(cmPll) else Or32(PASSWORD, Or32(old(cmPll), 0xaa))
      ensures log == old(log) + StartWrites(id, cmPll, FirstDigs(id, old(dig3), old(dig2), old(dig1), old(dig0)), ctrl,
                                            DigWrites(dig3, dig2, dig1, dig0))
      ensures Grown(old(log), log, StartOrder(id))
    {
      hide And, Or, Low, Shr, Field, DigWrites, Passworded, AllPassworded, Grown;
      Passwords();
      var d3, d2, d1, d0 := dig3, dig2, dig1, dig0;
      if id.PllH? {
        StoreDig(Or32(PASSWORD, d3), Or32(PASSWORD, And(d2, Not32(0xa8))), Or32(PASSWORD, d1), Or32(PASSWORD, d0));
      } else {
        HoldBitsApart(cmPll);
        SetCm(Or32(PASSWORD, Or32(cmPll, 0xaa)));
        StoreDig(Or32(PASSWORD, d3), Or32(PASSWORD, And(d2, Not32(0x10_0401))), Or32(PASSWORD, And(d1, Not32(0x4000))),
                 Or32(PASSWORD, d0));
      }
      ResetBitApart(ctrl, id);
      SetCtrl(Or32(PASSWORD, Or32(ctrl, CTRL_PRSTN)));
      StoreDig(Or32(PASSWORD, Or32(d3, 0x42)), Or32(PASSWORD, d2), Or32(PASSWORD, d1), Or32(PASSWORD, d0));
      FirstDigsPassworded(id, d3, d2, d1, d0);
      DigsPassworded(dig3, dig2, dig1, dig0);
      StartGrows(old(log), id, cmPll, FirstDigs(id, d3, d2, d1, d0), ctrl, DigWrites(dig3, dig2, dig1, dig0));
    }

    /** The two stores of the multiplier, fraction first. */
    method SetMultiplier(div: word)
      requires div < 0x1000_0000
      modifies this`frac, this`ctrl, this`log
      ensures Field(ctrl, 0, NdivBits(id)) == div / ONE && Field(ctrl, 12, 3) == 1 && Field(frac, 0, 20) == div % ONE
      ensures Field(ctrl, 16, 1) == 0 && Field(ctrl, 17, 1) == old(Field(ctrl, 17, 1))
      ensures log == old(log) + [Write(Frac, frac), Write(Ctrl, ctrl)] && Passworded(frac) && Passworded(ctrl)
    {
      hide And, Or, Shr, Low, Pow2, Field, Not32, Or32, Passworded;
      Passwords();
      CtrlFields(ctrl, div, id);
      PowerFields(ctrl, div, id);
      FracField(div);
      SetFrac(Or32(PASSWORD, And(div, FRAC_MASK)));
      SetCtrl(Or32(Or32(Or32(PASSWORD, And(And(And(ctrl, Not32(CTRL_PWRDN)), Not32(PDIV_MASK)), Not32(NdivMask(id)))),
                        Shr(div, 20)), 0x1000));
    }

    /** Everything `set_pll_freq` writes for a frequency other than 0, before it waits for the lock. */
    method Program(freq: word) returns (wasOff: bool)
      requires freq != 0
      modifies this`ana0, this`ana1, this`ana2, this`ana3, this`frac, this`ctrl, this`cmPll, this`xosc, this`log
      ensures Holds(Written(freq), Prescaled(freq) && id.PllH?)
      ensures Tuned(id, old(Field(ana1, 19, 3)), ana0, ana1, ana3)
      ensures OtherBits(id, old(ana0), old(ana1), old(ana3), ana0, ana1, ana3) && ana2 == Or32(PASSWORD, old(ana2))
      ensures Field(ctrl, 16, 1) == 0 && Field(cmPll, 8, 1) == 0
      ensures xosc == Or32(old(xosc), Or32(PASSWORD, enableBit))
      ensures Field(ctrl, 17, 1) == old(Field(ctrl, 17, 1)) && (wasOff <==> Field(ctrl, 17, 1) == 0)
      ensures log == old(log) + ProgramWrites(old(Field(ana1, PrescaleBit(id), 1)) == 1 && freq <= 1_750_000_000,
                                              xosc, ana3, ana2, ana1, ana0, frac, ctrl, cmPll)
      ensures Grown(old(log), log, ProgramOrder(old(Field(ana1, PrescaleBit(id), 1)) == 1 && freq <= 1_750_000_000))
    {
      hide And, Or, Shl, Shr, Low, Pow2, Field, Not32, Shl32, GainAna0, GainAna1, GainAna3, Tuned, OtherBits,
        Passworded, Grown, AnaWrites, ProgramWrites;
      Passwords();
      ResetBit(ctrl);
      wasOff := And(ctrl, CTRL_PRSTN) == 0;
      var a3, a2, a1, a0 := ana3, ana2, ana1, ana0;
      PrescaleMask(id);
      var bit: word := Pow2(PrescaleBit(id));
      TestBit(a1, PrescaleBit(id));
      var wasPrescaled := And(a1, bit) != 0;
      var div: word := (freq * ONE + XTAL / 2) / XTAL;
      var isPrescaled := freq > MAX_UNSCALED;
      KiApart(id, a1);
      if isPrescaled {
        div := (div + 1) / 2;
        PrescaleSet(a1, id);
        a1 := Or32(a1, bit);
      } else {
        PrescaleClear(a1, id);
        a1 := And(a1, Not32(bit));
      }
      SetXosc(Or32(xosc, Or32(PASSWORD, enableBit)));
      GainFields(id, a0, a1, a3);
      GainsKeep(id, a0, a1, a3, ana1);
      a3, a1, a0 := GainAna3(id, a3), GainAna1(id, a1), GainAna0(id, a0);
      PasswordApart(id, a0, a1, a3);
      PasswordKeeps(id, ana0, ana1, ana3, a0, a1, a3);
      if !wasPrescaled || isPrescaled {
        StoreAna(Or32(PASSWORD, a3), Or32(PASSWORD, a2), Or32(PASSWORD, a1), Or32(PASSWORD, a0));
      }
      SetMultiplier(div);
      if wasPrescaled && !isPrescaled {
        StoreAna(Or32(PASSWORD, a3), Or32(PASSWORD, a2), Or32(PASSWORD, a1), Or32(PASSWORD, a0));
      }
      ResetReleased(cmPll);
      SetCm(Or32(PASSWORD, And(cmPll, Not32(PLL_ANARST))));
      ProgramLogged(wasPrescaled && !isPrescaled, xosc, ana3, ana2, ana1, ana0, frac, ctrl, cmPll);
      ProgramGrows(old(log), wasPrescaled && !isPrescaled, xosc, ana3, ana2, ana1, ana0, frac, ctrl, cmPll);
    }

    /**
     Whatever the registers held, programming leaves exactly the multiplier of `freq` in them, rounded, together
     with the prescaler where it survives. The result tells whether one of the first 1000 looks at the lock bit
     found it set; `locked` is what those looks see.
     */
    method SetPllFreq(freq: word, locked: nat -> bool) returns (r: int)
      modifies this
      ensures PllFreq() == ReadBack(id, freq)
      ensures freq == 0 ==> r == 0
      ensures freq != 0 ==> Holds(Written(freq), Prescaled(freq) && id.PllH?)
      ensures freq != 0 ==> Tuned(id, old(Field(ana1, 19, 3)), ana0, ana1, ana3)
      ensures freq != 0 && !id.PllH? ==>
                (Field(ana1, 19, 3) == 2 <==> old(Field(ana1, 19, 3)) == 0 || old(Field(ana1, 19, 3)) == 2)
      ensures Field(ctrl, 16, 1) == (if freq == 0 then 1 else 0) && Field(cmPll, 8, 1) == (if freq == 0 then 1 else 0)
      ensures freq != 0 && r == 0 ==> Field(ctrl, 17, 1) == 1
      ensures var starts := freq != 0 && r == 0 && old(Field(ctrl, 17, 1)) == 0;
              if starts then
                && dig0 == Or32(PASSWORD, old(dig0)) && dig1 == Or32(PASSWORD, old(dig1))
                && dig2 == Or32(PASSWORD, old(dig2)) && dig3 == Or32(PASSWORD, Or32(old(dig3), 0x42))
              else dig0 == old(dig0) && dig1 == old(dig1) && dig2 == old(dig2) && dig3 == old(dig3)
      ensures freq != 0 ==> (r == 0 <==> exists k :: 0 <= k < 1000 && locked(k)) && (r == 0 || r == -1)
      ensures var starts := freq != 0 && r == 0 && old(Field(ctrl, 17, 1)) == 0;
              var unscales := old(Field(ana1, PrescaleBit(id), 1)) == 1 && freq <= 1_750_000_000;
              Grown(old(log), log, if freq == 0 then [CmPll, Ctrl]
                                   else ProgramOrder(unscales) + if starts then StartOrder(id) else [])
    {
      hide And, Or, Low, Shr, Field, ReadBack, Meaning, Written, Passworded, Grown, StartWrites, ProgramWrites;
      ReadBackMeans(id, freq);
      if freq == 0 {
        SetCm(Or32(PASSWORD, PLL_ANARST));
        SetCtrl(Or32(PASSWORD, CTRL_PWRDN));
        PowerDownField();
        Passwords();
        OffGrows(old(log), cmPll, ctrl);
        return 0;
      }
      FieldBound(ana1, 19, 3);
      KiBecomesTwo(Field(ana1, 19, 3));
      ghost var unscales := Field(ana1, PrescaleBit(id), 1) == 1 && freq <= 1_750_000_000;
      var wasOff := Program(freq);
      assert ProgramOrder(unscales) + [] == ProgramOrder(unscales);
      BitBound(ctrl, 17);
      var found := WaitLock(locked);
      if !found {
        HoldsMeans(Written(freq), Prescaled(freq) && id.PllH?);
        return -1;
      }
      if wasOff {
        ghost var programmed := log;
        PllStart();
        GrownTwice(old(log), programmed, log, ProgramOrder(unscales), StartOrder(id));
      }
      HoldsMeans(Written(freq), Prescaled(freq) && id.PllH?);
      return 0;
    }

    /** At most 1000 looks at the lock bit. */
    static method WaitLock(locked: nat -> bool) returns (found: bool)
      ensures found <==> exists k :: 0 <= k < MAX_LOCKWAIT && locked(k)
    {
      var lockwait := MAX_LOCKWAIT;
      var looks := 0;
      while !locked(looks)
        invariant 0 < lockwait <= MAX_LOCKWAIT && looks == MAX_LOCKWAIT - lockwait
        invariant forall k :: 0 <= k < looks ==> !locked(k)
        decreases lockwait
      {
        lockwait := lockwait - 1;
        looks := looks + 1;
        if lockwait == 0 {
          return false;
        }
      }
      return true;
    }

    /**
     `setup_pllc`: the multiplier of half the target, rounded down, doubled by the prescaler, and the two channel
     dividers. The wait for the lock is assumed to end.
     */
    method SetupPllc(target: nat, core0Div: word, perDiv: word)
      requires id.PllC? && target < PLLC_LIMIT
      modifies this
      ensures Holds(SetupMultiplier(target), true)
      ensures PllFreq() == SetupReadBack(target)
      ensures Field(core0, 0, 8) == Field(core0Div, 0, 8) && Field(core0, 8, 1) == Field(core0Div, 8, 1)
      ensures Field(per, 0, 8) == Field(perDiv, 0, 8) && Field(per, 8, 1) == Field(perDiv, 8, 1)
      ensures cmPll == HoldUnused()
      ensures dig3 == Or32(PASSWORD, 0x42) && dig2 == Or32(PASSWORD, 0x50_0401) && dig1 == Or32(PASSWORD, 0x4005)
      ensures dig0 == Or32(Or32(PASSWORD, SetupDiv(target)), 0x55_5000)
      ensures log == old(log) + SetupWrites(enableBit, old(xosc), SetupDiv(target), SetupMultiplier(target) % ONE,
                                            core0Div, perDiv)
      ensures Grown(old(log), log, SetupOrder())
    {
      hide And, Or, Shl, Shr, Low, Pow2, Field, Not32, Shl32, Or32, Meaning, PllFreq, Grown, AnaWrites, DigWrites;
      var goal := target / 2;
      var divisor := goal * ONE / XTAL;
      assert divisor == SetupMultiplier(target);
      hide SetupMultiplier;
      var div: word := divisor / ONE;
      var fraction: word := divisor % ONE;
      ghost var before, xosc0 := log, xosc;
      SetupAnalog(div, fraction);
      HoldChannels(div, fraction, core0Div, perDiv);
      SetFrac(Or32(PASSWORD, fraction));
      SetupChain(before, enableBit, xosc0, div, fraction, core0Div, perDiv);
      SetupGrows(before, enableBit, xosc0, div, fraction, core0Div, perDiv);
      SetupFields(div, fraction);
      HoldsMeans(divisor, true);
    }

    /** The first stores of `setup_pllc`: multiplier, gains and prescaler, with the PLL in reset. */
    method SetupAnalog(div: word, fraction: word)
      modifies this`cmPll, this`xosc, this`frac, this`ctrl, this`ana0, this`ana1, this`ana2, this`ana3, this`log
      ensures ana1 == Or32(Or32(Or32(PASSWORD, 0x4000), 0x10_0000), 0x4_0000) && ana3 == Or32(PASSWORD, 0x100)
      ensures ana0 == ana2 == PASSWORD && cmPll == Or32(PASSWORD, CM_DIGRST)
      ensures frac == Or32(PASSWORD, fraction) && ctrl == Or32(Or32(PASSWORD, div), 0x1000)
      ensures xosc == Or32(old(xosc), Or32(PASSWORD, enableBit))
      ensures log == old(log) + AnalogWrites(enableBit, old(xosc), div, fraction)
    {
      hide And, Or, Shl, Shr, Low, Pow2, Field, Not32, Shl32, Or32, PllFreq, Holds, AnaWrites;
      SetCm(Or32(PASSWORD, PLL_ANARST));
      SetXosc(Or32(xosc, Or32(PASSWORD, enableBit)));
      SetFrac(Or32(PASSWORD, fraction));
      SetCtrl(Or32(Or32(PASSWORD, div), 0x1000));
      StoreAna(Or32(PASSWORD, 0x100), PASSWORD, Or32(Or32(Or32(PASSWORD, 0x4000), 0x10_0000), 0x4_0000), PASSWORD);
      SetCm(Or32(PASSWORD, CM_DIGRST));
    }

    /** From the hold of all channels to the release of the two in use. */
    method HoldChannels(div: word, fraction: word, core0Div: word, perDiv: word)
      modifies this`ctrl, this`frac, this`cmPll, this`dig3, this`dig2, this`dig1, this`dig0, this`core0, this`per
      modifies this`log
      ensures ctrl == Or32(Or32(Or32(PASSWORD, div), 0x1000), CTRL_PRSTN) && frac == Or32(PASSWORD, fraction)
      ensures cmPll == HoldUnused()
      ensures dig3 == Or32(PASSWORD, 0x42) && dig2 == Or32(PASSWORD, 0x50_0401) && dig1 == Or32(PASSWORD, 0x4005)
      ensures dig0 == Or32(Or32(PASSWORD, div), 0x55_5000)
      ensures Field(core0, 0, 8) == Field(core0Div, 0, 8) && Field(core0, 8, 1) == Field(core0Div, 8, 1)
      ensures Field(per, 0, 8) == Field(perDiv, 0, 8) && Field(per, 8, 1) == Field(perDiv, 8, 1)
      ensures log == old(log) + [Write(CmPll, HoldAll())]
                     + DigWrites(PASSWORD, Or32(PASSWORD, 0x40_0000), Or32(PASSWORD, 0x5),
                                 Or32(Or32(PASSWORD, div), 0x55_5000))
                     + [Write(Ctrl, ctrl)] + [Write(Frac, frac)] + DigWrites(dig3, dig2, dig1, dig0)
                     + ChannelWrites(core0Div, perDiv)
    {
      hide And, Or, Shl, Shr, Low, Pow2, Field, Or32, DigWrites, ChannelWrites, HoldAll;
      SetCm(HoldAll());
      StoreDig(PASSWORD, Or32(PASSWORD, 0x40_0000), Or32(PASSWORD, 0x5), Or32(Or32(PASSWORD, div), 0x55_5000));
      SetCtrl(Or32(Or32(Or32(PASSWORD, div), 0x1000), CTRL_PRSTN));
      SetFrac(Or32(PASSWORD, fraction));
      StoreDig(Or32(PASSWORD, 0x42), Or32(PASSWORD, 0x50_0401), Or32(PASSWORD, 0x4005),
               Or32(Or32(PASSWORD, div), 0x55_5000));
      SetupChannels(core0Div, perDiv);
    }

    /** The channel stores of `setup_pllc`: dividers, load pulse, and release of the two channels in use. */
    method SetupChannels(core0Div: word, perDiv: word)
      modifies this`core0, this`per, this`cmPll, this`log
      ensures Field(core0, 0, 8) == Field(core0Div, 0, 8) && Field(core0, 8, 1) == Field(core0Div, 8, 1)
      ensures Field(per, 0, 8) == Field(perDiv, 0, 8) && Field(per, 8, 1) == Field(perDiv, 8, 1)
      ensures cmPll == HoldUnused()
      ensures core0 == Or32(PASSWORD, core0Div) && per == Or32(PASSWORD, perDiv)
      ensures log == old(log) + ChannelWrites(core0Div, perDiv)
    {
      hide Or32, Or, Field, HoldAll;
      ChannelFields(core0Div);
      SetCore0(Or32(PASSWORD, core0Div));
      ChannelFields(perDiv);
      SetPer(Or32(PASSWORD, perDiv));
      SetCm(Or32(HoldAll(), CM_LOADCORE0));
      SetCm(HoldAll());
      SetCm(HoldUnused());
    }
  }

  /** Targets whose multiplier fits the ten bits of PLLC. */
  const PLLC_LIMIT := 2 * 1024 * XTAL

  /** The multiplier of half the target, rounded down. */
  function SetupMultiplier(target: nat): (m: nat)
    ensures target < PLLC_LIMIT ==> m < 0x4000_0000
  {
    target / 2 * ONE / XTAL
  }

  function SetupDiv(target: nat): (d: word)
    requires target < PLLC_LIMIT
    ensures d < 0x400
  {
    SetupMultiplier(target) / ONE
  }

  function SetupReadBack(target: nat): word
  {
    Meaning(SetupMultiplier(target), true) % TWO32
  }

  /**
   `setup_pllc` never overshoots, and falls short by less than 39 Hz for every target of 32 bits; for targets beyond
   2^32 + 38 the read-back, which has 32 bits, cannot be close.
   */
  lemma SetupNeverOvershoots(target: nat)
    requires target < PLLC_LIMIT
    ensures SetupReadBack(target) <= target
    ensures target < TWO32 ==> target - SetupReadBack(target) < 39
    ensures target > TWO32 + 38 ==> target - SetupReadBack(target) >= 39
  {
  }

  // Fields of the composed registers.

  lemma SetupFields(div: word, fraction: word)
    requires div < 0x400 && fraction < ONE
    ensures Field(Or32(PASSWORD, fraction), 0, 20) == fraction
    ensures var ctrl := Or32(Or32(Or32(PASSWORD, div), 0x1000), CTRL_PRSTN);
            Field(ctrl, 0, 10) == div && Field(ctrl, 12, 3) == 1
    ensures Field(Or32(Or32(Or32(PASSWORD, 0x4000), 0x10_0000), 0x4_0000), 14, 1) == 1
  {
    hide Or, Pow2, Low, Shr, Field;
    PowTable();
    FieldOr(PASSWORD, fraction, 0, 20);
    FieldAt(PASSWORD, 0, 20, 1, ONE);
    FieldAt(fraction, 0, 20, 1, ONE);
    ZeroOperand(fraction);
    SetupField(PASSWORD, div, 0x1000, CTRL_PRSTN, 0, 10, 1, 0x400);
    ZeroOperand(0);
    ZeroOperand(1);
    ZeroOperand(div);
    SetupField(PASSWORD, div, 0x1000, CTRL_PRSTN, 12, 3, 0x1000, 8);
    SetupField(PASSWORD, 0x4000, 0x10_0000, 0x4_0000, 14, 1, 0x4000, 2);
  }

  lemma SetupField(a: word, b: word, c: word, d: word, o: nat, w: nat, p: nat, q: nat)
    requires p == Pow2(o) && q == Pow2(w)
    ensures Field(Or32(Or32(Or32(a, b), c), d), o, w) == Or(Or(Or(a / p % q, b / p % q), c / p % q), d / p % q)
  {
    hide Or, Pow2, Low, Shr, Field;
    FieldOr(Or32(Or32(a, b), c), d, o, w);
    FieldOr(Or32(a, b), c, o, w);
    FieldOr(a, b, o, w);
    FieldAt(a, o, w, p, q);
    FieldAt(b, o, w, p, q);
    FieldAt(c, o, w, p, q);
    FieldAt(d, o, w, p, q);
  }

  lemma PrescaleMask(id: PllId)
    ensures Pow2(PrescaleBit(id)) == if id.PllH? then 0x800 else 0x4000
  {
    hide Pow2;
    PowTable();
  }

  lemma PowerDownField()
    ensures Field(Or32(PASSWORD, CTRL_PWRDN), 12, 3) == 0 && Field(Or32(PASSWORD, CTRL_PWRDN), 16, 1) == 1
    ensures Field(Or32(PASSWORD, PLL_ANARST), 8, 1) == 1
  {
    hide Or, Pow2, Low, Shr;
    PowTable();
    PasswordField(CTRL_PWRDN, 12, 3);
    PasswordField(CTRL_PWRDN, 16, 1);
    PasswordField(PLL_ANARST, 8, 1);
    FieldAt(CTRL_PWRDN, 12, 3, 0x1000, 8);
    FieldAt(CTRL_PWRDN, 16, 1, 0x1_0000, 2);
    FieldAt(PLL_ANARST, 8, 1, 0x100, 2);
  }

  /** The password occupies the top byte only. */
  lemma PasswordField(a: word, o: nat, w: nat)
    requires o + w <= 24
    ensures Field(Or32(PASSWORD, a), o, w) == Field(a, o, w)
  {
    hide Or, Pow2, Low, Shr, Field, Shl;
    PowTable();
    ShlMul(0x5a, 24);
    ShiftedElsewhere(0x5a, 24, 8, o, w);
    FieldOr(PASSWORD, a, o, w);
    ZeroOperand(Field(a, o, w));
  }

  lemma ChannelFields(div: word)
    ensures Field(Or32(PASSWORD, div), 0, 8) == Field(div, 0, 8) && Field(Or32(PASSWORD, div), 8, 1) == Field(div, 8, 1)
  {
    hide Or32, Field;
    PasswordField(div, 0, 8);
    PasswordField(div, 8, 1);
  }

  lemma ChannelReads(chanCtrl: word)
    ensures And(chanCtrl, 0xff) == Field(chanCtrl, 0, 8)
    ensures And(chanCtrl, 0x100) != 0 <==> Field(chanCtrl, 8, 1) == 1
  {
    hide And, Low, Shr, Pow2, Field;
    PowTable();
    AndLowField(chanCtrl, 8);
    TestBit(chanCtrl, 8);
  }

  lemma HoldBitsApart(cm: word)
    ensures Field(Or32(PASSWORD, Or32(cm, 0xaa)), 8, 1) == Field(cm, 8, 1)
  {
    hide Or, Pow2, Low, Shr, Field;
    PowTable();
    PasswordField(Or32(cm, 0xaa), 8, 1);
    FieldOr(cm, 0xaa, 8, 1);
    FieldAt(0xaa, 8, 1, 0x100, 2);
    ZeroOperand(Field(cm, 8, 1));
  }

  lemma ResetReleased(cm: word)
    ensures Field(Or32(PASSWORD, And(cm, Not32(PLL_ANARST))), 8, 1) == 0
  {
    hide And, Or, Pow2, Low, Shr, Field;
    PowTable();
    PasswordField(And(cm, Not32(PLL_ANARST)), 8, 1);
    FieldAnd(cm, Not32(PLL_ANARST), 8, 1);
    FieldAt(Not32(PLL_ANARST), 8, 1, 0x100, 2);
    ZeroOperand(Field(cm, 8, 1));
  }

  /** A one-bit field under a one and under a zero. */
  lemma BitCases(f: nat)
    requires f < 2
    ensures And(f, 1) == f && And(f, 0) == 0 && Or(f, 0) == f && Or(0, f) == f && Or(f, 1) == 1
  {
  }

  lemma PrescaleSet(a1: word, id: PllId)
    ensures Field(Or(a1, Pow2(PrescaleBit(id))), PrescaleBit(id), 1) == 1
  {
    hide Or, Pow2, Low, Shr, Field;
    PowTable();
    var o := PrescaleBit(id);
    FieldOr(a1, Pow2(o), o, 1);
    FieldBound(a1, o, 1);
    FieldAt(Pow2(o), o, 1, Pow2(o), 2);
    BitCases(Field(a1, o, 1));
  }

  lemma PrescaleClear(a1: word, id: PllId)
    ensures Pow2(PrescaleBit(id)) < TWO32
    ensures Field(And(a1, Not32(Pow2(PrescaleBit(id)))), PrescaleBit(id), 1) == 0
  {
    hide And, Pow2, Low, Shr, Field;
    PowTable();
    var o := PrescaleBit(id);
    FieldAnd(a1, Not32(Pow2(o)), o, 1);
    FieldAt(Not32(Pow2(o)), o, 1, Pow2(o), 2);
    ZeroOperand(Field(a1, o, 1));
  }

  /** Clearing a field and or-ing a value with nothing outside it. */
  lemma GainField(a: word, mask: word, gain: word, o: nat, w: nat)
    ensures Field(Or32(And(a, Not32(mask)), gain), o, w)
         == Or(And(Field(a, o, w), Field(Not32(mask), o, w)), Field(gain, o, w))
  {
    hide And, Or, Low, Shr, Field;
    FieldOr(And(a, Not32(mask)), gain, o, w);
    FieldAnd(a, Not32(mask), o, w);
  }

  lemma GainFields(id: PllId, a0: word, a1: word, a3: word)
    ensures Tuned(id, Field(a1, 19, 3), GainAna0(id, a0), GainAna1(id, a1), GainAna3(id, a3))
    ensures Field(GainAna1(id, a1), PrescaleBit(id), 1) == if id.PllH? then Field(a1, 11, 1) else 0
  {
    hide GainAna0, GainAna1, GainAna3;
    if id.PllH? {
      GainFieldsH(a0, a1);
    } else {
      GainFieldsOther(a1, a3);
    }
  }

  /** On PLLH setting the loop gains leaves the prescale bit alone. */
  lemma GainFieldsH(a0: word, a1: word)
    ensures Field(GainAna0(PllH, a0), 19, 3) == 2 && Field(GainAna0(PllH, a0), 22, 2) == 2
    ensures Field(GainAna1(PllH, a1), 0, 1) == 0 && Field(GainAna1(PllH, a1), 1, 4) == 6
    ensures Field(GainAna1(PllH, a1), 11, 1) == Field(a1, 11, 1)
  {
    hide And, Or, Pow2, Low, Shr, Field;
    PowTable();
    Gain0H(a0, 19, 3, 0x8_0000, 8);
    Gain0H(a0, 22, 2, 0x40_0000, 4);
    ZeroOperand(Field(a0, 19, 3));
    ZeroOperand(Field(a0, 22, 2));
    ZeroOperand(2);
    Gain1H(a1, 0, 1, 1, 2);
    Gain1H(a1, 1, 4, 2, 0x10);
    Gain1H(a1, 11, 1, 0x800, 2);
    ZeroOperand(Field(a1, 0, 1));
    ZeroOperand(Field(a1, 1, 4));
    ZeroOperand(6);
    FieldBound(a1, 1, 4);
    AndOnes(Field(a1, 1, 4), 4);
    FieldBound(a0, 22, 2);
    AndOnes(Field(a0, 22, 2), 2);
    FieldBound(a1, 11, 1);
    BitCases(Field(a1, 11, 1));
    ZeroOperand(0);
    ZeroOperand(7);
    ZeroOperand(1);
  }

  lemma Gain0H(a0: word, o: nat, w: nat, p: nat, q: nat)
    requires p == Pow2(o) && q == Pow2(w)
    ensures Field(GainAna0(PllH, a0), o, w)
         == Or(Or(And(And(Field(a0, o, w), Not32(H_KA_MASK) / p % q), Not32(H_KI_LO_MASK) / p % q), 0x10_0000 / p % q),
               0x80_0000 / p % q)
  {
    hide And, Or, Pow2, Low, Shr, Field;
    var b := And(a0, Not32(H_KA_MASK));
    FieldOr(Or32(And(b, Not32(H_KI_LO_MASK)), 0x10_0000), 0x80_0000, o, w);
    GainField(b, H_KI_LO_MASK, 0x10_0000, o, w);
    FieldAnd(a0, Not32(H_KA_MASK), o, w);
    FieldAt(Not32(H_KA_MASK), o, w, p, q);
    FieldAt(Not32(H_KI_LO_MASK), o, w, p, q);
    FieldAt(0x10_0000, o, w, p, q);
    FieldAt(0x80_0000, o, w, p, q);
  }

  lemma Gain1H(a1: word, o: nat, w: nat, p: nat, q: nat)
    requires p == Pow2(o) && q == Pow2(w)
    ensures Field(GainAna1(PllH, a1), o, w)
         == Or(And(And(Field(a1, o, w), Not32(H_KI_HI_MASK) / p % q), Not32(H_KP_MASK) / p % q), 0xc / p % q)
  {
    hide And, Or, Pow2, Low, Shr, Field;
    var b := And(a1, Not32(H_KI_HI_MASK));
    GainField(b, H_KP_MASK, 0xc, o, w);
    FieldAnd(a1, Not32(H_KI_HI_MASK), o, w);
    FieldAt(Not32(H_KI_HI_MASK), o, w, p, q);
    FieldAt(Not32(H_KP_MASK), o, w, p, q);
    FieldAt(0xc, o, w, p, q);
  }

  /** On the others it clears everything outside KI and KP, the prescale bit included, and KI itself is kept. */
  lemma GainFieldsOther(a1: word, a3: word)
    ensures forall id: PllId :: !id.PllH? ==>
              && Field(GainAna3(id, a3), 7, 3) == 2 && Field(GainAna1(id, a1), 15, 4) == 8
              && Field(GainAna1(id, a1), 19, 3) == Or(Field(a1, 19, 3), 2)
              && Field(GainAna1(id, a1), 14, 1) == 0
  {
    hide And, Or, Pow2, Low, Shr, Field;
    PowTable();
    GainField(a3, KA_MASK, 0x100, 7, 3);
    FieldAt(Not32(KA_MASK), 7, 3, 0x80, 8);
    FieldAt(0x100, 7, 3, 0x80, 8);
    ZeroOperand(Field(a3, 7, 3));
    ZeroOperand(2);
    Gain1Other(a1, 15, 4, 0x8000, 0x10);
    Gain1Other(a1, 19, 3, 0x8_0000, 8);
    Gain1Other(a1, 14, 1, 0x4000, 2);
    ZeroOperand(Field(a1, 15, 4));
    ZeroOperand(Field(a1, 14, 1));
    FieldBound(a1, 19, 3);
    AndOnes(Field(a1, 19, 3), 3);
    ZeroOperand(Or(Field(a1, 19, 3), 2));
    ZeroOperand(0);
    ZeroOperand(1);
    ZeroOperand(8);
  }

  lemma Gain1Other(a1: word, o: nat, w: nat, p: nat, q: nat)
    requires p == Pow2(o) && q == Pow2(w)
    ensures Field(Or32(Or32(And(And(a1, KI_MASK), Not32(KP_MASK)), 0x10_0000), 0x4_0000), o, w)
         == Or(Or(And(And(Field(a1, o, w), KI_MASK / p % q), Not32(KP_MASK) / p % q), 0x10_0000 / p % q),
                0x4_0000 / p % q)
  {
    hide And, Or, Pow2, Low, Shr, Field;
    var b := And(a1, KI_MASK);
    FieldOr(Or32(And(b, Not32(KP_MASK)), 0x10_0000), 0x4_0000, o, w);
    GainField(b, KP_MASK, 0x10_0000, o, w);
    FieldAnd(a1, KI_MASK, o, w);
    FieldAt(KI_MASK, o, w, p, q);
    FieldAt(Not32(KP_MASK), o, w, p, q);
    FieldAt(0x10_0000, o, w, p, q);
    FieldAt(0x4_0000, o, w, p, q);
  }

  /** Setting or clearing the prescale bit does not touch KI, nor does the password touch any gain. */
  lemma KiApart(id: PllId, a1: word)
    ensures Pow2(PrescaleBit(id)) < TWO32
    ensures Field(Or(a1, Pow2(PrescaleBit(id))), 19, 3) == Field(a1, 19, 3)
    ensures Field(And(a1, Not32(Pow2(PrescaleBit(id)))), 19, 3) == Field(a1, 19, 3)
  {
    hide And, Or, Pow2, Low, Shr, Field;
    PowTable();
    var bit := Pow2(PrescaleBit(id));
    FieldOr(a1, bit, 19, 3);
    FieldAt(bit, 19, 3, 0x8_0000, 8);
    ZeroOperand(Field(a1, 19, 3));
    FieldAnd(a1, Not32(bit), 19, 3);
    FieldAt(Not32(bit), 19, 3, 0x8_0000, 8);
    FieldBound(a1, 19, 3);
    AndOnes(Field(a1, 19, 3), 3);
  }

  /** A bit that neither the mask nor the gain has. */
  lemma KeptBit(a: word, mask: word, gain: word, i: nat)
    requires i < 32 && Field(mask, i, 1) == 0 && Field(gain, i, 1) == 0
    ensures Field(Or32(And(a, Not32(mask)), gain), i, 1) == Field(a, i, 1)
  {
    hide And, Or, Low, Shr, Pow2, Field;
    GainField(a, mask, gain, i, 1);
    ClearedBit(a, mask, i);
    FieldAnd(a, Not32(mask), i, 1);
    ZeroOperand(Field(a, i, 1));
  }

  lemma ClearedBit(a: word, mask: word, i: nat)
    requires i < 32
    ensures Field(mask, i, 1) == 0 ==> Field(And(a, Not32(mask)), i, 1) == Field(a, i, 1)
    ensures Field(mask, i, 1) == 1 ==> Field(And(a, Not32(mask)), i, 1) == 0
  {
    hide And, Low, Shr, Pow2, Field;
    PowTable();
    FieldAnd(a, Not32(mask), i, 1);
    FieldNot(mask, i, 1);
    FieldBound(a, i, 1);
    BitCases(Field(a, i, 1));
  }

  /** A constant that fills only bits `o` to `o + w - 1` has no bit elsewhere. */
  lemma NoBit(c: word, f: nat, o: nat, w: nat, p: nat, q: nat, i: nat)
    requires p == Pow2(o) && q == Pow2(w) && c == f * p && f < q && (i < o || i >= o + w)
    ensures Field(c, i, 1) == 0
  {
    hide Low, Shr, Pow2, Shl;
    ShlMul(f, o);
    ShiftedElsewhere(f, o, w, i, 1);
  }

  lemma GainBitH(a0: word, a1: word, i: nat)
    requires i < 24
    ensures i < 19 ==> Field(GainAna0(PllH, a0), i, 1) == Field(a0, i, 1)
    ensures i >= 5 ==> Field(GainAna1(PllH, a1), i, 1) == Field(a1, i, 1)
  {
    hide And, Or, Low, Shr, Pow2, Field, Not32;
    PowTable();
    if i < 19 {
      NoBit(H_KA_MASK, 7, 19, 5, 0x8_0000, 0x20, i);
      NoBit(H_KI_LO_MASK, 0x18, 19, 5, 0x8_0000, 0x20, i);
      NoBit(0x10_0000, 2, 19, 5, 0x8_0000, 0x20, i);
      NoBit(0x80_0000, 0x10, 19, 5, 0x8_0000, 0x20, i);
      var b := And(a0, Not32(H_KA_MASK));
      ClearedBit(a0, H_KA_MASK, i);
      KeptBit(b, H_KI_LO_MASK, 0x10_0000, i);
      FieldOr(Or32(And(b, Not32(H_KI_LO_MASK)), 0x10_0000), 0x80_0000, i, 1);
      ZeroOperand(Field(a0, i, 1));
    }
    if i >= 5 {
      NoBit(H_KI_HI_MASK, 1, 0, 5, 1, 0x20, i);
      NoBit(H_KP_MASK, 0x1e, 0, 5, 1, 0x20, i);
      NoBit(0xc, 0xc, 0, 5, 1, 0x20, i);
      ClearedBit(a1, H_KI_HI_MASK, i);
      KeptBit(And(a1, Not32(H_KI_HI_MASK)), H_KP_MASK, 0xc, i);
    }
  }

  lemma GainBitOther(a1: word, a3: word, i: nat)
    requires i < 24
    ensures forall id: PllId :: !id.PllH? ==>
              && (i < 7 || i >= 10 ==> Field(GainAna3(id, a3), i, 1) == Field(a3, i, 1))
              && (i < 15 || i >= 22 ==> Field(GainAna1(id, a1), i, 1) == 0)
  {
    hide And, Or, Low, Shr, Pow2, Field, Not32;
    PowTable();
    if i < 7 || i >= 10 {
      NoBit(KA_MASK, 7, 7, 3, 0x80, 8, i);
      NoBit(0x100, 2, 7, 3, 0x80, 8, i);
      KeptBit(a3, KA_MASK, 0x100, i);
    }
    if i < 15 || i >= 22 {
      NoBit(KI_MASK, 0x70, 15, 7, 0x8000, 0x80, i);
      NoBit(KP_MASK, 0xf, 15, 7, 0x8000, 0x80, i);
      NoBit(0x10_0000, 0x20, 15, 7, 0x8000, 0x80, i);
      NoBit(0x4_0000, 8, 15, 7, 0x8000, 0x80, i);
      var b := And(a1, KI_MASK);
      FieldAnd(a1, KI_MASK, i, 1);
      ZeroOperand(Field(a1, i, 1));
      KeptBit(b, KP_MASK, 0x10_0000, i);
      FieldOr(Or32(And(b, Not32(KP_MASK)), 0x10_0000), 0x4_0000, i, 1);
      ZeroOperand(0);
    }
  }

  /** `a1` is `b1` up to its prescale bit. */
  lemma GainsKeep(id: PllId, a0: word, a1: word, a3: word, b1: word)
    requires a1 == Or(b1, Pow2(PrescaleBit(id)))
          || (Pow2(PrescaleBit(id)) < TWO32 && a1 == And(b1, Not32(Pow2(PrescaleBit(id)))))
    ensures OtherBits(id, a0, b1, a3, GainAna0(id, a0), GainAna1(id, a1), GainAna3(id, a3))
  {
    hide And, Or, Low, Shr, Pow2, Field, Not32;
    forall i: nat | i < 24
      ensures id.PllH? ==> (i < 19 ==> Field(GainAna0(id, a0), i, 1) == Field(a0, i, 1))
      ensures id.PllH? ==> (i >= 5 && i != 11 ==> Field(GainAna1(id, a1), i, 1) == Field(b1, i, 1))
      ensures !id.PllH? ==> (i < 7 || i >= 10 ==> Field(GainAna3(id, a3), i, 1) == Field(a3, i, 1))
      ensures !id.PllH? ==> (i < 15 || i >= 22 ==> Field(GainAna1(id, a1), i, 1) == 0)
    {
      if id.PllH? {
        GainBitH(a0, a1, i);
        if i != 11 {
          PrescaleBitApart(b1, i);
        }
      } else {
        GainBitOther(a1, a3, i);
      }
    }
  }

  lemma PrescaleBitApart(b1: word, i: nat)
    requires i < 24 && i != 11
    ensures Pow2(11) == 0x800
    ensures Field(Or(b1, 0x800), i, 1) == Field(b1, i, 1) && Field(And(b1, Not32(0x800)), i, 1) == Field(b1, i, 1)
  {
    hide And, Or, Low, Shr, Pow2, Field, Not32;
    PowTable();
    NoBit(0x800, 1, 11, 1, 0x800, 2, i);
    FieldOr(b1, 0x800, i, 1);
    ClearedBit(b1, 0x800, i);
    ZeroOperand(Field(b1, i, 1));
  }

  lemma PasswordKeeps(id: PllId, b0: word, b1: word, b3: word, a0: word, a1: word, a3: word)
    requires OtherBits(id, b0, b1, b3, a0, a1, a3)
    ensures OtherBits(id, b0, b1, b3, Or32(PASSWORD, a0), Or32(PASSWORD, a1), Or32(PASSWORD, a3))
  {
    hide Or32, Field;
    forall i: nat | i < 24
      ensures Field(Or32(PASSWORD, a0), i, 1) == Field(a0, i, 1) && Field(Or32(PASSWORD, a1), i, 1) == Field(a1, i, 1)
      ensures Field(Or32(PASSWORD, a3), i, 1) == Field(a3, i, 1)
    {
      PasswordField(a0, i, 1);
      PasswordField(a1, i, 1);
      PasswordField(a3, i, 1);
    }
  }

  lemma PasswordApart(id: PllId, a0: word, a1: word, a3: word)
    ensures forall ki :: Tuned(id, ki, a0, a1, a3) ==>
              Tuned(id, ki, Or32(PASSWORD, a0), Or32(PASSWORD, a1), Or32(PASSWORD, a3))
    ensures Field(Or32(PASSWORD, a1), PrescaleBit(id), 1) == Field(a1, PrescaleBit(id), 1)
  {
    hide Or32, Field;
    PasswordField(a0, 19, 3);
    PasswordField(a0, 22, 2);
    PasswordField(a1, 0, 1);
    PasswordField(a1, 1, 4);
    PasswordField(a1, 15, 4);
    PasswordField(a1, 19, 3);
    PasswordField(a3, 7, 3);
    PasswordField(a1, PrescaleBit(id), 1);
  }

  lemma FracField(div: word)
    ensures Field(Or32(PASSWORD, And(div, FRAC_MASK)), 0, 20) == div % ONE
  {
    hide And, Or, Pow2, Low, Shr, Field;
    PowTable();
    AndAt(div, FRAC_MASK, 0, 20, 1, ONE);
    FieldOr(PASSWORD, div % ONE, 0, 20);
    FieldAt(PASSWORD, 0, 20, 1, ONE);
    FieldAt(div % ONE, 0, 20, 1, ONE);
    ZeroOperand(div % ONE);
  }

  lemma CtrlFields(ctrl: word, div: word, id: PllId)
    requires div < 0x1000_0000
    ensures Shr(div, 20) < 0x100
    ensures var kept := And(And(And(ctrl, Not32(CTRL_PWRDN)), Not32(PDIV_MASK)), Not32(NdivMask(id)));
            var c := Or32(Or32(Or32(PASSWORD, kept), Shr(div, 20)), 0x1000);
            Field(c, 0, NdivBits(id)) == div / ONE && Field(c, 12, 3) == 1
  {
    hide And, Or, Pow2, Low, Shr, Field, Not32;
    PowTable();
    ShrDiv(div, 20);
    var kept := And(And(And(ctrl, Not32(CTRL_PWRDN)), Not32(PDIV_MASK)), Not32(NdivMask(id)));
    KeptNdiv(ctrl, id);
    CtrlNdiv(kept, div / ONE, id);
    KeptPdiv(ctrl, id);
    CtrlPdiv(kept, div / ONE);
  }

  lemma CtrlNdiv(kept: word, d: word, id: PllId)
    requires d < 0x100 && Field(kept, 0, NdivBits(id)) == 0
    ensures Field(Or32(Or32(Or32(PASSWORD, kept), d), 0x1000), 0, NdivBits(id)) == d
  {
    hide Or, Pow2, Low, Shr, Field;
    PowTable();
    if id.PllH? {
      CtrlField(kept, d, 0, 8, 1, 0x100);
    } else {
      CtrlField(kept, d, 0, 10, 1, 0x400);
    }
    ZeroOperand(d);
  }

  lemma CtrlPdiv(kept: word, d: word)
    requires d < 0x100 && Field(kept, 12, 3) == 0
    ensures Field(Or32(Or32(Or32(PASSWORD, kept), d), 0x1000), 12, 3) == 1
  {
    hide Or, Pow2, Low, Shr, Field;
    PowTable();
    CtrlField(kept, d, 12, 3, 0x1000, 8);
    ZeroOperand(0);
    ZeroOperand(1);
  }

  lemma KeptPdiv(ctrl: word, id: PllId)
    ensures Field(And(And(And(ctrl, Not32(CTRL_PWRDN)), Not32(PDIV_MASK)), Not32(NdivMask(id))), 12, 3) == 0
  {
    hide And, Pow2, Low, Shr, Field;
    PowTable();
    KeptField(ctrl, id, 12, 3, 0x1000, 8);
    ZeroOperand(And(Field(ctrl, 12, 3), 7));
    ZeroOperand(7);
  }

  /** The power-down bit is cleared, the reset bit is kept. */
  lemma PowerFields(ctrl: word, div: word, id: PllId)
    requires div < 0x1000_0000
    ensures Shr(div, 20) < 0x100
    ensures var kept := And(And(And(ctrl, Not32(CTRL_PWRDN)), Not32(PDIV_MASK)), Not32(NdivMask(id)));
            var c := Or32(Or32(Or32(PASSWORD, kept), Shr(div, 20)), 0x1000);
            Field(c, 16, 1) == 0 && Field(c, 17, 1) == Field(ctrl, 17, 1)
  {
    hide And, Or, Pow2, Low, Shr, Field;
    PowTable();
    ShrDiv(div, 20);
    var kept := And(And(And(ctrl, Not32(CTRL_PWRDN)), Not32(PDIV_MASK)), Not32(NdivMask(id)));
    var d := div / ONE;
    KeptField(ctrl, id, 16, 1, 0x1_0000, 2);
    CtrlField(kept, d, 16, 1, 0x1_0000, 2);
    ZeroOperand(Field(ctrl, 16, 1));
    ZeroOperand(1);
    ZeroOperand(0);
    KeptField(ctrl, id, 17, 1, 0x2_0000, 2);
    CtrlField(kept, d, 17, 1, 0x2_0000, 2);
    FieldBound(ctrl, 17, 1);
    BitCases(Field(ctrl, 17, 1));
  }

  lemma ResetBit(ctrl: word)
    ensures And(ctrl, CTRL_PRSTN) == 0 <==> Field(ctrl, 17, 1) == 0
  {
    hide And, Pow2, Field;
    PowTable();
    TestBit(ctrl, 17);
    BitBound(ctrl, 17);
  }

  lemma KeptNdiv(ctrl: word, id: PllId)
    ensures Field(And(And(And(ctrl, Not32(CTRL_PWRDN)), Not32(PDIV_MASK)), Not32(NdivMask(id))), 0, NdivBits(id)) == 0
  {
    hide And, Pow2, Low, Shr, Field;
    PowTable();
    var b := And(And(ctrl, Not32(CTRL_PWRDN)), Not32(PDIV_MASK));
    FieldAnd(b, Not32(NdivMask(id)), 0, NdivBits(id));
    FieldAt(Not32(NdivMask(id)), 0, NdivBits(id), 1, Pow2(NdivBits(id)));
    ZeroOperand(Field(b, 0, NdivBits(id)));
  }

  lemma KeptField(ctrl: word, id: PllId, o: nat, w: nat, p: nat, q: nat)
    requires p == Pow2(o) && q == Pow2(w)
    ensures Field(And(And(And(ctrl, Not32(CTRL_PWRDN)), Not32(PDIV_MASK)), Not32(NdivMask(id))), o, w)
         == And(And(And(Field(ctrl, o, w), Not32(CTRL_PWRDN) / p % q), Not32(PDIV_MASK) / p % q),
                 Not32(NdivMask(id)) / p % q)
  {
    hide And, Pow2, Low, Shr, Field;
    var a := And(ctrl, Not32(CTRL_PWRDN));
    var b := And(a, Not32(PDIV_MASK));
    FieldAnd(b, Not32(NdivMask(id)), o, w);
    FieldAnd(a, Not32(PDIV_MASK), o, w);
    FieldAnd(ctrl, Not32(CTRL_PWRDN), o, w);
    FieldAt(Not32(NdivMask(id)), o, w, p, q);
    FieldAt(Not32(PDIV_MASK), o, w, p, q);
    FieldAt(Not32(CTRL_PWRDN), o, w, p, q);
  }

  lemma CtrlField(kept: word, ndiv: word, o: nat, w: nat, p: nat, q: nat)
    requires p == Pow2(o) && q == Pow2(w) && o + w <= 24
    ensures Field(Or32(Or32(Or32(PASSWORD, kept), ndiv), 0x1000), o, w)
         == Or(Or(Field(kept, o, w), ndiv / p % q), 0x1000 / p % q)
  {
    hide Or, Pow2, Low, Shr, Field;
    var a := Or32(PASSWORD, kept);
    FieldOr(Or32(a, ndiv), 0x1000, o, w);
    FieldOr(a, ndiv, o, w);
    PasswordField(kept, o, w);
    FieldAt(ndiv, o, w, p, q);
    FieldAt(0x1000, o, w, p, q);
  }

  lemma ResetBitApart(ctrl: word, id: PllId)
    ensures var c := Or32(PASSWORD, Or32(ctrl, CTRL_PRSTN));
            && Field(c, 0, NdivBits(id)) == Field(ctrl, 0, NdivBits(id)) && Field(c, 12, 3) == Field(ctrl, 12, 3)
            && Field(c, 16, 1) == Field(ctrl, 16, 1) && Field(c, 17, 1) == 1
  {
    hide Or, Pow2, Low, Shr, Field;
    PowTable();
    var n := NdivBits(id);
    ResetField(ctrl, 0, n, 1, Pow2(n));
    ResetField(ctrl, 12, 3, 0x1000, 8);
    ResetField(ctrl, 16, 1, 0x1_0000, 2);
    ResetField(ctrl, 17, 1, 0x2_0000, 2);
    ZeroOperand(Field(ctrl, 0, n));
    ZeroOperand(Field(ctrl, 12, 3));
    FieldBound(ctrl, 16, 1);
    BitCases(Field(ctrl, 16, 1));
    FieldBound(ctrl, 17, 1);
    BitCases(Field(ctrl, 17, 1));
  }

  lemma ResetField(ctrl: word, o: nat, w: nat, p: nat, q: nat)
    requires p == Pow2(o) && q == Pow2(w) && o + w <= 24
    ensures Field(Or32(PASSWORD, Or32(ctrl, CTRL_PRSTN)), o, w) == Or(Field(ctrl, o, w), CTRL_PRSTN / p % q)
  {
    hide Or, Low, Shr, Field, Pow2;
    PasswordField(Or32(ctrl, CTRL_PRSTN), o, w);
    FieldOr(ctrl, CTRL_PRSTN, o, w);
    FieldAt(CTRL_PRSTN, o, w, p, q);
  }

  lemma FieldReads(ctrl: word, frac: word, ana1: word, id: PllId)
    ensures And(ctrl, NdivMask(id)) == Field(ctrl, 0, NdivBits(id)) < 0x400
    ensures Shr(And(ctrl, PDIV_MASK), 12) == Field(ctrl, 12, 3)
    ensures And(frac, FRAC_MASK) == Field(frac, 0, 20) < ONE
    ensures And(ana1, Pow2(PrescaleBit(id))) != 0 <==> Field(ana1, PrescaleBit(id), 1) == 1
  {
    hide And, Or, Shl, Shr, Low, Pow2, Field;
    PowTable();
    AndLowField(ctrl, NdivBits(id));
    AndLowField(frac, 20);
    TestBit(ana1, PrescaleBit(id));
    AndAt(ctrl, PDIV_MASK, 12, 3, 0x1000, 8);
    ShrDiv(And(ctrl, PDIV_MASK), 12);
    FieldAt(ctrl, 12, 3, 0x1000, 8);
  }

  lemma AndLowField(a: nat, w: nat)
    ensures And(a, Pow2(w) - 1) == Field(a, 0, w) < Pow2(w)
  {
    hide And, Low, Pow2;
    AndLow(a, w);
    LowBound(a, w);
  }

  lemma JoinDivider(ndiv: word, fraction: word)
    requires ndiv < 0x400 && fraction < ONE
    ensures Or32(Shl32(ndiv, 20), fraction) == ndiv * ONE + fraction
  {
    hide Or, Pow2, Low, Shr, Shl;
    PowTable();
    ShlAt(ndiv, 20, ONE);
    OrInto(ndiv * ONE, ndiv, 0, fraction, 0, 20, 1, ONE);
  }
}
