/** Pin functions and pull resistors of the GPIO block, on the chips before BCM2711. */
module Gpio {
  import opened Bits
  import opened PackedFields
  import opened Wrappers

  const NUM_PINS := 54
  const BITS_PER_PIN := 3
  const PINS_PER_REG := 10
  const EINVAL := 22

  /** The packed function-select registers, as a plain map from pins to modes. */
  class FunctionSelect {
    const gpfsel: array<word>

    constructor (gpfsel: array<word>)
      requires gpfsel.Length == 6
      ensures this.gpfsel == gpfsel
    {
      this.gpfsel := gpfsel;
    }

    /** The mode of a pin; numbers 54 to 59 are the reserved fields of the last register. */
    function Mode(pin: nat): nat
      requires gpfsel.Length == 6 && pin < 60
      reads gpfsel
    {
      Field(gpfsel[pin / PINS_PER_REG], pin % PINS_PER_REG * BITS_PER_PIN, BITS_PER_PIN)
    }

    /** The modes of all pins. */
    function Modes(): (m: seq<nat>)
      requires gpfsel.Length == 6
      reads gpfsel
      ensures |m| == NUM_PINS
    {
      seq(NUM_PINS, pin requires 0 <= pin < 54 && gpfsel.Length == 6 reads gpfsel => Mode(pin))
    }

    /** The two top bits of a register, which belong to no pin. */
    function Spare(reg: nat): nat
      requires reg < gpfsel.Length
      reads gpfsel
    {
      Field(gpfsel[reg], 30, 2)
    }

    /** Below its two top bits a register is the octal number that the modes of its ten pins spell, lowest pin first. */
    lemma RegisterIsOctal(reg: nat, modes: seq<nat>)
      requires gpfsel.Length == 6 && reg < 6
      requires |modes| == 10 && forall k :: 0 <= k < 10 ==> modes[k] == Mode(10 * reg + k)
      ensures Spelled(modes, 3) == gpfsel[reg] % 0x4000_0000
      ensures Spare(reg) == gpfsel[reg] / 0x4000_0000
    {
      hide Field, Pow2, Spelled;
      PowTable();
      forall k | 0 <= k < 10
        ensures modes[k] == Field(gpfsel[reg], 0 + k * 3, 3)
      {
        assert modes[k] == Mode(10 * reg + k);
        assert (10 * reg + k) / 10 == reg && (10 * reg + k) % 10 == k;
      }
      FieldsSpell(gpfsel[reg], 0, 3, modes);
      FieldDivMod(gpfsel[reg], 30, 2);
    }

    method Config(nr: word, flags: word) returns (r: int)
      requires gpfsel.Length == 6
      modifies gpfsel
      ensures nr >= NUM_PINS || flags > 7 ==> r == -EINVAL && gpfsel[..] == old(gpfsel[..])
      ensures nr < NUM_PINS && flags <= 7 ==>
                && r == 0
                && Modes() == old(Modes())[nr := flags]
                && (forall pin :: NUM_PINS <= pin < 60 ==> Mode(pin) == old(Mode(pin)))
                && (forall reg :: 0 <= reg < 6 ==> Spare(reg) == old(Spare(reg)))
    {
      hide And, Or32, Shl, Pow2, Field, Replace;
      AboveMask(flags);
      if nr >= NUM_PINS || And(flags, Not32(7)) != 0 {
        return -EINVAL;
      }
      PowTable();
      var registerNumber, offset := nr / PINS_PER_REG, nr % PINS_PER_REG * BITS_PER_PIN;
      ghost var v := gpfsel[registerNumber];
      gpfsel[registerNumber] := Replace(gpfsel[registerNumber], offset, BITS_PER_PIN, flags);
      ReplaceHere(v, offset, BITS_PER_PIN, flags);
      forall pin | 0 <= pin < 60
        ensures Mode(pin) == if pin == nr then flags else old(Mode(pin))
      {
        if pin != nr && pin / PINS_PER_REG == registerNumber {
          ReplaceElsewhere(v, offset, BITS_PER_PIN, flags, pin % PINS_PER_REG * BITS_PER_PIN, BITS_PER_PIN);
        }
      }
      ReplaceElsewhere(v, offset, BITS_PER_PIN, flags, 30, 2);
      return 0;
    }

    method GetConfig(nr: word) returns (r: int)
      requires gpfsel.Length == 6
      ensures r == if nr < NUM_PINS then Modes()[nr] else -EINVAL
    {
      hide And, Shl, Shr, Pow2, Field;
      if nr >= NUM_PINS {
        return -EINVAL;
      }
      var registerNumber, offset := nr / PINS_PER_REG, nr % PINS_PER_REG * BITS_PER_PIN;
      MaskedRead(gpfsel[registerNumber], offset);
      return Shr(And(gpfsel[registerNumber], Shl(7, offset)), offset);
    }
  }

  /** The test `flags & ~7`. */
  lemma AboveMask(flags: word)
    ensures And(flags, Not32(7)) != 0 <==> flags > 7
  {
    hide And, Pow2;
    PowTable();
    AndNotAt(flags, 7, 0, 3, 1, 8);
  }

  lemma MaskedRead(v: word, o: nat)
    ensures Shr(And(v, Shl(7, o)), o) == Field(v, o, 3)
  {
    hide And, Shl, Shr, Low;
    assert Pow2(3) == 8;
    AndMask(v, o, 3);
    ShrShl(Field(v, o, 3), o);
  }

  // Pull resistors.

  /**
   The pull control. While a pin's clock bit is set the pin follows GPPUD; otherwise it keeps its pull. `Settle` is
   what the hardware does after every store to one of the three registers.
   */
  class Pulls {
    const pulls: array<nat>
    var gppud: nat
    var clk0: word
    var clk1: word

    constructor (pulls: array<nat>, gppud: nat)
      ensures this.pulls == pulls && this.gppud == gppud && clk0 == clk1 == 0
    {
      this.pulls := pulls;
      this.gppud, clk0, clk1 := gppud, 0, 0;
    }

    method Settle()
      requires pulls.Length == 64
      modifies pulls
      ensures forall pin :: 0 <= pin < 64 ==>
                pulls[pin] == if Clocked(clk0, clk1, pin) then gppud else old(pulls[pin])
    {
      forall pin | 0 <= pin < 64 {
        pulls[pin] := if Clocked(clk0, clk1, pin) then gppud else pulls[pin];
      }
    }

    /** One turn of the loop of `gpio_apply_batch`. */
    method ApplyMode(mode: nat, bank0: word, bank1: word)
      requires pulls.Length == 64 && clk0 == clk1 == 0
      modifies this, pulls
      ensures clk0 == clk1 == 0 && gppud == if bank0 == 0 && bank1 == 0 then old(gppud) else 0
      ensures forall pin :: 0 <= pin < 64 ==>
                pulls[pin] == if Clocked(bank0, bank1, pin) then mode else old(pulls[pin])
    {
      hide Field, Or;
      NoClock();
      EmptyBanks(bank0, bank1);
      if Or(bank0, bank1) != 0 {
        gppud := mode;
        Settle();
        clk0 := bank0;
        Settle();
        clk1 := bank1;
        Settle();
        clk0 := 0;
        Settle();
        clk1 := 0;
        Settle();
        gppud := 0;
        Settle();
      }
    }

    /** Every pin of a batch ends with the highest mode whose bank names it; the others keep their pull. */
    method ApplyBatch(bank: seq<(word, word)>)
      requires pulls.Length == 64 && clk0 == clk1 == 0 && |bank| == 3
      modifies this, pulls
      ensures clk0 == clk1 == 0
      ensures gppud == if forall mode :: 0 <= mode < 3 ==> bank[mode] == (0, 0) then old(gppud) else 0
      ensures forall pin :: 0 <= pin < 64 ==>
                match HighestMode(bank, pin)
                case None => pulls[pin] == old(pulls[pin])
                case Some(mode) => pulls[pin] == mode
    {
      hide Field;
      var mode := 0;
      while mode <= 2
        invariant 0 <= mode <= 3 && clk0 == clk1 == 0
        invariant gppud == if forall m :: 0 <= m < mode ==> bank[m] == (0, 0) then old(gppud) else 0
        invariant forall pin :: 0 <= pin < 64 ==>
                    match HighestMode(bank[..mode], pin)
                    case None => pulls[pin] == old(pulls[pin])
                    case Some(m) => pulls[pin] == m
      {
        assert bank[..mode + 1][..mode] == bank[..mode];
        ApplyMode(mode, bank[mode].0, bank[mode].1);
        mode := mode + 1;
      }
      assert bank[..3] == bank;
    }
  }

  predicate Clocked(clk0: word, clk1: word, pin: nat)
    requires pin < 64
  {
    if pin < 32 then Field(clk0, pin, 1) == 1 else Field(clk1, pin - 32, 1) == 1
  }

  /** The highest mode whose bank has the pin's bit. */
  function HighestMode(bank: seq<(word, word)>, pin: nat): Option<nat>
    requires pin < 64
  {
    if bank == [] then None
    else
      var mode := |bank| - 1;
      if Clocked(bank[mode].0, bank[mode].1, pin) then Some(mode) else HighestMode(bank[..mode], pin)
  }

  lemma {:induction false} HighestModeTells(bank: seq<(word, word)>, pin: nat)
    requires pin < 64
    ensures match HighestMode(bank, pin)
            case None => forall m :: 0 <= m < |bank| ==> !Clocked(bank[m].0, bank[m].1, pin)
            case Some(mode) =>
              && mode < |bank| && Clocked(bank[mode].0, bank[mode].1, pin)
              && forall m :: mode < m < |bank| ==> !Clocked(bank[m].0, bank[m].1, pin)
  {
    hide Clocked;
    if bank != [] {
      HighestModeTells(bank[..|bank| - 1], pin);
    }
  }

  /** Bit `k` of the two bank words, low word first, is the clock of pin `k`. */
  lemma ClockBit(clk0: word, clk1: word, pin: nat)
    requires pin < 64
    ensures Clocked(clk0, clk1, pin) <==> (clk0 + 0x1_0000_0000 * clk1) / Pow2(pin) % 2 == 1
  {
    hide Low, Shr, Pow2;
    PowTable();
    var v: nat := clk0 + TWO32 * clk1;
    FieldDivMod(v, pin, 1);
    if pin < 32 {
      LowWordBit(v, clk0, pin);
    } else {
      ShrShr(v, 32, pin - 32);
      ShrDiv(v, 32);
      DivUnique(v, TWO32, clk1, clk0);
    }
  }

  lemma LowWordBit(v: nat, w: word, pin: nat)
    requires v % TWO32 == w && pin < 32
    ensures Field(v, pin, 1) == Field(w, pin, 1)
  {
    hide Low, Shr, Pow2;
    PowTable();
    LowMod(v, 32);
    LowShr(v, pin, 32 - pin);
    LowLow(Shr(v, pin), 1, 32 - pin);
  }

  lemma NoClock()
    ensures forall n: nat :: Field(0, n, 1) == 0
  {
    forall n: nat
      ensures Field(0, n, 1) == 0
    {
      ZeroField(n, 1);
    }
  }

  lemma EmptyBanks(a: word, b: word)
    ensures Or(a, b) == 0 <==> a == 0 && b == 0
  {
  }
}
