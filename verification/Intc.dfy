/** Interrupt masks of the two VPU cores: one nibble an interrupt, eight to a register. */
module Intc {
  import opened Bits
  import opened PackedFields

  const NUM_INTERRUPTS := 64

  class MaskRegisters {
    const ic0: array<word>
    const ic1: array<word>

    constructor (ic0: array<word>, ic1: array<word>)
      requires ic0.Length == ic1.Length == 8 && ic0 != ic1
      ensures this.ic0 == ic0 && this.ic1 == ic1
    {
      this.ic0, this.ic1 := ic0, ic1;
    }

    predicate Valid()
    {
      ic0.Length == 8 && ic1.Length == 8 && ic0 != ic1
    }

    function Nibble(core: int, intno: nat): nat
      requires Valid() && intno < NUM_INTERRUPTS
      reads ic0, ic1
    {
      Field(if core == 0 then ic0[intno / 8] else ic1[intno / 8], intno % 8 * 4, 4)
    }

    /** A mask register is the number that its eight nibbles spell, lowest interrupt first. */
    lemma RegisterIsHex(core: int, reg: nat, nibbles: seq<nat>)
      requires Valid() && reg < 8
      requires |nibbles| == 8 && forall k :: 0 <= k < 8 ==> nibbles[k] == Nibble(core, 8 * reg + k)
      ensures Spelled(nibbles, 4) == if core == 0 then ic0[reg] else ic1[reg]
    {
      hide Field, Pow2, Spelled;
      PowTable();
      var v := if core == 0 then ic0[reg] else ic1[reg];
      forall k | 0 <= k < 8
        ensures nibbles[k] == Field(v, 0 + k * 4, 4)
      {
        assert nibbles[k] == Nibble(core, 8 * reg + k);
        assert (8 * reg + k) / 8 == reg && (8 * reg + k) % 8 == k;
      }
      FieldsSpell(v, 0, 4, nibbles);
    }

    /** The interrupts a core takes: those whose nibble is not zero. */
    function Enabled(core: int): set<nat>
      requires Valid()
      reads ic0, ic1
    {
      set intno: nat | intno < NUM_INTERRUPTS && Nibble(core, intno) != 0
    }

    /** Enabling or disabling one interrupt of one core changes that interrupt of that core and nothing else. */
    method SetInterrupt(intno: nat, enable: bool, core: int)
      requires Valid() && intno < NUM_INTERRUPTS
      modifies ic0, ic1
      ensures forall c: int, n: nat :: n < NUM_INTERRUPTS ==>
                Nibble(c, n) == if n == intno && (c == 0 <==> core == 0) then (if enable then 0xf else 0)
                 else old(Nibble(c, n))
      ensures Enabled(core) == if enable then old(Enabled(core)) + {intno} else old(Enabled(core)) - {intno}
      ensures core == 0 ==> Enabled(1) == old(Enabled(1))
      ensures core != 0 ==> Enabled(0) == old(Enabled(0))
    {
      hide And, Or, Shl, Pow2, Field, Replace;
      var base := if core == 0 then ic0 else ic1;
      var reg, offset := intno / 8, intno % 8 * 4;
      PowTable();
      SlotBelow(offset);
      var slot: word := Shl(0xf, offset);
      var v: word := And(base[reg], Not32(slot));
      ghost var before := base[reg];
      base[reg] := if enable then Or32(v, slot) else v;
      ghost var f := if enable then 0xf else 0;
      NibbleStore(before, offset, enable);
      ReplaceHere(before, offset, 4, f);
      forall n: nat | n < NUM_INTERRUPTS && n / 8 == reg && n != intno
        ensures Field(base[reg], n % 8 * 4, 4) == Field(before, n % 8 * 4, 4)
      {
        ReplaceElsewhere(before, offset, 4, f, n % 8 * 4, 4);
      }
    }

    method UnmaskInterrupt(vector: nat)
      requires Valid() && vector < NUM_INTERRUPTS
      modifies ic0, ic1
      ensures Enabled(0) == old(Enabled(0)) + {vector} && Enabled(1) == old(Enabled(1))
    {
      SetInterrupt(vector, true, 0);
    }
  }

  lemma SlotBelow(offset: nat)
    requires offset <= 28
    ensures Shl(0xf, offset) < TWO32 && Shl(0xf, offset) == Mask(offset, 4)
  {
    hide Pow2, Shl;
    PowTable();
    ShlBelow(0xf, offset, 4);
  }

  /** What the store writes is the replacement of the nibble. */
  lemma NibbleStore(v: word, offset: nat, enable: bool)
    requires offset <= 28
    ensures Shl(0xf, offset) < TWO32 && Pow2(4) == 0x10
    ensures Replace(v, offset, 4, if enable then 0xf else 0)
         == (var slot: word := Shl(0xf, offset);
             if enable then Or(And(v, Not32(slot)), slot) else And(v, Not32(slot)))
  {
    hide And, Or, Pow2, Shl;
    PowTable();
    SlotBelow(offset);
    ShlMul(0, offset);
    ZeroOperand(And(v, Not32(Mask(offset, 4))));
  }
}
