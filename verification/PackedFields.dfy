/** Read-modify-write of one field of a packed 32-bit register. */
module PackedFields {
  import opened Bits

  /** `(v & ~(mask << o)) | (f << o)` */
  function Replace(v: word, o: nat, w: nat, f: nat): (r: word)
    requires f < Pow2(w) && o + w <= 32
  {
    MaskBelow(o, w);
    ShlBelow(f, o, w);
    Or32(And(v, Not32(Mask(o, w))), Shl(f, o))
  }

  lemma MaskBelow(o: nat, w: nat)
    requires o + w <= 32
    ensures Mask(o, w) < TWO32
  {
    ShlBelow(Pow2(w) - 1, o, w);
  }

  lemma {:induction false} ShlBelow(f: nat, o: nat, w: nat)
    requires f < Pow2(w) && o + w <= 32
    ensures Shl(f, o) < TWO32
  {
    PowTable();
    ShlLess(f, o, w);
    PowMono(o + w, 32);
  }

  lemma {:induction false} ShlLess(f: nat, o: nat, w: nat)
    requires f < Pow2(w)
    ensures Shl(f, o) < Pow2(o + w)
  {
    if o > 0 {
      ShlLess(f, o - 1, w);
    }
  }

  // Fields of a shifted value.

  lemma {:induction false} ShrShl(f: nat, o: nat)
    ensures Shr(Shl(f, o), o) == f
  {
    if o > 0 {
      ShrShl(f, o - 1);
    }
  }

  lemma {:induction false} LowShlZero(f: nat, n: nat, w: nat)
    requires w <= n
    ensures Low(Shl(f, n), w) == 0
  {
    if w > 0 {
      LowShlZero(f, n - 1, w - 1);
    }
  }

  lemma {:induction false} ShrShlPart(f: nat, o: nat, m: nat)
    requires m <= o
    ensures Shr(Shl(f, o), m) == Shl(f, o - m)
  {
    if m > 0 {
      ShrShlPart(f, o - 1, m - 1);
    }
  }

  lemma {:induction false} ShrGone(f: nat, w: nat)
    requires f < Pow2(w)
    ensures Shr(f, w) == 0
  {
    if w > 0 {
      ShrGone(f / 2, w - 1);
    }
  }

  lemma ZeroField(o: nat, w: nat)
    ensures Field(0, o, w) == 0
  {
    ShrZero(o);
    LowZero(w);
  }

  lemma ShiftedField(f: nat, o: nat, w: nat)
    requires f < Pow2(w)
    ensures Field(Shl(f, o), o, w) == f
  {
    ShrShl(f, o);
    LowSmall(f, w);
  }

  predicate Apart(o: nat, w: nat, o2: nat, w2: nat)
  {
    o2 + w2 <= o || o + w <= o2
  }

  lemma ShiftedElsewhere(f: nat, o: nat, w: nat, o2: nat, w2: nat)
    requires f < Pow2(w) && Apart(o, w, o2, w2)
    ensures Field(Shl(f, o), o2, w2) == 0
  {
    hide Low, Shr, Shl, Pow2;
    if o2 + w2 <= o {
      ShrShlPart(f, o, o2);
      LowShlZero(f, o - o2, w2);
    } else {
      ShrShr(Shl(f, o), o, o2 - o);
      ShrShl(f, o);
      ShrShr(f, w, o2 - o - w);
      ShrGone(f, w);
      ZeroField(o2 - o - w, w2);
    }
  }

  // A register as the number its fields spell.

  /** The number with these digits of `w` bits, least significant first. */
  function Spelled(digits: seq<nat>, w: nat): nat
  {
    if digits == [] then 0
    else
      MulNonneg(Pow2(w), Spelled(digits[1..], w));
      digits[0] + Pow2(w) * Spelled(digits[1..], w)
  }

  /** The fields of `w` bits of a register, from bit `o` on, spell the register from there on. */
  lemma {:induction false} FieldsSpell(v: nat, o: nat, w: nat, digits: seq<nat>)
    requires forall k :: 0 <= k < |digits| ==> digits[k] == Field(v, o + k * w, w)
    ensures Spelled(digits, w) == v / Pow2(o) % Pow2(|digits| * w)
    decreases |digits|
  {
    hide Pow2, Low, Shr, Field;
    FieldDivMod(v, o, |digits| * w);
    if digits == [] {
      PowTable();
    } else {
      forall k | 0 <= k < |digits| - 1
        ensures digits[1..][k] == Field(v, o + w + k * w, w)
      {
        assert digits[1..][k] == digits[k + 1] == Field(v, o + (k + 1) * w, w);
        assert (k + 1) * w == k * w + w;
      }
      FieldsSpell(v, o + w, w, digits[1..]);
      assert digits[0] == Field(v, o + 0 * w, w);
      FirstDigit(v, o, w, (|digits| - 1) * w);
      assert |digits| * w == w + (|digits| - 1) * w;
    }
  }

  lemma FirstDigit(v: nat, o: nat, w: nat, rest: nat)
    ensures v / Pow2(o) % Pow2(w + rest) == Field(v, o, w) + Pow2(w) * (v / Pow2(o + w) % Pow2(rest))
  {
    hide Pow2, Low, Shr;
    FieldDivMod(v, o, w + rest);
    FieldDivMod(v, o + w, rest);
    FieldDivMod(v, o, w);
    LowSplit(Shr(v, o), w, rest);
    ShrShr(v, o, w);
    ShlMul(Low(Shr(v, o + w), rest), w);
  }

  // Fields of a complement.

  lemma HalfNot(p: nat, m: nat)
    requires m < 2 * p
    ensures m / 2 < p && (2 * p - 1 - m) / 2 == p - 1 - m / 2 && (2 * p - 1 - m) % 2 == 1 - m % 2
  {
  }

  lemma {:induction false} ShrNot(m: nat, o: nat, n: nat)
    requires o <= n && m < Pow2(n)
    ensures Shr(m, o) < Pow2(n - o) && Shr(Pow2(n) - 1 - m, o) == Pow2(n - o) - 1 - Shr(m, o)
  {
    if o > 0 {
      var p := Pow2(n - 1);
      HalfNot(p, m);
      ShrNot(m / 2, o - 1, n - 1);
    }
  }

  lemma {:induction false} LowNot(m: nat, w: nat, n: nat)
    requires w <= n && m < Pow2(n)
    ensures Low(m, w) < Pow2(w) && Low(Pow2(n) - 1 - m, w) == Pow2(w) - 1 - Low(m, w)
  {
    if w > 0 {
      var p := Pow2(n - 1);
      HalfNot(p, m);
      LowNot(m / 2, w - 1, n - 1);
    }
  }

  lemma FieldNot(m: word, o: nat, w: nat)
    requires o + w <= 32
    ensures Field(Not32(m), o, w) == Pow2(w) - 1 - Field(m, o, w)
  {
    hide Low, Shr, Pow2;
    PowTable();
    ShrNot(m, o, 32);
    LowNot(Shr(m, o), w, 32 - o);
  }

  lemma {:induction false} AndOnes(a: nat, w: nat)
    requires a < Pow2(w)
    ensures And(a, Pow2(w) - 1) == a
  {
    AndLow(a, w);
    LowSmall(a, w);
  }

  // The law.

  /** The field is the new value. */
  lemma ReplaceHere(v: word, o: nat, w: nat, f: nat)
    requires f < Pow2(w) && o + w <= 32
    ensures Field(Replace(v, o, w, f), o, w) == f
  {
    hide And, Or, Low, Shr, Shl, Pow2, Field;
    MaskBelow(o, w);
    var kept := And(v, Not32(Mask(o, w)));
    FieldOr(kept, Shl(f, o), o, w);
    FieldAnd(v, Not32(Mask(o, w)), o, w);
    FieldNot(Mask(o, w), o, w);
    ShiftedField(Pow2(w) - 1, o, w);
    ShiftedField(f, o, w);
    ZeroOperand(Field(v, o, w));
    ZeroOperand(f);
  }

  /** Every field apart from it is what it was. */
  lemma ReplaceElsewhere(v: word, o: nat, w: nat, f: nat, o2: nat, w2: nat)
    requires f < Pow2(w) && o + w <= 32 && o2 + w2 <= 32 && Apart(o, w, o2, w2)
    ensures Field(Replace(v, o, w, f), o2, w2) == Field(v, o2, w2)
  {
    hide And, Or, Low, Shr, Shl, Pow2;
    MaskBelow(o, w);
    var kept := And(v, Not32(Mask(o, w)));
    FieldOr(kept, Shl(f, o), o2, w2);
    FieldAnd(v, Not32(Mask(o, w)), o2, w2);
    FieldNot(Mask(o, w), o2, w2);
    ShiftedElsewhere(Pow2(w) - 1, o, w, o2, w2);
    ShiftedElsewhere(f, o, w, o2, w2);
    LowBound(Shr(v, o2), w2);
    AndOnes(Field(v, o2, w2), w2);
    ZeroOperand(Field(v, o2, w2));
  }
}
