/**
 Machine words as bounded integers, with C's `&`, `|`, `~`, `<<` and `>>` defined bit by bit,
 and the laws that turn a masked expression into a quotient and a remainder.
 */
module Bits {

  const TWO32 := 0x1_0000_0000

  type word = x: int | 0 <= x < 0x1_0000_0000

  type byte = x: int | 0 <= x < 256

  function Pow2(n: nat): (p: nat)
    ensures p > 0
  {
    if n == 0 then 1 else 2 * Pow2(n - 1)
  }

  function And(a: nat, b: nat): (r: nat)
    ensures r <= a && r <= b
  {
    if a == 0 || b == 0 then 0
    else 2 * And(a / 2, b / 2) + if a % 2 == 1 && b % 2 == 1 then 1 else 0
  }

  function Or(a: nat, b: nat): (r: nat)
    ensures a <= r && b <= r <= a + b
  {
    if a == 0 then b
    else if b == 0 then a
    else 2 * Or(a / 2, b / 2) + if a % 2 == 1 || b % 2 == 1 then 1 else 0
  }

  function Shl(a: nat, n: nat): nat
  {
    if n == 0 then a else 2 * Shl(a, n - 1)
  }

  function Shr(a: nat, n: nat): nat
  {
    if n == 0 then a else Shr(a / 2, n - 1)
  }

  /** The `n` lowest bits. */
  function Low(a: nat, n: nat): nat
  {
    if n == 0 then 0 else 2 * Low(a / 2, n - 1) + a % 2
  }

  /** The `w`-bit field whose lowest bit is `o`. */
  function Field(a: nat, o: nat, w: nat): nat
  {
    Low(Shr(a, o), w)
  }

  function Not32(a: word): word
  {
    TWO32 - 1 - a
  }

  function Or32(a: word, b: word): (r: word)
    ensures r == Or(a, b)
  {
    PowTable();
    OrBound(a, b, 32);
    Or(a, b)
  }

  function Shl32(a: nat, n: nat): (r: word)
    ensures r == a * Pow2(n) % TWO32
  {
    ShlMul(a, n);
    Shl(a, n) % TWO32
  }

  /** The value of a 32-bit pattern read as a two's complement `int`. */
  function ToInt32(a: word): int
  {
    if a < 0x8000_0000 then a else a - TWO32
  }

  // Powers of two and quotients.

  lemma PowTable()
    ensures Pow2(0) == 1 && Pow2(1) == 2 && Pow2(2) == 4 && Pow2(3) == 8 && Pow2(4) == 0x10 && Pow2(5) == 0x20
    ensures Pow2(6) == 0x40 && Pow2(7) == 0x80 && Pow2(8) == 0x100 && Pow2(9) == 0x200 && Pow2(10) == 0x400
    ensures Pow2(11) == 0x800 && Pow2(12) == 0x1000 && Pow2(13) == 0x2000 && Pow2(14) == 0x4000
    ensures Pow2(15) == 0x8000 && Pow2(16) == 0x1_0000 && Pow2(17) == 0x2_0000 && Pow2(19) == 0x8_0000
    ensures Pow2(20) == 0x10_0000 && Pow2(22) == 0x40_0000 && Pow2(24) == 0x100_0000
    ensures Pow2(30) == 0x4000_0000 && Pow2(31) == 0x8000_0000 && Pow2(32) == TWO32
  {
  }

  lemma {:induction false} PowAdd(m: nat, n: nat)
    ensures Pow2(m + n) == Pow2(m) * Pow2(n)
  {
    if m > 0 {
      PowAdd(m - 1, n);
      MulDouble(Pow2(m - 1), Pow2(n));
    }
  }

  lemma MulDouble(x: nat, y: nat)
    ensures (2 * x) * y == 2 * (x * y) == x * (2 * y)
  {
  }

  lemma MulAtLeast(d: nat, k: nat)
    requires k > 0
    ensures d * k >= d
  {
    assert d * k == d + d * (k - 1);
  }

  lemma DivUnique(a: int, d: nat, q: int, r: int)
    requires d > 0 && 0 <= r < d && a == d * q + r
    ensures a / d == q && a % d == r
  {
    var q' := a / d;
    if q != q' {
      MulAtLeast(d, if q > q' then q - q' else q' - q);
      MulSub(d, q, q');
      MulSub(d, q', q);
    }
  }

  lemma MulSub(d: int, x: int, y: int)
    ensures d * (x - y) == d * x - d * y
  {
  }

  lemma DivModHalve(a: nat, p: nat)
    requires p > 0
    ensures a / (2 * p) == a / 2 / p
    ensures a % (2 * p) == 2 * (a / 2 % p) + a % 2
  {
    var q, r := a / 2 / p, a / 2 % p;
    assert a / 2 == p * q + r;
    assert 2 * (p * q) == (2 * p) * q;
    DivUnique(a, 2 * p, q, 2 * r + a % 2);
  }

  lemma {:induction false} PowMono(m: nat, n: nat)
    requires m <= n
    ensures Pow2(m) <= Pow2(n)
    ensures m < n ==> Pow2(m) < Pow2(n)
    decreases n
  {
    if m < n {
      PowMono(m, n - 1);
    }
  }

  lemma MulNonneg(x: nat, y: nat)
    ensures x * y >= 0
  {
  }

  lemma {:induction false} ShlMul(a: nat, n: nat)
    ensures Shl(a, n) == a * Pow2(n)
  {
    if n > 0 {
      ShlMul(a, n - 1);
      MulDouble(a, Pow2(n - 1));
    }
  }

  lemma {:induction false} ShrDiv(a: nat, n: nat)
    ensures Shr(a, n) == a / Pow2(n)
  {
    if n > 0 {
      ShrDiv(a / 2, n - 1);
      DivModHalve(a, Pow2(n - 1));
    }
  }

  lemma {:induction false} LowMod(a: nat, n: nat)
    ensures Low(a, n) == a % Pow2(n)
  {
    if n > 0 {
      LowMod(a / 2, n - 1);
      DivModHalve(a, Pow2(n - 1));
    }
  }

  lemma FieldDivMod(a: nat, o: nat, w: nat)
    ensures Field(a, o, w) == a / Pow2(o) % Pow2(w)
  {
    ShrDiv(a, o);
    LowMod(Shr(a, o), w);
  }

  lemma {:induction false} LowBound(a: nat, n: nat)
    ensures Low(a, n) < Pow2(n)
  {
    if n > 0 {
      LowBound(a / 2, n - 1);
    }
  }

  lemma {:induction false} LowSmall(a: nat, n: nat)
    requires a < Pow2(n)
    ensures Low(a, n) == a
  {
    if n > 0 {
      LowSmall(a / 2, n - 1);
    }
  }

  lemma {:induction false} ShrZero(n: nat)
    ensures Shr(0, n) == 0
  {
    if n > 0 {
      ShrZero(n - 1);
    }
  }

  lemma {:induction false} LowZero(n: nat)
    ensures Low(0, n) == 0
  {
    if n > 0 {
      LowZero(n - 1);
    }
  }

  lemma ZeroOperand(a: nat)
    ensures And(a, 0) == 0 == And(0, a) && Or(a, 0) == a == Or(0, a)
  {
  }

  // Composition of shifts and low parts.

  lemma {:induction false} ShrShr(a: nat, m: nat, n: nat)
    ensures Shr(Shr(a, m), n) == Shr(a, m + n)
  {
    if m > 0 {
      ShrShr(a / 2, m - 1, n);
    }
  }

  lemma {:induction false} LowSplit(a: nat, m: nat, n: nat)
    ensures Low(a, m + n) == Low(a, m) + Shl(Low(Shr(a, m), n), m)
  {
    if m > 0 {
      LowSplit(a / 2, m - 1, n);
    }
  }

  lemma {:induction false} LowShr(a: nat, m: nat, n: nat)
    ensures Shr(Low(a, m + n), m) == Low(Shr(a, m), n)
  {
    if m > 0 {
      LowShr(a / 2, m - 1, n);
      assert Low(a, m + n) / 2 == Low(a / 2, m + n - 1);
    }
  }

  lemma {:induction false} LowLow(a: nat, m: nat, n: nat)
    requires m <= n
    ensures Low(Low(a, n), m) == Low(a, m)
  {
    if m > 0 {
      LowLow(a / 2, m - 1, n - 1);
      assert Low(a, n) / 2 == Low(a / 2, n - 1) && Low(a, n) % 2 == a % 2;
    }
  }

  /** A value placed above `m` low bits. */
  lemma {:induction false} LowAbove(a: nat, b: nat, m: nat, n: nat)
    requires a < Pow2(m)
    ensures Low(a + Shl(b, m), m + n) == a + Shl(Low(b, n), m)
  {
    if m > 0 {
      LowAbove(a / 2, b, m - 1, n);
      assert (a + Shl(b, m)) / 2 == a / 2 + Shl(b, m - 1) && (a + Shl(b, m)) % 2 == a % 2;
    }
  }

  lemma {:induction false} OrAbove(a: nat, b: nat, m: nat)
    requires a < Pow2(m)
    ensures Or(a, Shl(b, m)) == a + Shl(b, m)
  {
    if a == 0 || Shl(b, m) == 0 {
    } else {
      OrAbove(a / 2, b, m - 1);
    }
  }

  lemma {:induction false} LowShl(b: nat, m: nat, n: nat)
    ensures Low(Shl(b, m), m + n) == Shl(Low(b, n), m)
  {
    LowAbove(0, b, m, n);
  }

  lemma FieldBound(a: nat, o: nat, w: nat)
    ensures Field(a, o, w) < Pow2(w)
  {
    LowBound(Shr(a, o), w);
  }

  lemma BitBound(a: nat, i: nat)
    ensures Field(a, i, 1) < 2
  {
    FieldBound(a, i, 1);
    assert Pow2(1) == 2;
  }

  // Masks.

  /** The contiguous mask of `w` ones starting at bit `o`. */
  function Mask(o: nat, w: nat): nat
  {
    Shl(Pow2(w) - 1, o)
  }

  lemma {:induction false} AndLow(a: nat, n: nat)
    ensures And(a, Pow2(n) - 1) == Low(a, n)
  {
    if n > 0 {
      var p := Pow2(n - 1);
      assert (2 * p - 1) / 2 == p - 1 && (2 * p - 1) % 2 == 1;
      AndLow(a / 2, n - 1);
      if a == 0 {
        LowMod(0, n);
      }
    }
  }

  /** `a & mask` keeps exactly the field under the mask. */
  lemma {:induction false} AndMask(a: nat, o: nat, w: nat)
    ensures And(a, Mask(o, w)) == Shl(Field(a, o, w), o)
  {
    if o == 0 {
      AndLow(a, w);
    } else {
      AndMask(a / 2, o - 1, w);
      assert Mask(o, w) / 2 == Mask(o - 1, w) && Mask(o, w) % 2 == 0;
      if a == 0 {
        ShrDiv(0, o);
        LowMod(0, w);
        ShlMul(0, o);
      }
    }
  }

  /** A mask and its complement split a word. */
  lemma {:induction false} AndComplement(a: nat, m: nat, n: nat)
    requires a < Pow2(n) && m < Pow2(n)
    ensures And(a, Pow2(n) - 1 - m) + And(a, m) == a
  {
    if n > 0 && a > 0 {
      AndComplement(a / 2, m / 2, n - 1);
      var c := Pow2(n) - 1 - m;
      assert c / 2 == Pow2(n - 1) - 1 - m / 2 && c % 2 == 1 - m % 2;
    }
  }

  /** `a & ~mask` clears exactly the field under the mask. */
  lemma AndNotMask(a: word, o: nat, w: nat)
    requires Mask(o, w) < TWO32
    ensures And(a, Not32(Mask(o, w))) == a - Shl(Field(a, o, w), o)
  {
    PowTable();
    AndComplement(a, Mask(o, w), 32);
    AndMask(a, o, w);
  }

  lemma {:induction false} OrBound(a: nat, b: nat, n: nat)
    requires a < Pow2(n) && b < Pow2(n)
    ensures Or(a, b) < Pow2(n)
  {
    if a != 0 && b != 0 {
      OrBound(a / 2, b / 2, n - 1);
    }
  }

  lemma {:induction false} OrCommutes(a: nat, b: nat)
    ensures Or(a, b) == Or(b, a)
  {
    if a != 0 && b != 0 {
      OrCommutes(a / 2, b / 2);
    }
  }

  lemma {:induction false} OrPlusAnd(a: nat, b: nat)
    ensures Or(a, b) + And(a, b) == a + b
  {
    if a != 0 && b != 0 {
      OrPlusAnd(a / 2, b / 2);
    }
  }

  /** Or-ing a value into a field that is zero adds it. */
  lemma {:induction false} OrField(a: nat, f: nat, o: nat, w: nat)
    requires f < Pow2(w) && Field(a, o, w) == 0
    ensures Or(a, Shl(f, o)) == a + Shl(f, o)
  {
    if a == 0 || f == 0 {
      ShlMul(f, o);
    } else if o > 0 {
      OrField(a / 2, f, o - 1, w);
    } else {
      assert w > 0;
      OrField(a / 2, f / 2, 0, w - 1);
    }
  }

  // Fields of composed words.

  lemma {:induction false} ShrOr(a: nat, b: nat, n: nat)
    ensures Shr(Or(a, b), n) == Or(Shr(a, n), Shr(b, n))
  {
    if n > 0 {
      ShrOr(a / 2, b / 2, n - 1);
    }
  }

  lemma {:induction false} LowOr(a: nat, b: nat, n: nat)
    ensures Low(Or(a, b), n) == Or(Low(a, n), Low(b, n))
  {
    if a == 0 || b == 0 {
      LowZero(n);
    } else if n > 0 {
      LowOr(a / 2, b / 2, n - 1);
      assert Or(a, b) / 2 == Or(a / 2, b / 2);
    }
  }

  lemma {:induction false} ShrAnd(a: nat, b: nat, n: nat)
    ensures Shr(And(a, b), n) == And(Shr(a, n), Shr(b, n))
  {
    if n > 0 {
      ShrAnd(a / 2, b / 2, n - 1);
    }
  }

  lemma {:induction false} LowAnd(a: nat, b: nat, n: nat)
    ensures Low(And(a, b), n) == And(Low(a, n), Low(b, n))
  {
    if n > 0 {
      LowAnd(a / 2, b / 2, n - 1);
      assert And(a, b) / 2 == And(a / 2, b / 2);
    }
  }

  lemma FieldOr(a: nat, b: nat, o: nat, w: nat)
    ensures Field(Or(a, b), o, w) == Or(Field(a, o, w), Field(b, o, w))
  {
    hide Or, Low, Shr;
    ShrOr(a, b, o);
    LowOr(Shr(a, o), Shr(b, o), w);
  }

  lemma FieldAnd(a: nat, b: nat, o: nat, w: nat)
    ensures Field(And(a, b), o, w) == And(Field(a, o, w), Field(b, o, w))
  {
    hide And, Low, Shr;
    ShrAnd(a, b, o);
    LowAnd(Shr(a, o), Shr(b, o), w);
  }

  /** `(a >> o) & (2^w - 1)` reads a field. */
  lemma GetField(a: nat, o: nat, w: nat)
    ensures And(Shr(a, o), Pow2(w) - 1) == Field(a, o, w)
  {
    AndLow(Shr(a, o), w);
  }

  /** `a & (1 << i)` tests a bit. */
  lemma TestBit(a: nat, i: nat)
    ensures And(a, Pow2(i)) != 0 <==> Field(a, i, 1) == 1
  {
    AndMask(a, i, 1);
    assert Pow2(1) == 2;
    ShlMul(1, i);
    ShlMul(Field(a, i, 1), i);
    LowBound(Shr(a, i), 1);
  }

  // The same laws on literal masks: `p` and `q` are the powers of two the caller wrote out.

  lemma AndAt(a: nat, m: nat, o: nat, w: nat, p: nat, q: nat)
    requires p == Pow2(o) && q == Pow2(w) && m == (q - 1) * p
    ensures And(a, m) == a / p % q * p
  {
    ShlMul(q - 1, o);
    AndMask(a, o, w);
    FieldDivMod(a, o, w);
    ShlMul(Field(a, o, w), o);
  }

  lemma AndNotAt(a: word, m: word, o: nat, w: nat, p: nat, q: nat)
    requires p == Pow2(o) && q == Pow2(w) && m == (q - 1) * p
    ensures And(a, Not32(m)) == a - a / p % q * p
  {
    ShlMul(q - 1, o);
    AndNotMask(a, o, w);
    FieldDivMod(a, o, w);
    ShlMul(Field(a, o, w), o);
  }

  lemma OrAt(a: nat, v: nat, o: nat, w: nat, p: nat, q: nat)
    requires p == Pow2(o) && q == Pow2(w) && v % p == 0 && v / p < q && a / p % q == 0
    ensures Or(a, v) == a + v && Or(v, a) == a + v
  {
    var f := v / p;
    assert v == f * p by {
      assert v == p * (v / p) + v % p;
    }
    FieldDivMod(a, o, w);
    ShlMul(f, o);
    OrField(a, f, o, w);
    OrCommutes(a, v);
  }

  lemma FieldAt(a: nat, o: nat, w: nat, p: nat, q: nat)
    requires p == Pow2(o) && q == Pow2(w)
    ensures Field(a, o, w) == a / p % q
  {
    FieldDivMod(a, o, w);
  }

  lemma ShlAt(a: nat, n: nat, p: nat)
    requires p == Pow2(n)
    ensures Shl32(a, n) == a * p % TWO32
  {
  }

  /** Or-ing `f` into the gap of `q` values above `lo` and below the multiples of `p * q`. */
  lemma OrInto(a: nat, hi: nat, lo: nat, f: nat, o: nat, w: nat, p: nat, q: nat)
    requires p == Pow2(o) && q == Pow2(w)
    requires a == p * q * hi + lo && lo < p && f < q
    ensures Or(a, p * f) == a + p * f && Or(p * f, a) == a + p * f
  {
    hide Or, Pow2, Low, Shr, Shl;
    assert a == p * (q * hi) + lo;
    DivUnique(a, p, q * hi, lo);
    DivUnique(q * hi, q, hi, 0);
    FieldDivMod(a, o, w);
    OrField(a, f, o, w);
    ShlMul(f, o);
    OrCommutes(a, p * f);
  }

  /** Reading a field off an explicit decomposition of the word. */
  lemma FieldIs(a: nat, hi: nat, f: nat, lo: nat, o: nat, w: nat, p: nat, q: nat)
    requires p == Pow2(o) && q == Pow2(w)
    requires a == p * q * hi + p * f + lo && lo < p && f < q
    ensures Field(a, o, w) == f
  {
    hide Pow2, Low, Shr;
    assert a == p * (q * hi + f) + lo;
    DivUnique(a, p, q * hi + f, lo);
    DivUnique(q * hi + f, q, hi, f);
    FieldDivMod(a, o, w);
  }
}
