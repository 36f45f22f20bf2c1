/** Extraction of bit fields from SD card responses: the byte-at-a-time loop of `__bitfield`. */
module Bitfield {
  import opened Bits

  /** The number a response spells, least significant word first. */
  function Value(src: seq<word>): nat
  {
    if src == [] then 0 else src[0] + TWO32 * Value(src[1..])
  }

  /** `floor(v / 2^start) mod 2^len`. */
  function Quotient(v: nat, start: nat, len: nat): nat
  {
    v / Pow2(start) % Pow2(len)
  }

  /** The field of a number put together from three parts is the middle part. */
  lemma QuotientOf(hi: nat, field: nat, lo: nat, start: nat, len: nat)
    requires field < Pow2(len) && lo < Pow2(start)
    ensures hi * Pow2(start + len) + field * Pow2(start) + lo >= 0
    ensures Quotient(hi * Pow2(start + len) + field * Pow2(start) + lo, start, len) == field
  {
    hide Pow2;
    var p, q := Pow2(start), Pow2(len);
    PowAdd(start, len);
    MulNonneg(hi, p * q);
    MulNonneg(field, p);
    var v := hi * Pow2(start + len) + field * p + lo;
    assert v == p * q * hi + p * field + lo;
    FieldIs(v, hi, field, lo, start, len, p, q);
    FieldDivMod(v, start, len);
  }

  /** Byte `k` of the words as a little-endian machine stores them. */
  function ByteAt(src: seq<word>, k: nat): nat
    requires k < 4 * |src|
  {
    Shr(src[k / 4], 8 * (k % 4)) % 256
  }

  lemma {:induction false} ValueShift(src: seq<word>, j: nat)
    requires j <= |src|
    ensures Shr(Value(src), 32 * j) == Value(src[j..])
  {
    if j > 0 {
      ValueShift(src[1..], j - 1);
      assert src[1..][j - 1..] == src[j..];
      PowTable();
      ShrDiv(Value(src), 32);
      assert Value(src) / TWO32 == Value(src[1..]);
      ShrShr(Value(src), 32, 32 * (j - 1));
    }
  }

  lemma LowWordByte(t: nat, w: word, o: nat)
    requires t % TWO32 == w && o <= 24
    ensures Low(Shr(t, o), 8) == Low(Shr(w, o), 8)
  {
    hide Shr, Low, Pow2;
    PowTable();
    LowMod(t, 32);
    LowShr(t, o, 32 - o);
    LowLow(Shr(t, o), 8, 32 - o);
  }

  lemma ValueLowWord(src: seq<word>)
    requires src != []
    ensures Value(src) % TWO32 == src[0]
  {
    var rest := Value(src[1..]);
    hide Value;
    ModAdd(src[0], rest);
  }

  lemma ModAdd(w: word, n: nat)
    ensures (w + TWO32 * n) % TWO32 == w
  {
  }

  /** Each byte in memory is eight bits of the number. */
  lemma ByteOfValue(src: seq<word>, k: nat)
    requires k < 4 * |src|
    ensures ByteAt(src, k) == Low(Shr(Value(src), 8 * k), 8)
  {
    hide Shr, Low, Pow2, Value;
    var j, o := k / 4, 8 * (k % 4);
    ValueShift(src, j);
    ShrShr(Value(src), 32 * j, o);
    assert 32 * j + o == 8 * k;
    ValueLowWord(src[j..]);
    LowWordByte(Value(src[j..]), src[j], o);
    LowMod(Shr(src[j], o), 8);
    PowTable();
  }

  /** The part of a field that one byte supplies. */
  lemma FieldOfByte(src: seq<word>, start: nat, bc: nat)
    requires start < 32 * |src| && bc <= 8 - start % 8
    ensures Low(Shr(ByteAt(src, start / 8), start % 8), bc) == Low(Shr(Value(src), start), bc)
  {
    hide Shr, Low, ByteAt;
    var k, bs := start / 8, start % 8;
    ByteOfValue(src, k);
    LowShr(Shr(Value(src), 8 * k), bs, 8 - bs);
    ShrShr(Value(src), 8 * k, bs);
    LowLow(Shr(Value(src), start), bc, 8 - bs);
  }

  lemma ShlTruncated(b: nat, shift: nat)
    requires shift < 32
    ensures Shl32(b, shift) == Shl(Low(b, 32 - shift), shift)
  {
    hide Low, Pow2, Shl;
    PowTable();
    ShlMul(b, shift);
    LowMod(Shl(b, shift), 32);
    LowShl(b, shift, 32 - shift);
  }

  /** One turn of the loop extends the field read so far by `bc` bits, whatever it leaves above them. */
  lemma Extend(v: nat, start0: nat, shift: nat, b: nat, dst: word, bc: nat)
    requires shift + bc <= 32 && shift < 32
    requires dst < Pow2(shift) && dst == Low(Shr(v, start0), shift)
    requires Low(b, bc) == Low(Shr(v, start0 + shift), bc)
    ensures Low(Or32(dst, Shl32(b, shift)), shift + bc) == Low(Shr(v, start0), shift + bc)
    ensures b < Pow2(bc) ==> Or32(dst, Shl32(b, shift)) < Pow2(shift + bc)
  {
    hide Shr, Low, Pow2, Shl, Or, Shl32;
    var c := Low(b, 32 - shift);
    ShlTruncated(b, shift);
    OrAbove(dst, c, shift);
    LowAbove(dst, c, shift, bc);
    LowLow(b, bc, 32 - shift);
    LowSplit(Shr(v, start0), shift, bc);
    ShrShr(v, start0, shift);
    if b < Pow2(bc) {
      PowMono(bc, 32 - shift);
      LowSmall(b, 32 - shift);
      LowSmall(b, bc);
      LowBound(Shr(v, start0), shift + bc);
      LowSplit(dst + Shl(c, shift), shift, bc);
    }
  }

  lemma {:induction false} ShrBound(b: nat, m: nat, n: nat)
    requires b < Pow2(m + n)
    ensures Shr(b, m) < Pow2(n)
  {
    if m > 0 {
      ShrBound(b / 2, m - 1, n);
    }
  }

  /** One turn of the loop, reading at bit `start0 + shift`. */
  lemma LoopStep(src: seq<word>, start0: nat, shift: nat, bc: nat, dst: word)
    requires start0 + shift < 32 * |src| && shift + bc <= 32 && shift < 32 && 0 < bc <= 8 - (start0 + shift) % 8
    requires dst < Pow2(shift) && Low(dst, shift) == Low(Shr(Value(src), start0), shift)
    ensures var from := start0 + shift;
            var next := Or32(dst, Shl32(Shr(ByteAt(src, from / 8), from % 8), shift));
            && Low(next, shift + bc) == Low(Shr(Value(src), start0), shift + bc)
            && (bc == 8 - from % 8 ==> next < Pow2(shift + bc))
  {
    hide Shr, Low, Pow2, Or32, Shl32, ByteAt, Value;
    var from := start0 + shift;
    var b := Shr(ByteAt(src, from / 8), from % 8);
    FieldOfByte(src, from, bc);
    LowSmall(dst, shift);
    ByteAtBound(src, from / 8);
    ShrBound(ByteAt(src, from / 8), from % 8, 8 - from % 8);
    Extend(Value(src), start0, shift, b, dst, bc);
  }

  /**
   The loop computes one quotient and one remainder of the whole number, for fields at any offset and across words,
   including those of 32 bits whose last byte reaches beyond the result.
   */
  method Extract(src: array<word>, start: int, len: int) returns (r: int)
    requires 0 <= start && 0 <= len <= 32 ==> start + len <= 32 * src.Length
    ensures start < 0 || len < 0 || len > 32 ==> r == 0
    ensures start >= 0 && 0 <= len <= 32 ==>
              var field := Quotient(Value(src[..]), start, len);
              field < TWO32 && r == ToInt32(field)
  {
    hide Shr, Low, Pow2, Or32, Shl32, ByteAt, Value, And, Quotient;
    if start < 0 || len < 0 || len > 32 {
      return 0;
    }
    PowTable();
    ghost var v := Value(src[..]);
    MaskValue(len);
    var mask: word := if len % 32 != 0 then Shr(0xffff_ffff, 32 - len % 32) else 0xffff_ffff;
    var dst: word := 0;
    var shift: nat, from: nat, left: nat := 0, start, len;
    NothingRead(Shr(v, start));
    while left > 0
      invariant shift == len - left && from == start + shift
      invariant Low(dst, shift) == Low(Shr(v, start), shift)
      invariant left > 0 ==> dst < Pow2(shift)
      invariant len == 0 ==> dst == 0
    {
      var bs := from % 8;
      var bc := 8 - bs;
      if bc > left {
        bc := left;
      }
      LoopStep(src[..], start, shift, bc, dst);
      dst := Or32(dst, Shl32(Shr(ByteAt(src[..], from / 8), bs), shift));
      shift := shift + bc;
      from := from + bc;
      left := left - bc;
    }
    Finish(v, start, len, dst, mask);
    dst := And(dst, mask);
    r := ToInt32(dst);
  }

  lemma Finish(v: nat, start: nat, len: nat, dst: word, mask: word)
    requires len <= 32 && Low(dst, len) == Low(Shr(v, start), len)
    requires if len == 0 then dst == 0 else mask == Pow2(len) - 1
    ensures And(dst, mask) == Quotient(v, start, len) < TWO32
  {
    hide Shr, Low, Pow2, And;
    PowTable();
    FieldDivMod(v, start, len);
    LowBound(Shr(v, start), len);
    PowMono(len, 32);
    if len == 0 {
      ZeroOperand(mask);
    } else {
      AndLow(dst, len);
    }
  }

  lemma {:induction false} ShrOnes(m: nat, n: nat)
    ensures Shr(Pow2(m + n) - 1, m) == Pow2(n) - 1
  {
    if m > 0 {
      ShrOnes(m - 1, n);
      assert (Pow2(m + n) - 1) / 2 == Pow2(m + n - 1) - 1;
    }
  }

  lemma MaskValue(len: nat)
    requires len <= 32
    ensures 0 < len < 32 ==> Shr(0xffff_ffff, 32 - len) == Pow2(len) - 1
    ensures len == 32 ==> Pow2(len) - 1 == 0xffff_ffff
    ensures Shr(0xffff_ffff, 32 - len % 32) <= 0xffff_ffff
  {
    hide Pow2, Shr;
    PowTable();
    ShrOnes(32 - len % 32, len % 32);
    PowMono(len % 32, 32);
  }

  lemma NothingRead(a: nat)
    ensures Low(a, 0) == 0 && Low(0, 0) == 0 && Pow2(0) == 1
  {
  }

  lemma ByteAtBound(src: seq<word>, k: nat)
    requires k < 4 * |src|
    ensures ByteAt(src, k) < Pow2(8)
  {
    PowTable();
  }
}
