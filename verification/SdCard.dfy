/** Capacity and sector addressing of the SD card driver, from the card-specific data register (CSD). */
module SdCard {
  import opened Bits
  import opened Bitfield

  const BLOCK_SIZE := 512
  const TWO64 := 0x1_0000_0000_0000_0000

  // The CSD as sections 5.3.2 and 5.3.3 of the SD Physical Layer Simplified Specification lay it out.

  function CsdVersion(csd: nat): nat { Quotient(csd, 126, 2) }

  function CSize(csd: nat): nat { Quotient(csd, 62, 12) }

  function CSizeMult(csd: nat): nat { Quotient(csd, 47, 3) }

  function ReadBlLen(csd: nat): nat { Quotient(csd, 80, 4) }

  function CSizeV2(csd: nat): nat { Quotient(csd, 48, 22) }

  /** Section 5.3.2: BLOCKNR * BLOCK_LEN, where BLOCKNR = (C_SIZE + 1) * 2^(C_SIZE_MULT + 2). */
  function StandardCapacity(csd: nat): nat
  {
    MulNonneg(CSize(csd) + 1, Pow2(CSizeMult(csd) + 2));
    MulNonneg((CSize(csd) + 1) * Pow2(CSizeMult(csd) + 2), Pow2(ReadBlLen(csd)));
    (CSize(csd) + 1) * Pow2(CSizeMult(csd) + 2) * Pow2(ReadBlLen(csd))
  }

  /** Section 5.3.3: (C_SIZE + 1) * 512 KiB. */
  function HighCapacity(csd: nat): nat
  {
    (CSizeV2(csd) + 1) * 512 * 1024
  }

  /** `int << n`, two's complement. */
  function ShlInt(a: nat, n: nat): int
  {
    ToInt32(Shl32(a, n))
  }

  /** `int * uint64_t`: the signed operand is sign-extended. */
  function MulU64(a: int, b: nat): nat
  {
    (a % TWO64) * b % TWO64
  }

  class SdHost {
    const csd: array<word>
    var isHighCapacity: bool
    var capacityBytes: nat

    constructor (csd: array<word>, isHighCapacity: bool)
      ensures this.csd == csd && this.isHighCapacity == isHighCapacity && capacityBytes == 0
    {
      this.csd := csd;
      this.isHighCapacity := isHighCapacity;
      capacityBytes := 0;
    }

    /** The capacity computation of `init_card`; false for an unknown CSD version. */
    method ComputeCapacity() returns (known: bool)
      requires csd.Length == 4
      modifies this`capacityBytes
      ensures var v := Value(csd[..]);
              && known == (CsdVersion(v) <= 1)
              && (CsdVersion(v) == 0 ==> capacityBytes == StandardCapacity(v))
              && (CsdVersion(v) == 1 ==> (capacityBytes == HighCapacity(v) <==> CSizeV2(v) + 1 < 0x20_0000))
              && (CsdVersion(v) > 1 ==> capacityBytes == old(capacityBytes))
    {
      hide Quotient, ToInt32, Pow2, Value, ShlInt, MulU64;
      ghost var v := Value(csd[..]);
      FieldRanges(v);
      var version := Extract(csd, 126, 2);
      if version == 1 {
        var cSize := Extract(csd, 48, 22);
        capacityBytes := MulU64(ShlInt(cSize + 1, 10), 512);
        HighCapacityExact(v);
        known := true;
      } else if version == 0 {
        var cSize := Extract(csd, 62, 12);
        var cSizeMult := Extract(csd, 47, 3);
        var readBlLen := Extract(csd, 80, 4);
        capacityBytes := MulU64(ShlInt(cSize + 1, cSizeMult + 2), Pow2(readBlLen));
        StandardCapacityExact(v);
        known := true;
      } else {
        known := false;
      }
    }

    /** The block count registered for the card. */
    function Blocks(): nat
      reads this`capacityBytes
    {
      capacityBytes / BLOCK_SIZE
    }

    /** The command argument `real_read_block` sends for a sector. */
    function Address(sector: word): word
      reads this`isHighCapacity
    {
      if isHighCapacity then sector else Shl32(sector, 9)
    }

    /** Where on the card a read with this argument starts: cards count in blocks or in bytes. */
    function CardPosition(argument: word): nat
      reads this`isHighCapacity
    {
      if isHighCapacity then 512 * argument else argument
    }

    /** A sector is read from its own 512 bytes of the card. */
    predicate ReadsItself(sector: word)
      reads this`isHighCapacity, this`capacityBytes
    {
      CardPosition(Address(sector)) == 512 * sector && CardPosition(Address(sector)) + 512 <= capacityBytes
    }

    lemma AddressValue(sector: word)
      ensures Address(sector) == if isHighCapacity then sector else 512 * sector % TWO32
    {
      hide Pow2;
      PowTable();
      ShlAt(sector, 9, 0x200);
    }

    /** A sector below 2^23 is read from its own place on either kind of card, others only on a block-addressed one. */
    lemma SectorPlace(sector: word)
      ensures CardPosition(Address(sector)) == 512 * sector <==> isHighCapacity || sector < 0x80_0000
    {
      hide Address;
      AddressValue(sector);
    }

    /**
     Every sector below the block count is read from its own place on the card, and from inside it, exactly when the
     card is block-addressed or has at most 2^23 blocks (4 GiB); beyond, byte addresses wrap.
     */
    lemma SectorsInsideCard()
      ensures (forall sector: word :: sector < Blocks() ==> ReadsItself(sector))
         <==> isHighCapacity || Blocks() <= 0x80_0000
    {
      hide Address, CardPosition;
      if !isHighCapacity && Blocks() > 0x80_0000 {
        SectorPlace(0x80_0000);
        assert !ReadsItself(0x80_0000);
      } else {
        forall sector: word | sector < Blocks()
          ensures ReadsItself(sector)
        {
          SectorPlace(sector);
        }
      }
    }
  }

  /** Both capacities as products with one power of two: 2^(C_SIZE_MULT + READ_BL_LEN + 2) and 2^19. */
  lemma CapacityFormulas(csd: nat)
    ensures StandardCapacity(csd) == 4 * (CSize(csd) + 1) * Pow2(CSizeMult(csd) + ReadBlLen(csd))
    ensures HighCapacity(csd) == 0x8_0000 * (CSizeV2(csd) + 1)
  {
    hide Quotient, Pow2, CSize, CSizeMult, ReadBlLen, CSizeV2;
    var c, m, b := CSize(csd) + 1, CSizeMult(csd), ReadBlLen(csd);
    PowTable();
    PowAdd(2, m);
    PowAdd(m, b);
    assert c * (4 * Pow2(m)) * Pow2(b) == 4 * c * (Pow2(m) * Pow2(b));
  }

  // Layout.

  /** Where the fields sit in the four words of the response, two of them across a word boundary. */
  lemma CsdFields(w: seq<word>)
    requires |w| == 4
    ensures var csd := Value(w);
            && CsdVersion(csd) == w[3] / 0x4000_0000
            && CSize(csd) == w[2] % 0x400 * 4 + w[1] / 0x4000_0000
            && CSizeMult(csd) == w[1] / 0x8000 % 8
            && ReadBlLen(csd) == w[2] / 0x1_0000 % 16
            && CSizeV2(csd) == w[2] % 0x40 * 0x1_0000 + w[1] / 0x1_0000
  {
    hide Quotient, Value, Pow2;
    PowTable();
    QuotientInWord(w, 3, 30, 2);
    QuotientInWord(w, 1, 30, 12);
    QuotientInWord(w, 1, 15, 3);
    QuotientInWord(w, 2, 16, 4);
    QuotientInWord(w, 1, 16, 22);
    WordsValue(w);
    QuotientIs(Value(w[3..]), 30, 2, 0x4000_0000, 4);
    QuotientIs(Value(w[1..]), 30, 12, 0x4000_0000, 0x1000);
    QuotientIs(Value(w[1..]), 15, 3, 0x8000, 8);
    QuotientIs(Value(w[2..]), 16, 4, 0x1_0000, 16);
    QuotientIs(Value(w[1..]), 16, 22, 0x1_0000, 0x40_0000);
    AcrossWords(w[1], w[2], w[3]);
  }

  lemma WordsValue(w: seq<word>)
    requires |w| == 4
    ensures Value(w[3..]) == w[3] && Value(w[2..]) == w[2] + TWO32 * w[3]
    ensures Value(w[1..]) == w[1] + TWO32 * (w[2] + TWO32 * w[3])
  {
    assert w[1..][1..] == w[2..] && w[2..][1..] == w[3..] && w[3..][1..] == [];
  }

  lemma AcrossWords(w1: word, w2: word, w3: word)
    ensures w3 / 0x4000_0000 % 4 == w3 / 0x4000_0000
    ensures (w1 + TWO32 * (w2 + TWO32 * w3)) / 0x4000_0000 % 0x1000 == w2 % 0x400 * 4 + w1 / 0x4000_0000
    ensures (w1 + TWO32 * (w2 + TWO32 * w3)) / 0x8000 % 8 == w1 / 0x8000 % 8
    ensures (w2 + TWO32 * w3) / 0x1_0000 % 16 == w2 / 0x1_0000 % 16
    ensures (w1 + TWO32 * (w2 + TWO32 * w3)) / 0x1_0000 % 0x40_0000 == w2 % 0x40 * 0x1_0000 + w1 / 0x1_0000
  {
    var rest: nat := w2 + TWO32 * w3;
    UpperPart(w1, rest, 0x4000_0000, 4, 0x400);
    UpperPart(w2, w3, 1, TWO32, 1);
    UpperPart(w1, rest, 0x8000, 0x2_0000, 1);
    UpperPart(w2, w3, 0x1_0000, 0x1_0000, 1);
    UpperPart(w1, rest, 0x1_0000, 0x1_0000, 0x40);
    LowerWord(w2, w3);
    NoCarry(w1 / 0x8000, rest);
    NoCarry(w2 / 0x1_0000, w3);
  }

  lemma LowerWord(w2: word, w3: word)
    ensures (w2 + TWO32 * w3) % 0x400 == w2 % 0x400 && (w2 + TWO32 * w3) % 0x40 == w2 % 0x40
  {
    DivUnique(w2 + TWO32 * w3, 0x400, w2 / 0x400 + 0x40_0000 * w3, w2 % 0x400);
    DivUnique(w2 + TWO32 * w3, 0x40, w2 / 0x40 + 0x400_0000 * w3, w2 % 0x40);
  }

  lemma NoCarry(a: nat, b: nat)
    ensures (a + 0x2_0000 * b) % 8 == a % 8 && (a + 0x1_0000 * b) % 16 == a % 16
  {
    DivUnique(a + 0x2_0000 * b, 8, a / 8 + 0x4000 * b, a % 8);
    DivUnique(a + 0x1_0000 * b, 16, a / 16 + 0x1000 * b, a % 16);
  }

  /** Division by `d`, where `d * m` is 2^32, splits at the word boundary; so does a remainder by a multiple of `m`. */
  lemma UpperPart(w: word, rest: nat, d: nat, m: nat, k: nat)
    requires d > 0 && m > 0 && d * m == TWO32 && k > 0
    ensures (w + TWO32 * rest) / d == w / d + m * rest
    ensures m * k > 0 && (w + TWO32 * rest) / d % (m * k) == rest % k * m + w / d
  {
    UpperQuotient(w, rest, d, m);
    UpperRemainder(w / d, rest, m, k);
  }

  lemma UpperQuotient(w: word, rest: nat, d: nat, m: nat)
    requires d > 0 && d * m == TWO32
    ensures w / d < m && (w + TWO32 * rest) / d == w / d + m * rest
  {
    DivBounds(w, d);
    if w / d >= m {
      MulSub(d, w / d, m);
      MulNonneg(d, w / d - m);
    }
    assert TWO32 * rest == d * (m * rest);
    DivUnique(w + TWO32 * rest, d, w / d + m * rest, w % d);
  }

  lemma DivBounds(w: nat, d: nat)
    requires d > 0
    ensures w == d * (w / d) + w % d
  {
  }

  lemma UpperRemainder(a: nat, rest: nat, m: nat, k: nat)
    requires a < m && k > 0
    ensures m * k > 0 && (a + m * rest) % (m * k) == rest % k * m + a
  {
    MulAtLeast(m, k);
    var q, r := rest / k, rest % k;
    DivBounds(rest, k);
    assert m * rest == m * k * q + m * r;
    MulSub(m, k, r);
    MulAtLeast(m, k - r);
    MulNonneg(m, r);
    DivUnique(a + m * rest, m * k, q, m * r + a);
  }

  lemma QuotientIs(v: nat, o: nat, len: nat, p: nat, q: nat)
    requires p == Pow2(o) && q == Pow2(len)
    ensures Quotient(v, o, len) == v / p % q
  {
  }

  lemma QuotientInWord(w: seq<word>, j: nat, o: nat, len: nat)
    requires j <= |w|
    ensures Quotient(Value(w), 32 * j + o, len) == Quotient(Value(w[j..]), o, len)
  {
    hide Pow2, Value, Low, Shr;
    ValueShift(w, j);
    ShrShr(Value(w), 32 * j, o);
    FieldDivMod(Value(w), 32 * j + o, len);
    FieldDivMod(Value(w[j..]), o, len);
  }

  // Ranges and exactness.

  lemma FieldRanges(csd: nat)
    ensures CsdVersion(csd) < 4 && CSize(csd) < 0x1000 && CSizeMult(csd) < 8 && ReadBlLen(csd) < 0x10
    ensures CSizeV2(csd) < 0x40_0000
    ensures forall x :: 0 <= x < 0x40_0000 ==> ToInt32(x) == x
  {
    hide Pow2;
    PowTable();
    QuotientBound(csd, 126, 2);
    QuotientBound(csd, 62, 12);
    QuotientBound(csd, 47, 3);
    QuotientBound(csd, 80, 4);
    QuotientBound(csd, 48, 22);
  }

  lemma QuotientBound(v: nat, start: nat, len: nat)
    ensures Quotient(v, start, len) < Pow2(len)
  {
  }

  /** The 32-bit shift keeps the block count only while it stays below 2^31. */
  lemma HighCapacityExact(csd: nat)
    ensures MulU64(ShlInt(CSizeV2(csd) + 1, 10), 512) == HighCapacity(csd) <==> CSizeV2(csd) + 1 < 0x20_0000
  {
    hide Quotient, Pow2, CSizeV2;
    var c := CSizeV2(csd) + 1;
    assert c <= 0x40_0000 by { FieldRanges(csd); }
    PowTable();
    ShlAt(c, 10, 0x400);
  }

  lemma StandardCapacityExact(csd: nat)
    ensures MulU64(ShlInt(CSize(csd) + 1, CSizeMult(csd) + 2), Pow2(ReadBlLen(csd))) == StandardCapacity(csd)
  {
    hide Quotient, Pow2, CSize, CSizeMult, ReadBlLen, MulU64, ToInt32;
    FieldRanges(csd);
    PowTable();
    PowMono(CSizeMult(csd) + 2, 9);
    PowMono(ReadBlLen(csd), 15);
    NoOverflow(CSize(csd) + 1, Pow2(CSizeMult(csd) + 2), Pow2(ReadBlLen(csd)));
  }

  lemma NoOverflow(c: nat, m: nat, b: nat)
    requires c <= 0x1000 && m <= 0x200 && b <= 0x8000
    ensures c * m * b >= 0 && MulU64(ToInt32(c * m % TWO32), b) == c * m * b
  {
    ProductBound(c, m, 0x1000, 0x200);
    ProductBound(c * m, b, 0x20_0000, 0x8000);
  }

  lemma ProductBound(x: nat, y: nat, a: nat, b: nat)
    requires x <= a && y <= b
    ensures 0 <= x * y <= a * b
  {
    MulSub(a, b, y);
    MulSub(y, a, x);
    MulNonneg(a, b - y);
    MulNonneg(y, a - x);
    MulNonneg(x, y);
  }

  /** With the block lengths the standard allows, no byte of the card is lost by counting in 512-byte blocks. */
  lemma BlocksCoverCard(csd: nat)
    requires ReadBlLen(csd) >= 9
    ensures StandardCapacity(csd) / BLOCK_SIZE * BLOCK_SIZE == StandardCapacity(csd)
  {
    hide Quotient, Pow2, CSize, CSizeMult, ReadBlLen;
    var n, k := (CSize(csd) + 1) * Pow2(CSizeMult(csd) + 2), ReadBlLen(csd) - 9;
    PowTable();
    PowAdd(k, 9);
    assert n * (Pow2(k) * 512) == (n * Pow2(k)) * 512;
    DivUnique((n * Pow2(k)) * 512, 512, n * Pow2(k), 0);
  }
}
