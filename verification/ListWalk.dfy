/** The walk of `hvs_dump` over a well-formed list shows exactly the planes that were written. */
module ListWalk {
  import opened Bits
  import opened DisplayList

  /** The fields of a header with `n` words, scaler mode `s`, format `f` and the given flip and unity bits. */
  lemma HeaderFields(w: word, n: nat, flip: nat, s: nat, unity: nat, f: nat)
    requires n < 64 && flip < 2 && s < 4 && unity < 2 && f < 8
    requires w == 0x4000_6000 + 0x100_0000 * n + 0x1_0000 * flip + 0x120 * s + 0x10 * unity + f
    ensures Field(w, 31, 1) == 0 && Field(w, 30, 1) == 1 && Field(w, 24, 6) == n && Field(w, 16, 1) == flip
    ensures Field(w, 13, 2) == 3 && Field(w, 8, 3) == s && Field(w, 5, 3) == s && Field(w, 4, 1) == unity
    ensures Field(w, 0, 4) == f
  {
    hide Pow2, Low, Shr, Field;
    PowTable();
    var rest := 0x6000 + 0x120 * s + 0x10 * unity + f;
    FieldIs(w, 0, 0, w, 31, 1, 0x8000_0000, 2);
    FieldIs(w, 0, 1, w - 0x4000_0000, 30, 1, 0x4000_0000, 2);
    FieldIs(w, 1, n, 0x1_0000 * flip + rest, 24, 6, 0x100_0000, 64);
    FieldIs(w, 0x2000 + 0x80 * n, flip, rest, 16, 1, 0x1_0000, 2);
    FieldIs(w, 0x8000 + 0x200 * n + 2 * flip, 3, rest - 0x6000, 13, 2, 0x2000, 4);
    FieldIs(w, 0x8_000C + 0x2000 * n + 0x20 * flip, s, 0x20 * s + 0x10 * unity + f, 8, 3, 0x100, 8);
    FieldIs(w, 0x40_0060 + 0x1_0000 * n + 0x100 * flip + s, s, 0x10 * unity + f, 5, 3, 0x20, 8);
    FieldIs(w, 0x200_0300 + 0x8_0000 * n + 0x800 * flip + 9 * s, unity, f, 4, 1, 0x10, 2);
    FieldIs(w, 0x400_0600 + 0x10_0000 * n + 0x1000 * flip + 18 * s + unity, f, 0, 0, 4, 1, 0x10);
  }

  lemma HeaderOf(p: Plane)
    requires Drawable(p)
    ensures var w, scl := Header(p), if p.Unity? then 0 else ScalerMode(p.fb, p.width, p.height);
            && Field(w, 31, 1) == 0 && Field(w, 30, 1) == 1 && Field(w, 24, 6) == PlaneLen(p)
            && Field(w, 16, 1) == (if p.hflip then 1 else 0) && Field(w, 13, 2) == 3
            && Field(w, 8, 3) == scl && Field(w, 5, 3) == scl
            && Field(w, 4, 1) == (if p.Unity? then 1 else 0) && Field(w, 0, 4) == PixelFormat(p.fb.format)
  {
    hide Pow2, Low, Shr, Field, UnityHeader, OpenHeader, ClosedHeader, Drawable;
    var flip := if p.hflip then 1 else 0;
    match p
    case Unity(fb, _, _, hflip) =>
      UnityHeaderValue(fb, hflip);
      HeaderFields(Header(p), 7, flip, 0, 1, PixelFormat(fb.format));
    case Scaled(fb, _, _, hflip, width, height, _) =>
      OpenHeaderValue(fb, width, height, hflip);
      ClosedHeaderValue(OpenHeader(fb, width, height, hflip), PlaneLen(p));
      HeaderFields(Header(p), PlaneLen(p), flip, ScalerMode(fb, width, height), 0, PixelFormat(fb.format));
  }

  lemma Position0Fields(x: int, y: int)
    ensures Field(Position0(x, y), 0, 12) == x % 0x1000
    ensures Field(Position0(x, y), 12, 12) == y % 0x1000
    ensures Field(Position0(x, y), 31, 1) == 1
  {
    hide Pow2, Low, Shr, Field, Position0;
    PowTable();
    Position0Value(x, y);
    var u, v := x % 0x1000, y % 0x1000;
    FieldIs(Position0(x, y), v + 0xf_f000, u, 0, 0, 12, 1, 0x1000);
    FieldIs(Position0(x, y), 0xff, v, u, 12, 12, 0x1000, 0x1000);
    FieldIs(Position0(x, y), 0, 1, u + 0x1000 * v + 0x7f00_0000, 31, 1, 0x8000_0000, 2);
  }

  lemma Position2Fields(fb: Surface)
    ensures Field(Position2(fb), 0, 16) == fb.width % 0x1_0000
    ensures Field(Position2(fb), 16, 12) == fb.height % 0x1000
  {
    hide Pow2, Low, Shr, Field, Position2;
    PowTable();
    Position2Value(fb);
    var u, v := fb.width % 0x1_0000, fb.height % 0x1_0000;
    FieldIs(Position2(fb), v, u, 0, 0, 16, 1, 0x1_0000);
    FieldIs(Position2(fb), v / 0x1000, v % 0x1000, u, 16, 12, 0x1_0000, 0x1000);
  }

  /** Reading back one plane gives what was written, and its header is the only word the walk takes for one. */
  lemma DecodePlane(mem: seq<word>, at: nat, p: Plane)
    requires Drawable(p) && at + PlaneLen(p) <= |mem| && mem[at..at + PlaneLen(p)] == Words(p)
    ensures Field(mem[at], 31, 1) == 0 && Field(mem[at], 30, 1) == 1 && Field(mem[at], 24, 6) == PlaneLen(p)
    ensures ReadSpan(mem[at]) == PlaneLen(p)
    ensures Decode(mem, at) == EntryOf(p, at)
  {
    hide Low, Shr, Field, Header, Position0, Position1, Position2, ScalingWords, Or32, Pitch, Drawable;
    HeaderOf(p);
    Position0Fields(p.x, p.y);
    Position2Fields(p.fb);
    var n := PlaneLen(p);
    assert mem[at] == mem[at..at + n][0] == Header(p);
    forall j | 0 <= j < n - 1
      ensures mem[at + 1 + j] == Payload(p)[j]
    {
      assert mem[at + 1 + j] == mem[at..at + n][1 + j] == Words(p)[1 + j];
    }
    if p.Unity? {
      assert mem[at + 2] == Payload(p)[1] && mem[at + 4] == Payload(p)[3] && mem[at + 6] == Payload(p)[5];
    } else {
      assert mem[at + 2] == Payload(p)[1] && mem[at + 3] == Payload(p)[2];
      assert mem[at + 5] == Payload(p)[4] && mem[at + 7] == Payload(p)[6];
    }
    assert mem[at + 1] == Payload(p)[0];
  }

  /**
   Whatever the window, the walk of a written list shows the planes whose header the window reaches, in order and
   with the values written, and stops at its END word or at the end of the window.
   */
  lemma {:induction false} WalkShowsList(mem: seq<word>, at: nat, ps: seq<Plane>, end: nat)
    requires ListAt(mem, at, ps)
    ensures Walk(mem, at, end) == Expected(ps, at, end)
    decreases |ps|
  {
    hide Low, Shr, Field, Words, PlaneLen, Decode, EntryOf, ReadSpan, Drawable;
    var n := Len(ps);
    if at >= end {
    } else if ps == [] {
      assert mem[at] == mem[at..at + 1][0] == CONTROL_END;
      EndField();
    } else {
      var p, rest := ps[0], ps[1..];
      assert ps == [p] + rest;
      assert AllDrawable(rest);
      EncodeCons(p, rest);
      var m := PlaneLen(p);
      assert Encode(ps) + [CONTROL_END] == Words(p) + (Encode(rest) + [CONTROL_END]);
      SliceSplit(mem, at, m, n + 1 - m, Words(p), Encode(rest) + [CONTROL_END]);
      DecodePlane(mem, at, p);
      PlaneLenBounds(p);
      WalkShowsList(mem, at + m, rest, end);
    }
  }

  lemma PlaneLenBounds(p: Plane)
    ensures 7 <= PlaneLen(p) <= 14
  {
  }

  lemma EndField()
    ensures Field(CONTROL_END, 31, 1) == 1
  {
    hide Field, Pow2;
    PowTable();
    FieldIs(CONTROL_END, 0, 1, 0, 31, 1, 0x8000_0000, 2);
  }

  lemma SliceSplit(mem: seq<word>, at: nat, m: nat, n: nat, a: seq<word>, b: seq<word>)
    requires at + m + n <= |mem| && |a| == m && |b| == n
    requires mem[at..at + m + n] == a + b
    ensures mem[at..at + m] == a && mem[at + m..at + m + n] == b
  {
    assert mem[at..at + m] == mem[at..at + m + n][..m];
    assert mem[at + m..at + m + n] == mem[at..at + m + n][m..];
  }

  // What the walk of a whole list tells.

  function Offset(at: nat, ps: seq<Plane>, k: nat): nat
    requires k <= |ps|
  {
    at + Len(ps[..k])
  }

  /** The walk reaches the END word exactly when the window covers it. */
  lemma {:induction false} ExpectedStop(ps: seq<Plane>, at: nat, end: nat)
    ensures Expected(ps, at, end).stop == AtEnd(at + Len(ps)) <==> at + Len(ps) < end
    decreases |ps|
  {
    hide EntryOf, PlaneLen;
    if ps != [] && at < end {
      LenCons(ps);
      ExpectedStop(ps[1..], at + PlaneLen(ps[0]), end);
    }
  }

  /** A window that covers the list shows one entry a plane, each at its own header. */
  lemma {:induction false} ExpectedEntries(ps: seq<Plane>, at: nat, end: nat)
    requires at + Len(ps) < end
    ensures |Expected(ps, at, end).entries| == |ps|
    ensures forall k :: 0 <= k < |ps| ==> Expected(ps, at, end).entries[k] == EntryOf(ps[k], Offset(at, ps, k))
    decreases |ps|
  {
    hide EntryOf, PlaneLen, Offset, Len;
    if ps != [] {
      var p, rest := ps[0], ps[1..];
      LenCons(ps);
      OffsetNone(at, ps);
      ExpectedEntries(rest, at + PlaneLen(p), end);
      forall k | 0 < k < |ps|
        ensures Offset(at, ps, k) == Offset(at + PlaneLen(p), rest, k - 1)
      {
        OffsetCons(at, ps, k);
      }
    }
  }

  lemma OffsetNone(at: nat, ps: seq<Plane>)
    ensures Offset(at, ps, 0) == at
  {
  }

  lemma OffsetCons(at: nat, ps: seq<Plane>, k: nat)
    requires 0 < k <= |ps|
    ensures Offset(at, ps, k) == Offset(at + PlaneLen(ps[0]), ps[1..], k - 1)
  {
    hide PlaneLen, Len;
    LenCons(ps[..k]);
    assert ps[..k][1..] == ps[1..][..k - 1];
  }

  lemma LenCons(ps: seq<Plane>)
    requires ps != []
    ensures Len(ps) == PlaneLen(ps[0]) + Len(ps[1..])
  {
    hide PlaneLen;
    LenConcat(ps[..1], ps[1..]);
    assert ps == ps[..1] + ps[1..];
    assert ps[..1][..0] == [];
  }

  /** The scaled size sits in the fields of position word 1 exactly when it fits their twelve bits. */
  lemma ScaledSizeFits(width: word, height: word)
    ensures Field(Position1(width, height), 0, 12) == width && Field(Position1(width, height), 16, 12) == height
        <==> width < 0x1000 && height < 0x1000
  {
    hide Or, Pow2, Low, Shr, Shl;
    PowTable();
    LowBound(Shr(Position1(width, height), 0), 12);
    LowBound(Shr(Position1(width, height), 16), 12);
    if width < 0x1000 && height < 0x1000 {
      ShlAt(height, 16, 0x1_0000);
      OrInto(width, 0, width, height, 16, 16, 0x1_0000, 0x1_0000);
      FieldIs(Position1(width, height), 0x10 * height, width, 0, 0, 12, 1, 0x1000);
      FieldIs(Position1(width, height), 0, height, width, 16, 12, 0x1_0000, 0x1000);
    }
  }

  /** The dump reads position and size back exactly when they fit the fields it prints. */
  lemma EntryFits(p: Plane, at: nat)
    ensures EntryOf(p, at).x == p.x <==> 0 <= p.x < 0x1000
    ensures EntryOf(p, at).y == p.y <==> 0 <= p.y < 0x1000
    ensures EntryOf(p, at).width == p.fb.width <==> p.fb.width < 0x1_0000
    ensures EntryOf(p, at).height == p.fb.height <==> p.fb.height < 0x1000
    ensures EntryOf(p, at).pitch == p.fb.stride * p.fb.pixelsize <==> p.fb.stride * p.fb.pixelsize < TWO32
    ensures EntryOf(p, at).ptr == p.fb.ptr <==> p.fb.ptr >= if p.Unity? then 0xc000_0000 else 0x8000_0000
  {
    hide Or;
    PointerBits(p.fb.ptr);
  }

  /** The alias bits are added, the 30 address bits (31 for a scaled plane) are kept. */
  lemma PointerBits(ptr: word)
    ensures Or32(ptr, 0xc000_0000) == 0xc000_0000 + ptr % 0x4000_0000
    ensures Or32(ptr, 0x8000_0000) == 0x8000_0000 + ptr % 0x8000_0000
  {
    hide Or, And, Pow2;
    PowTable();
    OrPlusAnd(ptr, 0xc000_0000);
    AndAt(ptr, 0xc000_0000, 30, 2, 0x4000_0000, 4);
    OrPlusAnd(ptr, 0x8000_0000);
    AndAt(ptr, 0x8000_0000, 31, 1, 0x8000_0000, 2);
  }

  // What the words say, without the functions that build them.

  /** The scaler mode the header announces, and the words that follow because of it. */
  lemma ModeBits(p: Plane)
    requires p.Scaled? && Drawable(p)
    ensures var mode := ScalerMode(p.fb, p.width, p.height);
            && mode < 4
            && (mode % 2 == 1 <==> p.width < p.fb.width)
            && (mode / 2 == 1 <==> p.height < p.fb.height)
            && PlaneLen(p) == 9 + 2 * (mode % 2) + 3 * (mode / 2)
  {
  }

  /**
   The header of every plane, bit by bit. Of each three-bit scaler mode, the lowest bit says that the plane is shrunk
   across, the next one that it is shrunk down, and together they announce the words that follow: two and three.
   */
  lemma HeaderTells(p: Plane)
    requires Drawable(p)
    ensures var w := Words(p)[0];
            && Field(w, 31, 1) == 0 && Field(w, 30, 1) == 1
            && Field(w, 24, 6) == |Words(p)|
            && (Field(w, 16, 1) == 1 <==> p.hflip)
            && Field(w, 13, 2) == 3
            && (Field(w, 4, 1) == 1 <==> p.Unity?)
            && Field(w, 5, 3) == Field(w, 8, 3) < 4
            && (Field(w, 5, 3) % 2 == 1 <==> p.Scaled? && p.width < p.fb.width)
            && (Field(w, 5, 3) / 2 == 1 <==> p.Scaled? && p.height < p.fb.height)
            && (p.Unity? ==> |Words(p)| == 7)
            && (p.Scaled? ==> |Words(p)| == 9 + 2 * (Field(w, 5, 3) % 2) + 3 * (Field(w, 5, 3) / 2))
    ensures Field(Words(p)[0], 0, 4) == match p.fb.format
                                        case Rgb565 => 4
                                        case Rgb332 => 0
                                        case Argb8888 => 7
                                        case Rgbx8888 => 7
                                        case OtherFormat => 0
  {
    hide Field, Header, Payload, ScalerMode, Drawable, PlaneLen;
    HeaderOf(p);
    if p.Scaled? {
      ModeBits(p);
    } else {
      UnityLen(p);
    }
  }

  lemma UnityLen(p: Plane)
    requires p.Unity?
    ensures PlaneLen(p) == 7
  {
  }

  /** The words of every plane up to the scaling words, as numbers, each at its place. */
  lemma WordsTell(p: Plane)
    requires Drawable(p)
    ensures var at := if p.Unity? then 2 else 3;
            && Words(p)[1] == 0xff00_0000 + p.y % 0x1000 * 0x1000 + p.x % 0x1000
            && Words(p)[at] == p.fb.height % 0x1_0000 * 0x1_0000 + p.fb.width % 0x1_0000
            && Words(p)[at + 1] == Words(p)[at + 3] == 0xdead_beef
            && Words(p)[at + 2] == (if p.Unity? then 0xc000_0000 + p.fb.ptr % 0x4000_0000
                                    else 0x8000_0000 + p.fb.ptr % 0x8000_0000)
            && Words(p)[at + 4] == p.fb.stride * p.fb.pixelsize % TWO32
    ensures p.Scaled? ==> Words(p)[8] == p.layer * 720 % TWO32
    ensures p.Scaled? && p.width < 0x1_0000 && p.height < 0x1_0000 ==> Words(p)[2] == p.height * 0x1_0000 + p.width
  {
    hide Header, Position0, Position1, Position2, ScalingWords, Or32, Drawable;
    Position0Value(p.x, p.y);
    Position2Value(p.fb);
    PointerBits(p.fb.ptr);
    var ws := Payload(p);
    assert forall k :: 1 <= k < |Words(p)| ==> Words(p)[k] == ws[k - 1];
    if p.Scaled? {
      if p.width < 0x1_0000 && p.height < 0x1_0000 {
        Position1Value(p.width, p.height);
      }
    }
  }

  lemma Position1Value(width: word, height: word)
    requires width < 0x1_0000 && height < 0x1_0000
    ensures Position1(width, height) == height * 0x1_0000 + width
  {
    hide Or, Pow2, Shl;
    PowTable();
    ShlAt(height, 16, 0x1_0000);
    OrInto(width, 0, width, height, 16, 16, 0x1_0000, 0x1_0000);
  }

  // The walk over any memory.

  /** Nothing from `lo` on, before `hi`, is a header or an END word. */
  predicate Quiet(mem: seq<word>, lo: int, hi: int)
  {
    forall j :: lo <= j < hi && 0 <= j < |mem| ==> Field(mem[j], 31, 1) == 0 && Field(mem[j], 30, 1) == 0
  }

  function After(e: Entry): nat
  {
    e.at + if e.words > 1 then e.words else 1
  }

  /** Where the walk goes on after its first `k` entries. */
  function Resume(d: Dump, i: nat, k: nat): nat
    requires k <= |d.entries|
  {
    if k == 0 then i else After(d.entries[k - 1])
  }

  /**
   Over any memory, also one that no driver wrote: the entries are headers in the window, each read from its own words
   and found without leaving one out, and the stop is the first END word met, if one is.
   */
  ghost predicate Finds(mem: seq<word>, i: nat, end: nat, d: Dump)
  {
    && (forall k :: 0 <= k < |d.entries| ==> Found(mem, Resume(d, i, k), end, d.entries[k]))
    && Stopped(mem, Resume(d, i, |d.entries|), end, d.stop)
  }

  /** Coming from `last`, the first word that is not quiet is the header of this entry. */
  ghost predicate Found(mem: seq<word>, last: nat, end: nat, e: Entry)
  {
    && last <= e.at < end && e.at < |mem| && Quiet(mem, last, e.at)
    && Field(mem[e.at], 31, 1) == 0 && Field(mem[e.at], 30, 1) == 1
    && e.at + ReadSpan(mem[e.at]) <= |mem| && e == Decode(mem, e.at)
  }

  /** Coming from `last`, the first word that is not quiet, or the end of the window or of the memory, is this stop. */
  ghost predicate Stopped(mem: seq<word>, last: nat, end: nat, stop: Stop)
  {
    match stop
    case AtEnd(slot) => last <= slot < end && slot < |mem| && Field(mem[slot], 31, 1) == 1 && Quiet(mem, last, slot)
    case WindowDone => (last >= end || end <= |mem|) && Quiet(mem, last, end)
    case OffMemory => exists j :: last <= j < end && Quiet(mem, last, j) && Outside(mem, j)
  }

  /** A walk that comes to `j` has to read past the memory. */
  predicate Outside(mem: seq<word>, j: nat)
  {
    j < |mem| ==>
      Field(mem[j], 31, 1) == 0 && Field(mem[j], 30, 1) == 1 && j + ReadSpan(mem[j]) > |mem|
  }

  lemma {:induction false} WalkFinds(mem: seq<word>, i: nat, end: nat)
    ensures Finds(mem, i, end, Walk(mem, i, end))
    decreases end - i
  {
    hide Field, Decode, ReadSpan, Finds, After;
    if i < |mem| {
      OneBit(mem[i]);
    }
    if i >= end || i >= |mem| || Field(mem[i], 31, 1) == 1 {
      FindsNone(mem, i, end);
    } else if Field(mem[i], 30, 1) != 1 {
      WalkFinds(mem, i + 1, end);
      FindsLater(mem, i, end, Walk(mem, i + 1, end));
    } else if i + ReadSpan(mem[i]) > |mem| {
      FindsNone(mem, i, end);
    } else {
      var words := Field(mem[i], 24, 6);
      var next := i + if words > 1 then words else 1;
      WalkFinds(mem, next, end);
      DecodeAt(mem, i);
      QuietNone(mem, i);
      FindsFirst(mem, i, end, Decode(mem, i), Walk(mem, next, end));
    }
  }

  lemma OneBit(w: word)
    ensures Field(w, 31, 1) < 2 && Field(w, 30, 1) < 2
  {
    BitBound(w, 31);
    BitBound(w, 30);
  }

  lemma DecodeAt(mem: seq<word>, i: nat)
    requires i < |mem| && i + ReadSpan(mem[i]) <= |mem|
    ensures Decode(mem, i).at == i
    ensures After(Decode(mem, i)) == i + if Field(mem[i], 24, 6) > 1 then Field(mem[i], 24, 6) else 1
  {
  }

  lemma FindsNone(mem: seq<word>, i: nat, end: nat)
    requires Walk(mem, i, end).entries == []
    requires i >= end || i >= |mem| || Field(mem[i], 31, 1) == 1
             || (Field(mem[i], 31, 1) == 0 && Field(mem[i], 30, 1) == 1 && i + ReadSpan(mem[i]) > |mem|)
    ensures Finds(mem, i, end, Walk(mem, i, end))
  {
    hide Field, ReadSpan, Decode;
    assert Quiet(mem, i, i);
    if i < end {
      assert Outside(mem, i) || Walk(mem, i, end).stop == AtEnd(i);
    }
  }

  lemma FindsLater(mem: seq<word>, i: nat, end: nat, d: Dump)
    requires i < |mem| && Field(mem[i], 31, 1) == 0 && Field(mem[i], 30, 1) == 0
    requires i < end && Finds(mem, i + 1, end, d)
    ensures Finds(mem, i, end, d)
  {
    hide Found, Stopped, Quiet;
    if d.entries == [] {
      StoppedLater(mem, i, end, d.stop);
    } else {
      FoundLater(mem, i, end, d.entries[0]);
    }
  }

  lemma FoundLater(mem: seq<word>, i: nat, end: nat, e: Entry)
    requires i < |mem| && Field(mem[i], 31, 1) == 0 && Field(mem[i], 30, 1) == 0
    requires Found(mem, i + 1, end, e)
    ensures Found(mem, i, end, e)
  {
    hide Field, Decode, ReadSpan, Quiet;
    QuietLater(mem, i, e.at);
  }

  lemma StoppedLater(mem: seq<word>, i: nat, end: nat, stop: Stop)
    requires i < |mem| && Field(mem[i], 31, 1) == 0 && Field(mem[i], 30, 1) == 0
    requires i < end && Stopped(mem, i + 1, end, stop)
    ensures Stopped(mem, i, end, stop)
  {
    hide Field, Quiet, Outside;
    match stop
    case AtEnd(slot) =>
      QuietLater(mem, i, slot);
    case WindowDone =>
      QuietLater(mem, i, end);
    case OffMemory =>
      var j :| i + 1 <= j < end && Quiet(mem, i + 1, j) && Outside(mem, j);
      QuietLater(mem, i, j);
  }

  lemma QuietLater(mem: seq<word>, i: nat, hi: int)
    requires i < |mem| && Field(mem[i], 31, 1) == 0 && Field(mem[i], 30, 1) == 0
    requires Quiet(mem, i + 1, hi)
    ensures Quiet(mem, i, hi)
  {
    hide Field;
  }

  lemma FindsFirst(mem: seq<word>, i: nat, end: nat, e: Entry, rest: Dump)
    requires Found(mem, i, end, e) && Finds(mem, After(e), end, rest)
    ensures Finds(mem, i, end, Dump([e] + rest.entries, rest.stop))
  {
    hide Found, Stopped, After;
    var d := Dump([e] + rest.entries, rest.stop);
    forall k | 0 < k < |d.entries|
      ensures d.entries[k] == rest.entries[k - 1]
      ensures Resume(d, i, k) == Resume(rest, After(e), k - 1)
    {
    }
  }

  lemma QuietNone(mem: seq<word>, i: nat)
    ensures Quiet(mem, i, i)
  {
  }

  // The shrink step.

  /**
   The 16.16 step of `write_tpz` recovers the requested size exactly when the source is below 65536: above, the
   32-bit product wraps. Its reciprocal is the largest that does not overflow 32 bits, and the step survives
   the shift by 8 exactly when the source is less than 256 times the destination.
   */
  lemma TpzRecoversSize(source: word, dest: word)
    requires 0 < dest < source && TpzDefined(source, dest)
    ensures 0x1_0000 * source / TpzScale(source, dest) == dest <==> source < 0x1_0000
    ensures var scale, recip := TpzScale(source, dest), TpzWords(source, dest)[1];
            TWO32 - 1 - scale < scale * recip <= TWO32 - 1
    ensures source < 0x1_0000 ==>
              (TpzWords(source, dest)[0] / 0x100 == TpzScale(source, dest) <==> source < 0x100 * dest)
  {
    hide Pow2;
    var s, scale := 0x1_0000 * source, TpzScale(source, dest);
    var wrapped := s % TWO32;
    DivBounds(wrapped, dest);
    DivBounds(s, scale);
    DivBounds(TWO32 - 1, scale);
    PowTable();
    ShlAt(scale, 8, 0x100);
    if source < 0x1_0000 {
      assert wrapped == s;
      assert scale >= 0x1_0000 by { QuotientAtLeast(s, dest, 0x1_0000); }
      DivUnique(s, scale, dest, s - scale * dest);
      StepFits(source, dest);
    } else {
      assert wrapped <= s - TWO32;
      WrappedTooLarge(s, wrapped, scale, dest);
    }
  }

  /**
   The size on the screen can be recovered from the scaling words of each direction in which the plane is shrunk, and
   those of the second direction come after those of the first.
   */
  lemma StepsGiveScreenSize(p: Plane)
    requires p.Scaled? && Drawable(p) && p.fb.width < 0x1_0000 && p.fb.height < 0x1_0000
    requires p.fb.width < 0x100 * p.width && p.fb.height < 0x100 * p.height
    ensures p.width < p.fb.width ==>
              Words(p)[9] / 0x100 > 0 && 0x1_0000 * p.fb.width / (Words(p)[9] / 0x100) == p.width
    ensures p.height < p.fb.height ==>
              var at := if p.width < p.fb.width then 11 else 9;
              && Words(p)[at] / 0x100 > 0 && 0x1_0000 * p.fb.height / (Words(p)[at] / 0x100) == p.height
              && |Words(p)| == at + 3 && Words(p)[at + 2] == 0xdead_beef
  {
    hide TpzScale, TpzWords, ScaledPayload, Header;
    if p.width < p.fb.width {
      TpzRecoversSize(p.fb.width, p.width);
      TpzTwo(p.fb.width, p.width);
      var across := TpzWords(p.fb.width, p.width);
      assert Words(p)[9] == Payload(p)[8] == ScalingWords(p.fb, p.width, p.height)[0] == across[0];
    }
    if p.height < p.fb.height {
      TpzRecoversSize(p.fb.height, p.height);
      TpzTwo(p.fb.height, p.height);
      var down, o := TpzWords(p.fb.height, p.height), if p.width < p.fb.width then 2 else 0;
      var ws := ScalingWords(p.fb, p.width, p.height);
      assert ws == ws[..o] + (down + [DUMMY]);
      assert Words(p)[9 + o] == Payload(p)[8 + o] == ws[o] == down[0];
      assert Words(p)[11 + o] == Payload(p)[10 + o] == ws[o + 2] == DUMMY;
    }
  }

  lemma TpzTwo(source: word, dest: word)
    requires TpzDefined(source, dest)
    ensures |TpzWords(source, dest)| == 2 && TpzScale(source, dest) > 0
  {
  }

  lemma DivBounds(a: nat, d: nat)
    requires d > 0
    ensures d * (a / d) <= a < d * (a / d) + d
  {
  }

  lemma QuotientAtLeast(a: nat, d: nat, k: nat)
    requires d > 0 && a >= d * k
    ensures a / d >= k
  {
    if a / d < k {
      MulAtLeast(d, k - a / d);
      MulSub(d, k, a / d);
      DivBounds(a, d);
    }
  }

  lemma StepFits(source: word, dest: word)
    requires 0 < dest < source < 0x1_0000
    ensures 0x1_0000 * source / dest < 0x100_0000 <==> source < 0x100 * dest
  {
    var s := 0x1_0000 * source;
    DivBounds(s, dest);
    if source >= 0x100 * dest {
      QuotientAtLeast(s, dest, 0x100_0000);
    } else if s / dest >= 0x100_0000 {
      MulSub(dest, s / dest, 0x100_0000);
      MulNonneg(dest, s / dest - 0x100_0000);
    }
  }

  lemma WrappedTooLarge(s: nat, wrapped: nat, scale: nat, dest: nat)
    requires scale > 0 && dest > 0 && scale * dest <= wrapped <= s - TWO32 && wrapped < TWO32
    ensures s / scale != dest
  {
    QuotientAtLeast(s, scale, 2 * dest);
  }
}
