/**
 The format of an HVS display list: the words of a plane, the walk that `hvs_dump` makes over a list,
 and the effect of the stores that build one.
 */
module DisplayList {
  import opened Bits

  const MEMORY_WORDS := 4096
  const CONTROL_END: word := 0x8000_0000
  const CONTROL_VALID: word := 0x4000_0000
  const DUMMY: word := 0xDEAD_BEEF

  datatype GfxFormat = Rgb565 | Rgb332 | Argb8888 | Rgbx8888 | OtherFormat

  datatype Surface = Surface(width: word, height: word, stride: word, pixelsize: word, ptr: word, format: GfxFormat)

  /** One call of `hvs_add_plane` or of `hvs_add_plane_scaled`; `layer` is `scaled_layer_count` at the call. */
  datatype Plane =
    | Unity(fb: Surface, x: int, y: int, hflip: bool)
    | Scaled(fb: Surface, x: int, y: int, hflip: bool, width: word, height: word, layer: nat)

  function PixelFormat(f: GfxFormat): (r: word)
  {
    match f
    case Rgb565 => 4
    case Rgb332 => 0
    case Argb8888 => 7
    case Rgbx8888 => 7
    case OtherFormat => 0
  }

  // Words of a plane.

  function ControlWords(n: nat): word
  {
    Shl32(n % 64, 24)
  }

  function HflipBit(hflip: bool): word
  {
    if hflip then 0x1_0000 else 0
  }

  function UnityHeader(fb: Surface, hflip: bool): word
  {
    Or32(Or32(Or32(Or32(Or32(CONTROL_VALID, ControlWords(7)), Shl32(3, 13)), HflipBit(hflip)), 0x10),
         PixelFormat(fb.format))
  }

  function Position0(x: int, y: int): word
  {
    Or32(Or32(x % 0x1000, Shl32(y % 0x1000, 12)), Shl32(0xff, 24))
  }

  function Position1(width: word, height: word): word
  {
    Or32(width, Shl32(height, 16))
  }

  function Position2(fb: Surface): word
  {
    Or32(Shl32(fb.height % 0x1_0000, 16), fb.width % 0x1_0000)
  }

  function Pitch(fb: Surface): word
  {
    fb.stride * fb.pixelsize % TWO32
  }

  /** SCALER_CTL0_SCL: horizontal, then vertical, TPZ (shrink) or PPF (enlarge). */
  function ScalerMode(fb: Surface, width: word, height: word): word
  {
    if fb.width > width then (if fb.height > height then 3 else 1)
    else if fb.height > height then 2
    else 0
  }

  /** The header as first written: neither valid nor counted. */
  function OpenHeader(fb: Surface, width: word, height: word, hflip: bool): word
  {
    var scl0 := ScalerMode(fb, width, height);
    Or32(Or32(Or32(Or32(Shl32(3, 13), HflipBit(hflip)), PixelFormat(fb.format)), Shl32(scl0, 5)), Shl32(scl0, 8))
  }

  function ClosedHeader(open: word, words: nat): word
  {
    Or32(open, Or32(CONTROL_VALID, ControlWords(words)))
  }

  function TpzScale(source: word, dest: word): word
    requires dest > 0
  {
    0x1_0000 * source % TWO32 / dest
  }

  /** Neither division of `write_tpz` is by zero. */
  predicate TpzDefined(source: word, dest: word)
  {
    dest > 0 && TpzScale(source, dest) > 0
  }

  function TpzWords(source: word, dest: word): seq<word>
    requires TpzDefined(source, dest)
  {
    var scale := TpzScale(source, dest);
    [Shl32(scale, 8), (TWO32 - 1) / scale]
  }

  /** What `hvs_add_plane_scaled` needs: both dimensions change, and shrinking does not divide by zero. */
  predicate Scalable(fb: Surface, width: word, height: word)
  {
    && fb.width != width
    && fb.height != height
    && (fb.width > width ==> TpzDefined(fb.width, width))
    && (fb.height > height ==> TpzDefined(fb.height, height))
  }

  predicate Drawable(p: Plane)
  {
    p.Scaled? ==> Scalable(p.fb, p.width, p.height)
  }

  function PlaneLen(p: Plane): (n: nat)
    ensures 7 <= n <= 14
  {
    match p
    case Unity(_, _, _, _) => 7
    case Scaled(fb, _, _, _, width, height, _) =>
      9 + (if fb.width > width then 2 else 0) + (if fb.height > height then 3 else 0)
  }

  function ScalingWords(fb: Surface, width: word, height: word): (ws: seq<word>)
    requires Scalable(fb, width, height)
    ensures |ws| == (if fb.width > width then 2 else 0) + (if fb.height > height then 3 else 0)
  {
    (if fb.width > width then TpzWords(fb.width, width) else []) +
    (if fb.height > height then TpzWords(fb.height, height) + [DUMMY] else [])
  }

  function UnityPayload(fb: Surface, x: int, y: int): seq<word>
  {
    [Position0(x, y), Position2(fb), DUMMY, Or32(fb.ptr, 0xc000_0000), DUMMY, Pitch(fb)]
  }

  /** The eight words between the header and the scaling words. */
  function ScaledPayload(fb: Surface, x: int, y: int, width: word, height: word, layer: nat): (ws: seq<word>)
    ensures |ws| == 8
  {
    [Position0(x, y), Position1(width, height), Position2(fb), DUMMY, Or32(fb.ptr, 0x8000_0000), DUMMY, Pitch(fb),
     layer * 720 % TWO32]
  }

  /** The words after the header. */
  function Payload(p: Plane): (ws: seq<word>)
    requires Drawable(p)
    ensures |ws| == PlaneLen(p) - 1
  {
    match p
    case Unity(fb, x, y, _) => UnityPayload(fb, x, y)
    case Scaled(fb, x, y, _, width, height, layer) =>
      ScaledPayload(fb, x, y, width, height, layer) + ScalingWords(fb, width, height)
  }

  function Header(p: Plane): word
  {
    match p
    case Unity(fb, _, _, hflip) => UnityHeader(fb, hflip)
    case Scaled(fb, _, _, hflip, width, height, _) =>
      ClosedHeader(OpenHeader(fb, width, height, hflip), PlaneLen(p))
  }

  function Words(p: Plane): (ws: seq<word>)
    requires Drawable(p)
    ensures |ws| == PlaneLen(p)
  {
    [Header(p)] + Payload(p)
  }

  predicate AllDrawable(ps: seq<Plane>)
  {
    forall k :: 0 <= k < |ps| ==> Drawable(ps[k])
  }

  function Len(ps: seq<Plane>): nat
  {
    if ps == [] then 0 else Len(ps[..|ps| - 1]) + PlaneLen(ps[|ps| - 1])
  }

  function Encode(ps: seq<Plane>): (ws: seq<word>)
    requires AllDrawable(ps)
    ensures |ws| == Len(ps)
  {
    if ps == [] then [] else Encode(ps[..|ps| - 1]) + Words(ps[|ps| - 1])
  }

  /** `mem` holds the list of `ps` and its END word from `start` on. */
  predicate ListAt(mem: seq<word>, start: nat, ps: seq<Plane>)
  {
    && AllDrawable(ps)
    && start + Len(ps) < |mem|
    && mem[start..start + Len(ps) + 1] == Encode(ps) + [CONTROL_END]
  }

  lemma {:induction false} LenConcat(a: seq<Plane>, b: seq<Plane>)
    ensures Len(a + b) == Len(a) + Len(b)
  {
    hide PlaneLen;
    if b == [] {
      assert a + b == a;
    } else {
      LenConcat(a, b[..|b| - 1]);
      assert (a + b)[..|a + b| - 1] == a + b[..|b| - 1];
    }
  }

  lemma {:induction false} EncodeConcat(a: seq<Plane>, b: seq<Plane>)
    requires AllDrawable(a) && AllDrawable(b)
    ensures Len(a + b) == Len(a) + Len(b)
    ensures Encode(a + b) == Encode(a) + Encode(b)
  {
    hide Words, Drawable, PlaneLen;
    if b == [] {
      assert a + b == a;
    } else {
      var c := b[..|b| - 1];
      EncodeConcat(a, c);
      assert (a + b)[..|a + b| - 1] == a + c;
    }
  }

  lemma EncodeCons(p: Plane, ps: seq<Plane>)
    requires Drawable(p) && AllDrawable(ps)
    ensures Len([p] + ps) == PlaneLen(p) + Len(ps)
    ensures Encode([p] + ps) == Words(p) + Encode(ps)
  {
    hide Words, Drawable, PlaneLen;
    EncodeConcat([p], ps);
    assert [p][..0] == [];
    assert Encode([p]) == [] + Words(p);
  }

  // The walk of `hvs_dump`.

  datatype Entry = Entry(at: nat, words: nat, format: nat, unity: bool, scl0: nat, scl1: nat, order: nat, hflip: bool,
                         x: nat, y: nat, word1: word, width: nat, height: nat, ptr: word, pitch: word)

  /** Why the walk stopped: at an END word, at the end of its window, or past the modelled memory. */
  datatype Stop = AtEnd(slot: nat) | WindowDone | OffMemory

  datatype Dump = Dump(entries: seq<Entry>, stop: Stop)

  /** How far past the header the dump reads. */
  function ReadSpan(w: word): nat
  {
    var fields := if Field(w, 4, 1) == 1 then 7 else 8;
    if Field(w, 24, 6) > fields then Field(w, 24, 6) else fields
  }

  function Decode(mem: seq<word>, i: nat): Entry
    requires i < |mem| && i + ReadSpan(mem[i]) <= |mem|
  {
    var w := mem[i];
    var unity := Field(w, 4, 1) == 1;
    var p := if unity then i + 2 else i + 3;
    Entry(i, Field(w, 24, 6), Field(w, 0, 4), unity, Field(w, 5, 3), Field(w, 8, 3), Field(w, 13, 2),
          Field(w, 16, 1) == 1, Field(mem[i + 1], 0, 12), Field(mem[i + 1], 12, 12),
          if unity then 0 else mem[i + 2],
          Field(mem[p], 0, 16), Field(mem[p], 16, 12), mem[p + 2], mem[p + 4])
  }

  function Walk(mem: seq<word>, i: nat, end: nat): Dump
    decreases end - i
  {
    if i >= end then Dump([], WindowDone)
    else if i >= |mem| then Dump([], OffMemory)
    else if Field(mem[i], 31, 1) == 1 then Dump([], AtEnd(i))
    else if Field(mem[i], 30, 1) == 1 then
      if i + ReadSpan(mem[i]) > |mem| then Dump([], OffMemory)
      else
        var words := Field(mem[i], 24, 6);
        var rest := Walk(mem, i + (if words > 1 then words else 1), end);
        Dump([Decode(mem, i)] + rest.entries, rest.stop)
    else Walk(mem, i + 1, end)
  }

  /** What a reader should learn about `p` when its words start at `at`. */
  function EntryOf(p: Plane, at: nat): Entry
  {
    var scl := if p.Unity? then 0 else ScalerMode(p.fb, p.width, p.height);
    Entry(at, PlaneLen(p), PixelFormat(p.fb.format), p.Unity?, scl, scl, 3, p.hflip, p.x % 0x1000, p.y % 0x1000,
          if p.Unity? then 0 else Position1(p.width, p.height),
          p.fb.width % 0x1_0000, p.fb.height % 0x1000,
          Or32(p.fb.ptr, if p.Unity? then 0xc000_0000 else 0x8000_0000), Pitch(p.fb))
  }

  /** What a window up to `end` should show of the list `ps` at `at`: exactly the planes whose header it reaches. */
  function Expected(ps: seq<Plane>, at: nat, end: nat): Dump
  {
    if at >= end then Dump([], WindowDone)
    else if ps == [] then Dump([], AtEnd(at))
    else
      var rest := Expected(ps[1..], at + PlaneLen(ps[0]), end);
      Dump([EntryOf(ps[0], at)] + rest.entries, rest.stop)
  }

  // Decoding one plane.

  lemma UnityHeaderValue(fb: Surface, hflip: bool)
    ensures UnityHeader(fb, hflip) == 0x4700_6010 + HflipBit(hflip) + PixelFormat(fb.format)
  {
    hide Or, Shl, Pow2;
    PowTable();
    OrAt(0x4000_0000, 0x700_0000, 24, 6, 0x100_0000, 0x40);
    OrAt(0x4700_0000, 0x6000, 13, 2, 0x2000, 4);
    OrAt(0x4700_6000, HflipBit(hflip), 16, 1, 0x1_0000, 2);
    OrAt(0x4700_6000 + HflipBit(hflip), 0x10, 4, 1, 0x10, 2);
    OrAt(0x4700_6010 + HflipBit(hflip), PixelFormat(fb.format), 0, 4, 1, 0x10);
  }

  lemma OpenHeaderValue(fb: Surface, width: word, height: word, hflip: bool)
    ensures OpenHeader(fb, width, height, hflip)
         == 0x6000 + HflipBit(hflip) + PixelFormat(fb.format) + 0x120 * ScalerMode(fb, width, height)
  {
    hide Or, Shl, Pow2, Low, Shr;
    PowTable();
    var h, f := HflipBit(hflip), PixelFormat(fb.format);
    OrAt(0x6000, h, 16, 1, 0x1_0000, 2);
    OrAt(0x6000 + h, f, 0, 4, 1, 0x10);
    OpenHeaderScaling(0x6000 + h + f, 3 + h / 0x2000, f, ScalerMode(fb, width, height));
  }

  lemma OpenHeaderScaling(a: word, hi: nat, lo: nat, scl0: word)
    requires scl0 < 4 && a == 0x2000 * hi + lo && lo < 8 && hi < 0x1_0000
    ensures Or32(Or32(a, Shl32(scl0, 5)), Shl32(scl0, 8)) == a + 0x120 * scl0
  {
    hide Or, Shl, Pow2, Low, Shr;
    PowTable();
    ShlAt(scl0, 5, 0x20);
    ShlAt(scl0, 8, 0x100);
    hide Shl32;
    OrInto(a, 0x20 * hi, lo, scl0, 5, 3, 0x20, 8);
    OrInto(a + 0x20 * scl0, 4 * hi, lo + 0x20 * scl0, scl0, 8, 3, 0x100, 8);
  }

  lemma ClosedHeaderValue(open: word, n: nat)
    requires n < 64 && open < 0x100_0000
    ensures ClosedHeader(open, n) == open + 0x4000_0000 + 0x100_0000 * n
  {
    hide Or, Shl, Pow2;
    PowTable();
    OrAt(0x4000_0000, 0x100_0000 * n, 24, 6, 0x100_0000, 0x40);
    OrAt(open, 0x4000_0000 + 0x100_0000 * n, 24, 8, 0x100_0000, 0x100);
  }

  lemma Position0Value(x: int, y: int)
    ensures Position0(x, y) == x % 0x1000 + 0x1000 * (y % 0x1000) + 0xff00_0000
  {
    hide Or, Shl, Pow2;
    PowTable();
    OrAt(x % 0x1000, 0x1000 * (y % 0x1000), 12, 12, 0x1000, 0x1000);
    OrAt(x % 0x1000 + 0x1000 * (y % 0x1000), 0xff00_0000, 24, 8, 0x100_0000, 0x100);
  }

  lemma Position2Value(fb: Surface)
    ensures Position2(fb) == 0x1_0000 * (fb.height % 0x1_0000) + fb.width % 0x1_0000
  {
    hide Or, Shl, Pow2;
    PowTable();
    OrAt(0x1_0000 * (fb.height % 0x1_0000), fb.width % 0x1_0000, 0, 16, 1, 0x1_0000);
  }
}
