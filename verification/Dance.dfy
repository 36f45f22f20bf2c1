/** The sprite demo itself: global state, the frame update run from the vertical-blank interrupt, and its commands. */
module Dance {
  import opened Bits
  import opened DisplayList
  import opened ListStores
  import opened ListWalk
  import opened Frames
  import opened Hvs
  import opened Wrappers

  class Dancer {
    const scaler: Scaler
    const items: array<Item>
    var fb: Surface
    var spriteLimit: nat
    var delay: int
    var screenWidth: int
    var screenHeight: int

    /** What the published list was written to show. */
    ghost var shown: seq<Plane>

    ghost predicate Valid()
      reads this, scaler`displist1, scaler`log, scaler.dlist, items
    {
      && scaler.Valid()
      && scaler.dlist as object != items
      && items.Length == ITEMS
      && spriteLimit <= ITEMS
      && Scalable(fb, SPRITE_SIZE, SPRITE_SIZE)
    }

    ghost function Cfg(): Config
      reads this
    {
      Config(fb, screenWidth, screenHeight)
    }

    ghost function Now(): State
      reads this, scaler, scaler.dlist, items
    {
      State(scaler.Now(), scaler.displaySlot, scaler.scaledLayers, items[..], shown)
    }

    constructor (scaler: Scaler, fb: Surface, width: int, height: int, ghost shown: seq<Plane>)
      requires scaler.Valid() && Scalable(fb, SPRITE_SIZE, SPRITE_SIZE)
      ensures Valid() && this.scaler == scaler && Cfg() == Config(fb, width, height) && fresh(items)
      ensures spriteLimit == 2 && delay == 0 && this.shown == shown
    {
      this.scaler := scaler;
      this.fb := fb;
      items := new Item[ITEMS](_ => Item(0, 0, 0, 0));
      spriteLimit, delay := 2, 0;
      screenWidth, screenHeight := width, height;
      this.shown := shown;
    }

    /** One pass of the sprite loop of `do_frame_update`, up to the plane it adds. */
    method MoveItem(i: nat)
      requires i < items.Length
      modifies items
      ensures items[..] == old(items[..])[i := Moved(old(items[i]), Cfg())]
    {
      var x, y, xd, yd := items[i].x, items[i].y, items[i].xd, items[i].yd;
      if x > screenWidth - SPRITE_SIZE { xd := -xd; }
      if y > screenHeight - SPRITE_SIZE { yd := -yd; }
      x := x + xd;
      y := y + yd;
      if x < 0 {
        x := -x;
        xd := -xd;
      }
      if y < 0 {
        y := -y;
        yd := -yd;
      }
      if x > screenWidth {
        x := x - screenWidth;
        xd := -xd;
      }
      if y > screenHeight {
        y := y - screenHeight;
        yd := -yd;
      }
      items[i] := Item(x, y, xd, yd);
    }

    /** One pass of the sprite loop: move the sprite, then append its plane. */
    method WriteSprite(i: nat)
      requires Valid() && i < items.Length && scaler.displaySlot + SpriteLen(fb) <= MEMORY_WORDS
      modifies scaler`displaySlot, scaler`scaledLayers, scaler`log, scaler.dlist, items
      ensures Valid()
      ensures items[..] == old(items[..])[i := Moved(old(items[i]), Cfg())]
      ensures scaler.scaledLayers == old(scaler.scaledLayers) + 1
      ensures scaler.displaySlot == old(scaler.displaySlot) + SpriteLen(fb)
      ensures scaler.log == old(scaler.log)
                          + PlaneEvents(old(scaler.displaySlot), SpritePlane(items[i], fb, old(scaler.scaledLayers)))
    {
      hide Moved, Apply, Scalable, PlaneEvents;
      MoveItem(i);
      scaler.AddPlaneScaled(fb, items[i].x, items[i].y, SPRITE_SIZE, SPRITE_SIZE, false);
    }

    /** The sprite loop of `do_frame_update`. */
    method WriteSprites()
      requires Valid() && scaler.displaySlot + spriteLimit * SpriteLen(fb) <= MEMORY_WORDS
      modifies scaler`displaySlot, scaler`scaledLayers, scaler`log, scaler.dlist, items
      ensures Valid()
      ensures items[..] == MovedItems(old(items[..]), spriteLimit, Cfg())
      ensures scaler.scaledLayers == old(scaler.scaledLayers) + spriteLimit
      ensures var ps := NewPlanes(Cfg(), old(Now()), spriteLimit);
              && scaler.displaySlot == old(scaler.displaySlot) + Len(ps)
              && scaler.log == old(scaler.log) + ListEvents(old(scaler.displaySlot), ps)
    {
      hide Moved, SpriteLen, Apply, Scalable, PlaneEvents, Len, ListEvents;
      ghost var before, layers, start := items[..], scaler.scaledLayers, scaler.displaySlot;
      ghost var c := Cfg();
      ghost var after := MovedItems(before, spriteLimit, c);
      ghost var ps := FramePlanes(after, spriteLimit, fb, layers);
      NoPlanes(ps, start);
      var i := 0;
      while i < spriteLimit
        invariant 0 <= i <= spriteLimit && Valid()
        invariant items[..] == MovedItems(before, i, c)
        invariant scaler.scaledLayers == layers + i
        invariant scaler.displaySlot == start + Len(ps[..i])
        invariant scaler.log == old(scaler.log) + ListEvents(start, ps[..i])
      {
        PrefixFits(after, i, spriteLimit, fb, layers);
        NextPlane(ps, start, i);
        WriteSprite(i);
        assert items[..] == MovedItems(before, i + 1, c);
        assert items[..][i] == after[i];
        i := i + 1;
      }
      assert ps[..spriteLimit] == ps;
    }

    /** The `l` command; with no argument it only re-applies the bound. */
    method SetLimit(argument: Option<word>)
      requires Valid()
      modifies this`spriteLimit
      ensures Valid()
      ensures spriteLimit == var wanted := if argument.Some? then argument.value else old(spriteLimit);
                             if wanted > 580 then 580 else wanted
    {
      if argument.Some? {
        spriteLimit := argument.value;
      }
      if spriteLimit > ITEMS {
        spriteLimit := ITEMS;
      }
    }

    /**
     The `dance` command: `random(4 * i + j)` is the j-th number `rand` returns for sprite `i`. Positions cast it to
     unsigned, speeds take the remainder that truncates, so they are between -3 and 5.
     */
    method Scramble(random: nat -> int)
      requires Valid() && screenWidth > 0 && screenHeight > 0
      modifies items
      ensures Valid()
      ensures ScrambleRoom(Cfg(), 5) && screenWidth >= 40 && screenHeight >= 100 ==> AllStarted(Now(), Cfg())
      ensures LaunchRoom(Cfg()) ==> AllLaunched(Now(), Cfg())
      ensures items[0] == Item(40, 100, 0, 0)
      ensures forall i :: 0 < i < ITEMS ==> Scrambled(items[i], i, random, Cfg())
    {
      hide Scalable;
      var i := 0;
      while i < ITEMS
        invariant 0 <= i <= ITEMS && Valid()
        invariant forall k :: 0 <= k < i ==> Scrambled(items[k], k, random, Cfg())
      {
        var it := Item(random(4 * i) % TWO32 % screenWidth, random(4 * i + 1) % TWO32 % screenHeight,
                       TruncRemainder(random(4 * i + 2), 5) + 1, TruncRemainder(random(4 * i + 3), 5) + 1);
        if it.x > screenWidth - SPRITE_SIZE { it := it.(x := screenWidth - fb.width); }
        if it.y > screenHeight - SPRITE_SIZE { it := it.(y := screenHeight - fb.height); }
        items[i] := it;
        i := i + 1;
      }
      items[0] := Item(40, 100, 0, 0);
      ghost var c := Cfg();
      forall i | 0 <= i < ITEMS
        ensures ScrambleRoom(c, 5) && c.width >= 40 && c.height >= 100 ==> Started(items[i], c)
        ensures LaunchRoom(c) ==> ItemLaunched(items[i], c)
      {
        if i > 0 {
          ScrambledStarts(items[i], i, random, c);
        }
      }
    }

    /** Frames the `delay` command leaves out. */
    predicate Skips(frame: int)
      reads this`delay
    {
      delay != 0 && frame % delay != 0
    }

    /** With a delay of `d`, frame 0 and every `d`-th after it is drawn, and none between; with none, all are. */
    lemma DrawnFrames(k: int, r: int)
      ensures delay == 0 ==> !Skips(r)
      ensures delay > 0 && 0 <= r < delay ==> (Skips(k * delay + r) <==> r != 0)
    {
      if delay > 0 && 0 <= r < delay {
        RemainderOf(k, r, delay);
      }
    }

    /** The end of `do_frame_update`: END word, overflow test, publication, tail wrap. */
    method FinishFrame(start: nat)
      requires Valid() && scaler.displaySlot < MEMORY_WORDS
      modifies scaler`displaySlot, scaler`scaledLayers, scaler`displist1, scaler`log, scaler.dlist
      ensures Valid()
      ensures scaler.displaySlot == NextSlot(old(scaler.displaySlot) + 1)
      ensures scaler.scaledLayers == if old(scaler.scaledLayers) > 10 then 0 else old(scaler.scaledLayers)
      ensures scaler.log == old(scaler.log) + [Store(old(scaler.displaySlot), CONTROL_END)] + [Publish(start)]
    {
      hide Apply, Scalable;
      scaler.TerminateList();
      if scaler.displaySlot > MEMORY_WORDS {
        assert false;
      }
      scaler.PublishList(start);
      if scaler.displaySlot > TAIL_WRAP {
        scaler.displaySlot := 0;
      }
    }

    method DoFrameUpdate(frame: int)
      requires Valid() && Fits(spriteLimit, fb)
      modifies this`shown, scaler`displaySlot, scaler`scaledLayers, scaler`displist1, scaler`log, scaler.dlist, items
      ensures Valid()
      ensures old(Skips(frame)) ==> Now() == old(Now()) && scaler.log == old(scaler.log)
      ensures !old(Skips(frame)) ==>
                && Now() == old(Frame(Cfg(), Now(), spriteLimit))
                && scaler.log == old(scaler.log) + old(EventsOf(Cfg(), Now(), spriteLimit))
      ensures old(Ready(Now())) && spriteLimit <= SAFE_LIMIT ==> Ready(Now())
    {
      hide ListEvents, Scalable, FramePlanes, MovedItems, Len, Apply, Ready;
      if delay != 0 {
        if frame % delay != 0 {
          return;
        }
      }
      ghost var s, c := Now(), Cfg();
      if scaler.displaySlot + spriteLimit * SPRITE_WORDS + 1 > MEMORY_WORDS {
        scaler.displaySlot := 0;
      }
      var start := scaler.displaySlot;
      ghost var ps := NewPlanes(c, s, spriteLimit);
      StartFits(c, s, spriteLimit);
      WriteSprites();
      FinishFrame(start);
      scaler.Replayed(old(scaler.log), FrameEvents(start, ps));
      shown := ps;
      FrameStaysReady(c, s, spriteLimit);
    }
  }

  lemma RemainderOf(k: int, r: int, d: int)
    requires 0 <= r < d
    ensures (k * d + r) % d == r
  {
    DivUnique(k * d + r, d, k, r);
  }

  /** The remainder of the C operator, with the sign of the dividend. */
  function TruncRemainder(a: int, m: int): (r: int)
    requires m > 0
    ensures -m < r < m && (a >= 0 ==> r >= 0) && (a <= 0 ==> r <= 0)
    ensures m == 5 ==> (r - a) % 5 == 0
  {
    if a >= 0 then a % m else -(-a % m)
  }

  /**
   The position drawn with random number `r`: its remainder, or, where a sprite would overhang the far edge, the
   place at which the unscaled bitmap touches that edge.
   */
  predicate Placed(pos: int, r: int, size: int, bitmap: int)
    requires size > 0
  {
    var drawn := r % TWO32 % size;
    pos == if drawn + 100 > size then size - bitmap else drawn
  }

  /** The speed drawn with random number `r`: one more than the remainder by 5, which has the sign of `r`. */
  predicate Thrown(speed: int, r: int)
  {
    (speed - 1 - r) % 5 == 0 && -5 < speed - 1 < 5 && (r >= 0 ==> speed >= 1) && (r <= 0 ==> speed <= 1)
  }

  /** Sprite `i` starts where its four random numbers put it. */
  ghost predicate Scrambled(it: Item, i: nat, random: nat -> int, c: Config)
    requires c.width > 0 && c.height > 0
  {
    && Placed(it.x, random(4 * i), c.width, c.fb.width) && Thrown(it.xd, random(4 * i + 2))
    && Placed(it.y, random(4 * i + 1), c.height, c.fb.height) && Thrown(it.yd, random(4 * i + 3))
  }

  lemma PlacedStarts(pos: int, r: int, size: int, bitmap: word, speed: int, s: int)
    requires size > 0 && Placed(pos, r, size, bitmap) && Thrown(speed, s)
    ensures -5 <= speed <= 5 && (bitmap <= 2 * size - 5 ==> 5 - size <= pos <= size)
    ensures 100 <= bitmap <= 2 * size - 105 && size >= 105 ==> Launched(pos, speed, size)
  {
  }

  lemma ScrambledStarts(it: Item, i: nat, random: nat -> int, c: Config)
    requires c.width > 0 && c.height > 0 && Scrambled(it, i, random, c)
    ensures ScrambleRoom(c, 5) ==> Started(it, c)
    ensures LaunchRoom(c) ==> ItemLaunched(it, c)
  {
    hide Placed, Thrown, Launched;
    PlacedStarts(it.x, random(4 * i), c.width, c.fb.width, it.xd, random(4 * i + 2));
    PlacedStarts(it.y, random(4 * i + 1), c.height, c.fb.height, it.yd, random(4 * i + 3));
  }

  /** The bitmap is smaller than two screens, with a margin: its own size, not that of a sprite, mirrors a position. */
  predicate ScrambleRoom(c: Config, margin: int)
  {
    c.fb.width <= 2 * c.width - margin && c.fb.height <= 2 * c.height - margin
  }

  /** Room for every sprite to be launched so that it bounces: the repository's 493x620 bitmap has it on 720x480. */
  predicate LaunchRoom(c: Config)
  {
    && ScrambleRoom(c, SPRITE_SIZE + 5)
    && SPRITE_SIZE <= c.fb.width && SPRITE_SIZE <= c.fb.height
    && c.width >= 140 && c.height >= 200
  }

  lemma FrameStaysReady(c: Config, s: State, n: nat)
    requires Runnable(c, s, n)
    ensures Ready(s) && n <= SAFE_LIMIT ==> Ready(Frame(c, s, n))
  {
    hide Ready, Frame;
    if Ready(s) && n <= SAFE_LIMIT {
      FrameReady(c, s, n);
    }
  }

  lemma StartFits(c: Config, s: State, n: nat)
    requires Runnable(c, s, n) && Fits(n, c.fb)
    ensures FrameStart(s.slot, n) + n * SpriteLen(c.fb) + 1 <= MEMORY_WORDS
    ensures Len(NewPlanes(c, s, n)) == n * SpriteLen(c.fb)
  {
    hide SpriteLen;
    FramePlanesLen(MovedItems(s.items, n, c), n, c.fb, s.layers);
    MulBound(n, SpriteLen(c.fb));
  }

  lemma PrefixFits(items: seq<Item>, i: nat, n: nat, fb: Surface, layers: nat)
    requires i < n <= |items|
    ensures var ps := FramePlanes(items, n, fb, layers);
            && Len(ps[..i]) + SpriteLen(fb) <= n * SpriteLen(fb)
            && PlaneLen(ps[i]) == SpriteLen(fb)
  {
    var ps := FramePlanes(items, n, fb, layers);
    assert ps[..i] == FramePlanes(items, i, fb, layers);
    FramePlanesLen(items, i, fb, layers);
    assert PlaneLen(ps[i]) == SpriteLen(fb);
    hide SpriteLen, Len, FramePlanes;
    MulSub(SpriteLen(fb), n, i + 1);
    MulNonneg(n - i - 1, SpriteLen(fb));
    MulNext(i + 1, SpriteLen(fb));
  }

  lemma NoPlanes(ps: seq<Plane>, at: nat)
    ensures Len(ps[..0]) == 0 && ListEvents(at, ps[..0]) == []
  {
  }

  lemma NextPlane(ps: seq<Plane>, at: nat, i: nat)
    requires i < |ps| && AllDrawable(ps)
    ensures Len(ps[..i + 1]) == Len(ps[..i]) + PlaneLen(ps[i])
    ensures ListEvents(at, ps[..i + 1]) == ListEvents(at, ps[..i]) + PlaneEvents(at + Len(ps[..i]), ps[i])
  {
    hide PlaneEvents, Drawable, PlaneLen;
    assert ps[..i + 1][..i] == ps[..i];
  }

  /** The first list of the video output: the background alone, over the wiped memory. */
  method ShowBackground(scaler: Scaler, framebuffer: Surface)
    requires scaler.Valid()
    modifies scaler`displaySlot, scaler`scaledLayers, scaler`displist1, scaler`log, scaler.dlist
    ensures scaler.Valid() && scaler.displaySlot == 8
    ensures scaler.scaledLayers == NextLayers(old(scaler.scaledLayers))
    ensures scaler.log == old(scaler.log) + BackgroundEvents(framebuffer)
  {
    hide Apply, PlaneEvents, Len, ListEvents;
    ghost var p := Unity(framebuffer, 0, 0, false);
    TwoPlanes(p, p);
    scaler.WipeDisplayList();
    var listStart := scaler.displaySlot;
    scaler.AddPlane(framebuffer, 0, 0, false);
    scaler.TerminateList();
    scaler.PublishList(listStart);
  }

  /** The second list, with the logo: what is on display when the demo starts. */
  method ShowLogo(scaler: Scaler, framebuffer: Surface, logo: Surface, width: int) returns (ghost shown: seq<Plane>)
    requires scaler.Valid() && scaler.displaySlot == 8 && Scalable(logo, SPRITE_SIZE, SPRITE_SIZE)
    modifies scaler`displaySlot, scaler`scaledLayers, scaler`displist1, scaler`log, scaler.dlist
    ensures scaler.Valid()
    ensures shown == [Unity(framebuffer, 0, 0, false),
                      Scaled(logo, width / 2 - logo.width / 2, 0, false, SPRITE_SIZE, SPRITE_SIZE,
                             old(scaler.scaledLayers))]
    ensures scaler.log == old(scaler.log) + FrameEvents(8, shown)
    ensures scaler.displaySlot == 8 + Len(shown) + 1
    ensures scaler.scaledLayers == NextLayers(old(scaler.scaledLayers) + 1)
  {
    hide Apply, Scalable, Encode, PlaneEvents, ListAt, Len, ListEvents;
    shown := [Unity(framebuffer, 0, 0, false),
              Scaled(logo, width / 2 - logo.width / 2, 0, false, SPRITE_SIZE, SPRITE_SIZE, scaler.scaledLayers)];
    TwoPlanes(shown[0], shown[1]);
    var listStart := scaler.displaySlot;
    scaler.AddPlane(framebuffer, 0, 0, false);
    scaler.AddPlaneScaled(logo, width / 2 - logo.width / 2, 0, SPRITE_SIZE, SPRITE_SIZE, false);
    scaler.TerminateList();
    scaler.PublishList(listStart);
  }

  /**
   From the first store of the video output to the first frame update: the demo starts in a `BootState`, between
   frames and with every sprite where the motion theorems need it.
   */
  method StartDemo(scaler: Scaler, framebuffer: Surface, logo: Surface, width: int, height: int, random: nat -> int)
    returns (dancer: Dancer)
    requires scaler.Valid() && Scalable(logo, SPRITE_SIZE, SPRITE_SIZE) && width > 0 && height > 0
    modifies scaler`displaySlot, scaler`scaledLayers, scaler`displist1, scaler`log, scaler.dlist
    ensures fresh(dancer) && dancer.Valid() && dancer.scaler == scaler
    ensures dancer.Cfg() == Config(logo, width, height) && dancer.spriteLimit == 2 && dancer.delay == 0
    ensures dancer.Now() == BootState(dancer.Cfg(), Boot(old(scaler.Now()), old(scaler.scaledLayers), framebuffer,
                                                         dancer.items[..]))
    ensures Ready(dancer.Now())
    ensures LaunchRoom(dancer.Cfg()) ==> AllLaunched(dancer.Now(), dancer.Cfg())
  {
    hide Apply, Scalable, FrameEvents, BackgroundEvents, Len, Ready, LaunchRoom;
    ShowBackground(scaler, framebuffer);
    scaler.Replayed(old(scaler.log), BackgroundEvents(framebuffer));
    ghost var log := scaler.log;
    ghost var shown := ShowLogo(scaler, framebuffer, logo, width);
    scaler.Replayed(log, FrameEvents(8, shown));
    dancer := new Dancer(scaler, logo, width, height, shown);
    dancer.Scramble(random);
    ghost var b := Boot(old(scaler.Now()), old(scaler.scaledLayers), framebuffer, dancer.items[..]);
    BootReady(dancer.Cfg(), b);
  }

  lemma TwoPlanes(p: Plane, q: Plane)
    requires Drawable(p) && Drawable(q)
    ensures [p, q][..1] == [p]
    ensures Len([p]) == PlaneLen(p) && Len([p, q]) == PlaneLen(p) + PlaneLen(q)
    ensures forall at: nat :: ListEvents(at, [p]) == PlaneEvents(at, p)
    ensures forall at: nat :: ListEvents(at, [p, q]) == PlaneEvents(at, p) + PlaneEvents(at + PlaneLen(p), q)
  {
    hide PlaneEvents, Drawable, PlaneLen;
    assert [p][..0] == [] && [p, q][..1] == [p];
  }
}
