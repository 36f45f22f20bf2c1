/**
 The frame-by-frame display of the sprite demo as a transition system: sprite motion, the two wrap rules of the
 list allocator, and what the screen shows after every single event of a run.
 */
module Frames {
  import opened Bits
  import opened DisplayList
  import opened ListStores
  import opened ListWalk

  const ITEMS := 580
  const SPRITE_SIZE: word := 100
  /** The allocator counts every sprite as the largest plane. */
  const SPRITE_WORDS := 14
  const TAIL_WRAP := 4000
  /** The largest sprite limit under which no run ever overwrites the list on display. */
  const SAFE_LIMIT := 97

  datatype Item = Item(x: int, y: int, xd: int, yd: int)

  datatype Config = Config(fb: Surface, width: int, height: int)

  /** `shown` is what the published list was written to show. */
  datatype State = State(screen: Screen, slot: nat, layers: nat, items: seq<Item>, shown: seq<Plane>)

  // Sprite motion.

  /** One coordinate of one sprite over one frame: new position and new speed. */
  function Motion(pos: int, speed: int, size: int): (int, int)
  {
    var speed1 := if pos > size - SPRITE_SIZE then -speed else speed;
    var pos1 := pos + speed1;
    var (pos2, speed2) := if pos1 < 0 then (-pos1, -speed1) else (pos1, speed1);
    if pos2 > size then (pos2 - size, -speed2) else (pos2, speed2)
  }

  function Moved(it: Item, c: Config): Item
  {
    var (x, xd) := Motion(it.x, it.xd, c.width);
    var (y, yd) := Motion(it.y, it.yd, c.height);
    Item(x, y, xd, yd)
  }

  function MovedItems(items: seq<Item>, n: nat, c: Config): (r: seq<Item>)
    ensures |r| == |items|
  {
    seq(|items|, i requires 0 <= i < |items| => if i < n then Moved(items[i], c) else items[i])
  }

  function SpritePlane(it: Item, fb: Surface, layer: nat): Plane
  {
    Scaled(fb, it.x, it.y, false, SPRITE_SIZE, SPRITE_SIZE, layer)
  }

  function FramePlanes(items: seq<Item>, n: nat, fb: Surface, layers: nat): (ps: seq<Plane>)
    requires n <= |items|
    ensures |ps| == n
    ensures Scalable(fb, SPRITE_SIZE, SPRITE_SIZE) ==> AllDrawable(ps)
  {
    seq(n, i requires 0 <= i < |items| => SpritePlane(items[i], fb, layers + i))
  }

  function SpriteLen(fb: Surface): (n: nat)
    ensures 7 <= n <= SPRITE_WORDS
  {
    PlaneLen(SpritePlane(Item(0, 0, 0, 0), fb, 0))
  }

  /** A list of `n` sprites and its END word fit the list memory. */
  predicate Fits(n: nat, fb: Surface)
  {
    n * SpriteLen(fb) + 1 <= MEMORY_WORDS
  }

  // The allocator.

  /** Early wrap: a frame that might not fit behind the previous one starts over. */
  function FrameStart(slot: nat, n: nat): nat
  {
    if slot + n * SPRITE_WORDS + 1 > MEMORY_WORDS then 0 else slot
  }

  /** The layer count after the END word. */
  function NextLayers(layers: nat): nat
  {
    if layers > 10 then 0 else layers
  }

  /** Tail wrap. */
  function NextSlot(end: nat): nat
  {
    if end > TAIL_WRAP then 0 else end
  }

  ghost predicate Runnable(c: Config, s: State, n: nat)
  {
    Scalable(c.fb, SPRITE_SIZE, SPRITE_SIZE) && n <= |s.items|
  }

  function NewPlanes(c: Config, s: State, n: nat): (ps: seq<Plane>)
    requires Runnable(c, s, n)
    ensures |ps| == n && AllDrawable(ps)
  {
    FramePlanes(MovedItems(s.items, n, c), n, c.fb, s.layers)
  }

  /** The bus events of one frame update with sprite limit `n`. */
  function EventsOf(c: Config, s: State, n: nat): seq<Event>
    requires Runnable(c, s, n)
  {
    FrameEvents(FrameStart(s.slot, n), NewPlanes(c, s, n))
  }

  /** One frame update with sprite limit `n` (which may change between frames). */
  function Frame(c: Config, s: State, n: nat): (t: State)
    requires Runnable(c, s, n)
    ensures |t.items| == |s.items| && |t.screen.mem| == |s.screen.mem|
  {
    var ps := NewPlanes(c, s, n);
    State(Apply(s.screen, EventsOf(c, s, n)),
          NextSlot(FrameStart(s.slot, n) + Len(ps) + 1),
          NextLayers(s.layers + n),
          MovedItems(s.items, n, c),
          ps)
  }

  lemma {:induction false} FramePlanesLen(items: seq<Item>, n: nat, fb: Surface, layers: nat)
    requires n <= |items|
    ensures Len(FramePlanes(items, n, fb, layers)) == n * SpriteLen(fb)
  {
    var ps := FramePlanes(items, n, fb, layers);
    if n > 0 {
      FramePlanesLen(items, n - 1, fb, layers);
      assert ps[..n - 1] == FramePlanes(items, n - 1, fb, layers);
      MulNext(n, SpriteLen(fb));
    }
  }

  lemma MulNext(n: int, k: int)
    ensures n * k == (n - 1) * k + k
  {
  }

  /**
   The overflow branch of `do_frame_update`, which calls itself and would take the same branch again, is reached
   exactly when the list by itself exceeds the memory, whatever the slot; with 14-word sprites, above 292.
   */
  lemma OverflowIffTooLong(c: Config, s: State, n: nat)
    requires Runnable(c, s, n)
    ensures FrameStart(s.slot, n) + Len(NewPlanes(c, s, n)) + 1 > MEMORY_WORDS
        <==> !Fits(n, c.fb)
    ensures SpriteLen(c.fb) == SPRITE_WORDS ==> (Fits(n, c.fb) <==> n <= 292)
  {
    hide SpriteLen;
    FramePlanesLen(MovedItems(s.items, n, c), n, c.fb, s.layers);
    MulBound(n, SpriteLen(c.fb));
  }

  lemma MulBound(n: nat, k: nat)
    requires k <= SPRITE_WORDS
    ensures n * k <= n * SPRITE_WORDS
  {
    MulSub(n, SPRITE_WORDS, k);
    MulNonneg(n, SPRITE_WORDS - k);
  }

  /** The line buffer address in the words of a plane. */
  function LineBuffer(p: Plane): word
    requires Drawable(p)
  {
    if p.Scaled? then Words(p)[8] else 0
  }

  /**
   Every sprite of a frame gets its own 720 words of line buffer, above those of the sprites before it; the layer
   count from which a frame starts never exceeds 10.
   */
  lemma LineBuffersApart(c: Config, s: State, n: nat, i: nat, j: nat)
    requires Runnable(c, s, n) && Fits(n, c.fb) && s.layers <= 10 && i < j < n
    ensures Frame(c, s, n).layers <= 10
    ensures LineBuffer(NewPlanes(c, s, n)[j]) >= LineBuffer(NewPlanes(c, s, n)[i]) + 720
  {
    hide LineBuffer, Scalable, Apply, FrameEvents, Len;
    var ps := NewPlanes(c, s, n);
    AtMost584(n, c.fb);
    LineBufferWord(ps[i]);
    LineBufferWord(ps[j]);
  }

  lemma AtMost584(n: nat, fb: Surface)
    requires Fits(n, fb)
    ensures n < 0x1000
  {
    hide SpriteLen;
    if n >= 0x1000 {
      MulSub(SpriteLen(fb), n, 1);
      MulAtLeast(n, SpriteLen(fb));
    }
  }

  lemma LineBufferWord(p: Plane)
    requires p.Scaled? && Drawable(p)
    ensures LineBuffer(p) == p.layer * 720 % TWO32
  {
    hide Header, Position0, Position1, Position2, Pitch, ScalingWords, Scalable, Or32;
    assert Words(p)[8] == Payload(p)[7];
  }

  /**
   Where a frame goes: behind the list before it, unless its sprites, counted as the largest planes, would not fit
   there. So lists of 14-word sprites start over only when they have to. The next frame goes right behind the END word,
   up to slot 4000.
   */
  lemma FramePlaced(c: Config, s: State, n: nat)
    requires Runnable(c, s, n) && Fits(n, c.fb) && |s.screen.mem| == MEMORY_WORDS
    ensures var t := Frame(c, s, n);
            && (t.screen.list1 == s.slot || t.screen.list1 == 0)
            && (t.screen.list1 == s.slot <==> s.slot == 0 || s.slot + 14 * n + 1 <= 4096)
            && (SpriteLen(c.fb) == 14 ==>
                  (t.screen.list1 == s.slot <==> s.slot == 0 || s.slot + Len(t.shown) + 1 <= 4096))
            && t.slot == (if t.screen.list1 + Len(t.shown) + 1 <= 4000 then t.screen.list1 + Len(t.shown) + 1 else 0)
  {
    hide SpriteLen, Len, Encode, AllDrawable, FrameEvents, FramePlanes, Apply;
    FramePlanesLen(MovedItems(s.items, n, c), n, c.fb, s.layers);
    MulBound(n, SpriteLen(c.fb));
    FrameShows(s.screen, FrameStart(s.slot, n), NewPlanes(c, s, n));
  }

  /** Between frames: the published list is intact, fits under the safe limit, and the slot follows it. */
  ghost predicate Ready(s: State)
  {
    && |s.screen.mem| == MEMORY_WORDS
    && ListAt(s.screen.mem, s.screen.list1, s.shown)
    && Len(s.shown) <= SAFE_LIMIT * SPRITE_WORDS
    && s.slot == NextSlot(s.screen.list1 + Len(s.shown) + 1)
  }

  lemma FrameReady(c: Config, s: State, n: nat)
    requires Runnable(c, s, n) && Ready(s) && n <= SAFE_LIMIT
    ensures Ready(Frame(c, s, n))
    ensures Frame(c, s, n).slot <= TAIL_WRAP
    ensures var at, len := FrameStart(s.slot, n), Len(NewPlanes(c, s, n));
            at + len < s.screen.list1 || s.screen.list1 + Len(s.shown) < at
  {
    hide SpriteLen, Len, Encode, AllDrawable, FrameEvents, FramePlanes, Apply, ListAt;
    FramePlanesLen(MovedItems(s.items, n, c), n, c.fb, s.layers);
    MulBound(n, SpriteLen(c.fb));
    ListAtFits(s.screen.mem, s.screen.list1, s.shown);
    FrameShows(s.screen, FrameStart(s.slot, n), NewPlanes(c, s, n));
  }

  lemma ListAtFits(mem: seq<word>, start: nat, ps: seq<Plane>)
    requires ListAt(mem, start, ps)
    ensures start + Len(ps) < |mem|
  {
  }

  // Runs.

  ghost predicate RunnableAll(c: Config, s: State, limits: seq<nat>)
  {
    Scalable(c.fb, SPRITE_SIZE, SPRITE_SIZE) && forall k :: 0 <= k < |limits| ==> limits[k] <= |s.items|
  }

  ghost function RunEvents(c: Config, s: State, limits: seq<nat>): seq<Event>
    requires RunnableAll(c, s, limits)
    decreases |limits|
  {
    if limits == [] then []
    else EventsOf(c, s, limits[0]) + RunEvents(c, Frame(c, s, limits[0]), limits[1..])
  }

  /** The state after a whole run. */
  ghost function RunState(c: Config, s: State, limits: seq<nat>): State
    requires RunnableAll(c, s, limits)
    decreases |limits|
  {
    if limits == [] then s else RunState(c, Frame(c, s, limits[0]), limits[1..])
  }

  /** What the list published after the first `k` events of a run was written to show. */
  ghost function ShownAfter(c: Config, s: State, limits: seq<nat>, k: nat): seq<Plane>
    requires RunnableAll(c, s, limits)
    decreases |limits|
  {
    if limits == [] then s.shown
    else
      var m := |EventsOf(c, s, limits[0])|;
      if k < m then s.shown else ShownAfter(c, Frame(c, s, limits[0]), limits[1..], k - m)
  }

  /** The published list holds exactly the words of these planes, and walks to them and its END word. */
  ghost predicate Intact(t: Screen, shown: seq<Plane>)
  {
    var dump := Walk(t.mem, t.list1, MEMORY_WORDS);
    && ListAt(t.mem, t.list1, shown)
    && dump == Expected(shown, t.list1, MEMORY_WORDS)
    && dump.stop == AtEnd(t.list1 + Len(shown))
    && |dump.entries| == |shown|
  }

  lemma ListAtIntact(t: Screen, shown: seq<Plane>)
    requires |t.mem| == MEMORY_WORDS && ListAt(t.mem, t.list1, shown)
    ensures Intact(t, shown)
  {
    hide Walk, Expected, Len, Encode, ListAt;
    ListAtFits(t.mem, t.list1, shown);
    WalkShowsList(t.mem, t.list1, shown, MEMORY_WORDS);
    ExpectedStop(shown, t.list1, MEMORY_WORDS);
    ExpectedEntries(shown, t.list1, MEMORY_WORDS);
  }

  /** After every event of every run under the safe limit, the published list is intact. */
  lemma {:induction false} RunNeverTears(c: Config, s: State, limits: seq<nat>, k: nat)
    requires RunnableAll(c, s, limits) && Ready(s) && forall j :: 0 <= j < |limits| ==> limits[j] <= SAFE_LIMIT
    requires k <= |RunEvents(c, s, limits)|
    ensures Intact(Apply(s.screen, RunEvents(c, s, limits)[..k]), ShownAfter(c, s, limits, k))
    decreases |limits|
  {
    hide Frame, EventsOf, Apply, Intact, ListAt, Ready;
    if limits == [] {
      NoEvents(s, RunEvents(c, s, limits)[..k]);
      ReadyIntact(s);
    } else {
      var n, rest := limits[0], limits[1..];
      var es, s' := EventsOf(c, s, n), Frame(c, s, n);
      var all := RunEvents(c, s, limits);
      if k < |es| {
        assert all[..k] == es[..k];
        FrameIntact(c, s, n, k);
      } else {
        FrameReady(c, s, n);
        assert RunnableAll(c, s', rest);
        RunNeverTears(c, s', rest, k - |es|);
        var more := RunEvents(c, s', rest)[..k - |es|];
        assert all[..k] == es + more;
        ApplyConcat(s.screen, es, more);
        FrameScreen(c, s, n);
      }
    }
  }

  lemma NoEvents(s: State, es: seq<Event>)
    requires es == []
    ensures Apply(s.screen, es) == s.screen
  {
  }

  lemma ReadyIntact(s: State)
    requires Ready(s)
    ensures Intact(s.screen, s.shown)
  {
    hide Intact, ListAt;
    ListAtIntact(s.screen, s.shown);
  }

  lemma FrameScreen(c: Config, s: State, n: nat)
    requires Runnable(c, s, n)
    ensures Frame(c, s, n).screen == Apply(s.screen, EventsOf(c, s, n))
  {
  }

  lemma FrameIntact(c: Config, s: State, n: nat, k: nat)
    requires Runnable(c, s, n) && Ready(s) && n <= SAFE_LIMIT && k < |EventsOf(c, s, n)|
    ensures Intact(Apply(s.screen, EventsOf(c, s, n)[..k]), s.shown)
  {
    hide Frame, FrameEvents, Apply, Intact, ListAt, FramePlanes, Len;
    FrameReady(c, s, n);
    FrameKeeps(s.screen, FrameStart(s.slot, n), NewPlanes(c, s, n), k, s.shown);
    ListAtIntact(Apply(s.screen, EventsOf(c, s, n)[..k]), s.shown);
  }

  lemma {:induction false} RunKeepsItems(c: Config, s: State, limits: seq<nat>)
    requires RunnableAll(c, s, limits)
    ensures |RunState(c, s, limits).items| == |s.items|
    decreases |limits|
  {
    hide Frame, Scalable;
    if limits != [] {
      RunKeepsItems(c, Frame(c, s, limits[0]), limits[1..]);
    }
  }

  /** A run in two parts is the second part run from where the first ends. */
  lemma {:induction false} RunInTwo(c: Config, s: State, a: seq<nat>, b: seq<nat>, k: nat)
    requires RunnableAll(c, s, a) && RunnableAll(c, s, b)
    ensures var t := RunState(c, s, a);
            && |t.items| == |s.items|
            && t.screen == Apply(s.screen, RunEvents(c, s, a))
            && RunEvents(c, s, a + b) == RunEvents(c, s, a) + RunEvents(c, t, b)
            && ShownAfter(c, s, a + b, |RunEvents(c, s, a)| + k) == ShownAfter(c, t, b, k)
    decreases |a|
  {
    hide Frame, EventsOf, Apply, Scalable;
    RunKeepsItems(c, s, a);
    if a == [] {
      assert a + b == b;
      NoEvents(s, RunEvents(c, s, a));
    } else {
      var n, s' := a[0], Frame(c, s, a[0]);
      assert (a + b)[0] == n && (a + b)[1..] == a[1..] + b;
      RunInTwo(c, s', a[1..], b, k);
      FrameScreen(c, s, n);
      ApplyConcat(s.screen, EventsOf(c, s, n), RunEvents(c, s', a[1..]));
    }
  }

  /** The frames of a run stay inside the list memory exactly as long as their lists fit it. */
  predicate Inbounds(e: Event)
  {
    match e
    case Store(addr, _) => addr < MEMORY_WORDS
    case Publish(start) => start <= TAIL_WRAP
  }

  ghost predicate AllInbounds(es: seq<Event>)
  {
    forall k :: 0 <= k < |es| ==> Inbounds(es[k])
  }

  lemma FrameInbounds(c: Config, s: State, n: nat)
    requires Runnable(c, s, n) && s.slot <= TAIL_WRAP
    ensures AllInbounds(EventsOf(c, s, n)) <==> Fits(n, c.fb)
    ensures Frame(c, s, n).slot <= TAIL_WRAP
  {
    hide SpriteLen, Len, AllDrawable, ListEvents, FramePlanes, Apply, Fits;
    var at, ps := FrameStart(s.slot, n), NewPlanes(c, s, n);
    OverflowIffTooLong(c, s, n);
    ListEventsWithin(at, ps);
    var es := EventsOf(c, s, n);
    assert es[|es| - 2] == Store(at + Len(ps), CONTROL_END);
    if Fits(n, c.fb) {
      assert StoresWithin(es[..|es| - 1], at, at + Len(ps) + 1);
      forall k | 0 <= k < |es|
        ensures Inbounds(es[k])
      {
        if k < |es| - 1 {
          assert es[k] == es[..|es| - 1][k];
        }
      }
    }
  }

  /**
   Every store of a run falls into the 4096 words, and every list starts in slot 0 to 4000, if and only if each list
   of the run fits the memory by itself: no history of slots leads outside.
   */
  lemma {:induction false} RunStaysInMemory(c: Config, s: State, limits: seq<nat>)
    requires RunnableAll(c, s, limits) && s.slot <= TAIL_WRAP
    ensures AllInbounds(RunEvents(c, s, limits)) <==> forall k :: 0 <= k < |limits| ==> Fits(limits[k], c.fb)
    ensures RunState(c, s, limits).slot <= TAIL_WRAP
    decreases |limits|
  {
    hide Frame, EventsOf, Fits, Inbounds, Scalable;
    if limits != [] {
      var n, rest := limits[0], limits[1..];
      var s' := Frame(c, s, n);
      FrameInbounds(c, s, n);
      RunStaysInMemory(c, s', rest);
      AllInboundsConcat(EventsOf(c, s, n), RunEvents(c, s', rest));
      assert forall k :: 0 <= k < |rest| ==> rest[k] == limits[k + 1];
      assert (forall k :: 0 <= k < |limits| ==> Fits(limits[k], c.fb)) ==>
          forall k :: 0 <= k < |rest| ==> Fits(rest[k], c.fb);
      assert Fits(n, c.fb) && (forall k :: 0 <= k < |rest| ==> Fits(rest[k], c.fb)) ==>
          forall k :: 0 < k < |limits| ==> limits[k] == rest[k - 1];
    }
  }

  lemma AllInboundsConcat(a: seq<Event>, b: seq<Event>)
    ensures AllInbounds(a + b) <==> AllInbounds(a) && AllInbounds(b)
  {
    hide Inbounds;
    if AllInbounds(a + b) {
      assert forall k :: 0 <= k < |a| ==> a[k] == (a + b)[k];
      assert forall k :: 0 <= k < |b| ==> b[k] == (a + b)[|a| + k];
    }
  }

  // The start of the demo.

  /** What the video output finds: the old screen, its layer count, and what it will draw. */
  datatype Boot = Boot(before: Screen, layers: nat, framebuffer: Surface, items: seq<Item>)

  ghost predicate Bootable(c: Config, b: Boot)
  {
    Scalable(c.fb, SPRITE_SIZE, SPRITE_SIZE) && |b.before.mem| == MEMORY_WORDS
  }

  /** The display memory is wiped and the first list, the background alone, is published. */
  function BackgroundEvents(framebuffer: Surface): seq<Event>
  {
    Stores(0, seq(1024, i => CONTROL_END)) + FrameEvents(0, [Unity(framebuffer, 0, 0, false)])
  }

  /** The second list, at slot 8: background and logo. */
  function LogoPlanes(c: Config, b: Boot): seq<Plane>
  {
    [Unity(b.framebuffer, 0, 0, false),
     Scaled(c.fb, c.width / 2 - c.fb.width / 2, 0, false, SPRITE_SIZE, SPRITE_SIZE, NextLayers(b.layers))]
  }

  /** The state in which the video output starts the demo: every run of the program starts here. */
  function BootState(c: Config, b: Boot): (s: State)
    requires Bootable(c, b)
    ensures s.items == b.items
  {
    var ps := LogoPlanes(c, b);
    State(Apply(Apply(b.before, BackgroundEvents(b.framebuffer)), FrameEvents(8, ps)),
          8 + Len(ps) + 1,
          NextLayers(NextLayers(b.layers) + 1),
          b.items,
          ps)
  }

  lemma BootReady(c: Config, b: Boot)
    requires Bootable(c, b)
    ensures Ready(BootState(c, b)) && BootState(c, b).screen.list1 == 8
    ensures BootState(c, b).slot == 16 + SpriteLen(c.fb)
  {
    hide Scalable, Encode, Apply, PlaneLen, ListAt, BackgroundEvents, FrameEvents;
    var ps := LogoPlanes(c, b);
    LenOfTwo(ps[0], ps[1]);
    LogoLen(c, b);
    FrameShows(Apply(b.before, BackgroundEvents(b.framebuffer)), 8, ps);
  }

  lemma LenOfTwo(p: Plane, q: Plane)
    ensures Len([p, q]) == PlaneLen(p) + PlaneLen(q)
  {
    hide PlaneLen;
    assert [p, q][..1] == [p] && [p][..0] == [];
    assert Len([p]) == Len([p][..0]) + PlaneLen(p);
  }

  lemma LogoLen(c: Config, b: Boot)
    ensures PlaneLen(LogoPlanes(c, b)[0]) == 7 && PlaneLen(LogoPlanes(c, b)[1]) == SpriteLen(c.fb)
  {
  }

  // The safe limit cannot be raised.

  /** No run of the program with sprite limits up to `limit` ever tears the list on display. */
  ghost predicate SafeFor(limit: nat)
  {
    forall c: Config, b: Boot, limits: seq<nat>, k: nat | Bootable(c, b) ::
      var s := BootState(c, b);
      && RunnableAll(c, s, limits)
      && (forall j :: 0 <= j < |limits| ==> limits[j] <= limit)
      && k <= |RunEvents(c, s, limits)|
      ==> Intact(Apply(s.screen, RunEvents(c, s, limits)[..k]), ShownAfter(c, s, limits, k))
  }

  /** All runs of the program with limits up to `limit` are safe if and only if `limit` is at most 97. */
  lemma SafeExactlyUpTo97(limit: nat)
    ensures SafeFor(limit) <==> limit <= SAFE_LIMIT
  {
    hide Intact, Apply, Ready, RunEvents, ShownAfter, RunnableAll, BootState, Bootable;
    if limit <= SAFE_LIMIT {
      forall c: Config, b: Boot, limits: seq<nat>, k: nat
        | Bootable(c, b)
          && RunnableAll(c, BootState(c, b), limits) && (forall j :: 0 <= j < |limits| ==> limits[j] <= limit)
          && k <= |RunEvents(c, BootState(c, b), limits)|
        ensures var s := BootState(c, b);
                Intact(Apply(s.screen, RunEvents(c, s, limits)[..k]), ShownAfter(c, s, limits, k))
      {
        BootReady(c, b);
        RunNeverTears(c, BootState(c, b), limits, k);
      }
    } else {
      var c, b, limits, k := TornRun();
      BlankIsTorn(Apply(BootState(c, b).screen, RunEvents(c, BootState(c, b), limits)[..k]),
                  ShownAfter(c, BootState(c, b), limits, k));
    }
  }

  /** The display finds an END word where its list should start: nothing at all is shown. */
  ghost predicate Blank(t: Screen)
  {
    Walk(t.mem, t.list1, MEMORY_WORDS) == Dump([], AtEnd(t.list1))
  }

  lemma BlankIsTorn(t: Screen, shown: seq<Plane>)
    requires Blank(t) && shown != []
    ensures !Intact(t, shown)
  {
    hide Walk, Expected, Len;
  }

  /** From the start of the demo: the fifth list starts over and runs into the fourth, which is on display. */
  lemma TornRun() returns (c: Config, b: Boot, limits: seq<nat>, k: nat)
    ensures Bootable(c, b) && limits == [98, 98, 97, 98, 98]
    ensures var s := BootState(c, b);
            && RunnableAll(c, s, limits) && k <= |RunEvents(c, s, limits)|
            && Blank(Apply(s.screen, RunEvents(c, s, limits)[..k]))
            && |ShownAfter(c, s, limits, k)| == 98
  {
    hide Blank, Apply, EventsOf, Ready, Frame, Scalable, SpriteLen, Walk;
    c := Config(Surface(493, 620, 493, 4, 0, Argb8888), 720, 480);
    b := Boot(Screen(seq(MEMORY_WORDS, _ => 0), 0), 0, c.fb, seq(ITEMS, _ => Item(0, 0, 0, 0)));
    LogoSize(c.fb);
    BootReady(c, b);
    hide BootState;
    limits, k := FifthTears(c, BootState(c, b));
  }

  /** The logo is shrunk both ways. */
  lemma LogoSize(fb: Surface)
    requires fb.width == 493 && fb.height == 620
    ensures Scalable(fb, SPRITE_SIZE, SPRITE_SIZE) && SpriteLen(fb) == SPRITE_WORDS
  {
    assert TpzScale(493, 100) == 323092;
    assert TpzScale(620, 100) == 406323;
  }

  lemma FifthTears(c: Config, s: State) returns (limits: seq<nat>, k: nat)
    requires SpriteLen(c.fb) == SPRITE_WORDS && |s.screen.mem| == MEMORY_WORDS && s.slot == 30
    requires Scalable(c.fb, SPRITE_SIZE, SPRITE_SIZE) && |s.items| == ITEMS
    ensures limits == [98, 98, 97, 98, 98] && RunnableAll(c, s, limits) && k <= |RunEvents(c, s, limits)|
    ensures Blank(Apply(s.screen, RunEvents(c, s, limits)[..k])) && |ShownAfter(c, s, limits, k)| == 98
  {
    hide Blank, Apply, EventsOf, Frame, Scalable, SpriteLen, Walk, RunEvents, RunState, ShownAfter;
    var four: seq<nat> := [98, 98, 97, 98];
    FourthOnDisplay(c, s);
    var s4 := RunState(c, s, four);
    var m := OverwrittenHeader(c, s4);
    k := |RunEvents(c, s, four)| + m;
    RunTail(c, s, four, 98, m);
    limits := four + [98];
  }

  /** The last frame of a run, after `k` of its events. */
  lemma RunTail(c: Config, s: State, limits: seq<nat>, n: nat, k: nat)
    requires RunnableAll(c, s, limits) && n <= |s.items| && |RunState(c, s, limits).items| == |s.items|
    requires k < |EventsOf(c, RunState(c, s, limits), n)|
    ensures RunnableAll(c, s, limits + [n])
    ensures var t, at := RunState(c, s, limits), |RunEvents(c, s, limits)| + k;
            && at <= |RunEvents(c, s, limits + [n])|
            && ShownAfter(c, s, limits + [n], at) == t.shown
            && Apply(s.screen, RunEvents(c, s, limits + [n])[..at]) == Apply(t.screen, EventsOf(c, t, n)[..k])
  {
    hide EventsOf, Frame, Apply, Scalable;
    var t, es := RunState(c, s, limits), RunEvents(c, s, limits);
    RunInTwo(c, s, limits, [n], k);
    assert RunEvents(c, t, [n]) == EventsOf(c, t, n) + RunEvents(c, Frame(c, t, n), []);
    assert RunEvents(c, s, limits + [n])[..|es| + k] == es + EventsOf(c, t, n)[..k];
    ApplyConcat(s.screen, es, EventsOf(c, t, n)[..k]);
  }

  /** Four frames on: lists at 30 and 1403, an early wrap, a list at 0, and the one on display at 1359. */
  lemma FourthOnDisplay(c: Config, s: State)
    requires SpriteLen(c.fb) == SPRITE_WORDS && |s.screen.mem| == MEMORY_WORDS && s.slot == 30
    requires Scalable(c.fb, SPRITE_SIZE, SPRITE_SIZE) && |s.items| == ITEMS
    ensures var t := RunState(c, s, [98, 98, 97, 98]);
            && t.slot == 2732 && t.screen.list1 == 1359 && |t.shown| == 98
            && |t.screen.mem| == MEMORY_WORDS && |t.items| == ITEMS
  {
    hide Frame, Scalable, SpriteLen;
    var l1: seq<nat>, l2: seq<nat>, l3: seq<nat>, l4: seq<nat> := [98, 98, 97, 98], [98, 97, 98], [97, 98], [98];
    assert l1[1..] == l2 && l2[1..] == l3 && l3[1..] == l4 && l4[1..] == [];
    var s1 := Frame(c, s, 98);
    SlotAfter(c, s, 98);
    var s2 := Frame(c, s1, 98);
    SlotAfter(c, s1, 98);
    var s3 := Frame(c, s2, 97);
    SlotAfter(c, s2, 97);
    SlotAfter(c, s3, 98);
    assert RunState(c, s3, l4) == RunState(c, Frame(c, s3, 98), []) == Frame(c, s3, 98);
    assert RunState(c, s2, l3) == RunState(c, s3, l4);
    assert RunState(c, s1, l2) == RunState(c, s2, l3);
  }

  lemma SlotAfter(c: Config, s: State, n: nat)
    requires Runnable(c, s, n) && SpriteLen(c.fb) == SPRITE_WORDS && |s.screen.mem| == MEMORY_WORDS
    requires n * SPRITE_WORDS + 1 <= MEMORY_WORDS
    ensures Frame(c, s, n).slot == NextSlot(FrameStart(s.slot, n) + n * SPRITE_WORDS + 1)
    ensures Frame(c, s, n).screen.list1 == FrameStart(s.slot, n) && |Frame(c, s, n).screen.mem| == MEMORY_WORDS
    ensures |Frame(c, s, n).shown| == n && |Frame(c, s, n).items| == |s.items|
  {
    hide SpriteLen, Len, Encode, AllDrawable, FrameEvents, FramePlanes, Apply;
    FramePlanesLen(MovedItems(s.items, n, c), n, c.fb, s.layers);
    FrameShows(s.screen, FrameStart(s.slot, n), NewPlanes(c, s, n));
  }

  /** Some event of the next frame overwrites the header the display starts at. */
  lemma OverwrittenHeader(c: Config, s: State) returns (m: nat)
    requires Runnable(c, s, 98) && SpriteLen(c.fb) == SPRITE_WORDS && |s.screen.mem| == MEMORY_WORDS
    requires s.slot == 2732 && s.screen.list1 == 1359
    ensures m < |EventsOf(c, s, 98)| && Blank(Apply(s.screen, EventsOf(c, s, 98)[..m]))
  {
    hide SpriteLen, Encode, PlaneLen, PlaneEvents, Blank;
    var items := MovedItems(s.items, 98, c);
    var ps := NewPlanes(c, s, 98);
    FramePlanesLen(items, 97, c.fb, s.layers);
    assert ps[..97] == FramePlanes(items, 97, c.fb, s.layers);
    hide FramePlanes, Len;
    var es97, last := ListEvents(0, ps[..97]), PlaneEvents(1358, ps[97]);
    assert ListEvents(0, ps) == es97 + last;
    ListEventsWithin(0, ps);
    hide ListEvents;
    m := |es97| + 2;
    FirstStores(1358, ps[97]);
    var es := EventsOf(c, s, 98);
    assert es[m - 1] == last[1];
    assert StoresWithin(es[..m], 0, MEMORY_WORDS);
    Position0Fields(ps[97].x, ps[97].y);
    HeaderLost(s.screen, es[..m], Position0(ps[97].x, ps[97].y));
  }

  lemma HeaderLost(s: Screen, es: seq<Event>, w: word)
    requires |s.mem| == MEMORY_WORDS && s.list1 == 1359
    requires StoresWithin(es, 0, MEMORY_WORDS) && |es| > 0 && es[|es| - 1] == Store(1359, w)
    requires Field(w, 31, 1) == 1
    ensures Blank(Apply(s, es))
  {
    hide Field;
    var before := es[..|es| - 1];
    StoresOutside(s, before, 0, MEMORY_WORDS, MEMORY_WORDS, MEMORY_WORDS);
    assert Apply(s, es).mem[1359] == w;
  }

  lemma FirstStores(at: nat, p: Plane)
    requires Drawable(p)
    ensures |PlaneEvents(at, p)| > 2 && PlaneEvents(at, p)[1] == Store(at + 1, Position0(p.x, p.y))
  {
    hide Position0, FirstHeader, Header, ScalingWords, Position1, Position2;
  }

  // Positions.

  /** Where a sprite may start: on the screen, or mirrored off it by less than a screen; and not too fast. */
  predicate Started(it: Item, c: Config)
  {
    && 5 - c.width <= it.x <= c.width && -5 <= it.xd <= 5
    && 5 - c.height <= it.y <= c.height && -5 <= it.yd <= 5
  }

  predicate OnScreen(it: Item, c: Config)
  {
    0 <= it.x <= c.width && 0 <= it.y <= c.height
  }

  predicate AllStarted(s: State, c: Config)
  {
    forall i :: 0 <= i < |s.items| ==> Started(s.items[i], c)
  }

  lemma MotionStays(pos: int, speed: int, size: int)
    requires size >= 5 && 5 - size <= pos <= size && -5 <= speed <= 5
    ensures 0 <= Motion(pos, speed, size).0 <= size && -5 <= Motion(pos, speed, size).1 <= 5
  {
  }

  /** A sprite that bounces: inside the screen, or just carried over its right or lower edge by its own speed. */
  predicate Inside(pos: int, speed: int, size: int)
  {
    0 <= pos <= size - SPRITE_SIZE + (if speed > 0 then speed else 0) && -5 <= speed <= 5
  }

  predicate ItemInside(it: Item, c: Config)
  {
    Inside(it.x, it.xd, c.width) && Inside(it.y, it.yd, c.height)
  }

  /** Such a sprite bounces for ever: it overhangs the edge by at most five pixels, for one frame, and turns back. */
  lemma MotionBounces(pos: int, speed: int, size: int)
    requires Inside(pos, speed, size) && size >= SPRITE_SIZE + 5
    ensures var (pos', speed') := Motion(pos, speed, size);
            && Inside(pos', speed', size)
            && (pos > size - SPRITE_SIZE ==> pos' <= size - SPRITE_SIZE && speed' < 0)
            && (speed' == speed || speed' == -speed)
  {
  }

  /** Where a sprite may be launched: as inside, or mirrored off the left or upper edge, with a margin. */
  predicate Launched(pos: int, speed: int, size: int)
  {
    && SPRITE_SIZE + 5 - size <= pos <= size - SPRITE_SIZE + (if speed > 0 then speed else 0)
    && -5 <= speed <= 5
  }

  predicate ItemLaunched(it: Item, c: Config)
  {
    Launched(it.x, it.xd, c.width) && Launched(it.y, it.yd, c.height)
  }

  /** One frame brings a launched sprite inside. */
  lemma MotionLaunches(pos: int, speed: int, size: int)
    requires Launched(pos, speed, size) && size >= SPRITE_SIZE + 5
    ensures Inside(Motion(pos, speed, size).0, Motion(pos, speed, size).1, size)
  {
  }

  lemma InsideLaunched(pos: int, speed: int, size: int)
    requires Inside(pos, speed, size) && size >= SPRITE_SIZE + 5
    ensures Launched(pos, speed, size)
  {
  }

  /**
   How such a sprite moves, edge by edge: its speed keeps its size and turns back only over an edge; it moves by its
   new speed, except where it is reflected at the left or upper edge.
   */
  lemma MotionLaw(pos: int, speed: int, size: int)
    requires Launched(pos, speed, size) && size >= SPRITE_SIZE + 5
    ensures var (pos', speed') := Motion(pos, speed, size);
            && (speed' == speed || speed' == -speed)
            && (speed' == speed <==> speed == 0 || (pos <= size - 100 && pos + speed >= 0))
            && (pos' - pos == speed' || pos' + pos == speed')
            && (pos' - pos == speed' <==> pos == 0 || pos > size - 100 || pos + speed >= 0)
  {
  }

  /**
   Every other start as well: free motion, reflection at the near edge, turning back at the far one; and a sprite beyond
   the far edge that already heads back is turned the wrong way, and past the edge comes in again on the other side.
   */
  lemma MotionEdges(pos: int, speed: int, size: int)
    ensures pos <= size - 100 && 0 <= pos + speed <= size ==> Motion(pos, speed, size) == (pos + speed, speed)
    ensures pos <= size - 100 && -size <= pos + speed < 0 ==> Motion(pos, speed, size) == (-(pos + speed), -speed)
    ensures pos > size - 100 && 0 <= pos - speed <= size ==> Motion(pos, speed, size) == (pos - speed, -speed)
    ensures pos > size - 100 && 0 <= size < pos - speed ==> Motion(pos, speed, size) == (pos - speed - size, speed)
  {
  }

  /** A speed keeps its size, wherever the sprite is. */
  lemma MotionKeepsSpeed(pos: int, speed: int, size: int)
    ensures Motion(pos, speed, size).1 == speed || Motion(pos, speed, size).1 == -speed
  {
  }

  ghost predicate Roomy(c: Config)
  {
    c.width >= SPRITE_SIZE + 5 && c.height >= SPRITE_SIZE + 5
  }

  ghost predicate AllLaunched(s: State, c: Config)
  {
    forall i :: 0 <= i < |s.items| ==> ItemLaunched(s.items[i], c)
  }

  /** The sprites that a frame moves are inside afterwards, and those inside before stay so. */
  lemma FrameBounces(c: Config, s: State, n: nat)
    requires Runnable(c, s, n) && Roomy(c) && AllLaunched(s, c)
    ensures AllLaunched(Frame(c, s, n), c)
    ensures forall i :: 0 <= i < |s.items| && (i < n || ItemInside(s.items[i], c)) ==>
              ItemInside(Frame(c, s, n).items[i], c)
  {
    hide Inside, Launched, Motion, Apply, FrameEvents, Len;
    forall i | 0 <= i < |s.items|
      ensures ItemLaunched(Frame(c, s, n).items[i], c)
      ensures i < n || ItemInside(s.items[i], c) ==> ItemInside(Frame(c, s, n).items[i], c)
    {
      var it, it' := s.items[i], Frame(c, s, n).items[i];
      assert ItemLaunched(it, c);
      MotionLaunches(it.x, it.xd, c.width);
      MotionLaunches(it.y, it.yd, c.height);
      if i < n {
        InsideLaunched(it'.x, it'.xd, c.width);
        InsideLaunched(it'.y, it'.yd, c.height);
      }
    }
  }

  /** In every run, a sprite that some frame has shown bounces inside the screen from then on. */
  lemma {:induction false} RunBounces(c: Config, s: State, limits: seq<nat>)
    requires RunnableAll(c, s, limits) && Roomy(c) && AllLaunched(s, c)
    ensures var t := RunState(c, s, limits);
            && |t.items| == |s.items|
            && AllLaunched(t, c)
            && forall i :: 0 <= i < |s.items| && (ItemInside(s.items[i], c) || DrawnBy(limits, i)) ==>
                 ItemInside(t.items[i], c)
    decreases |limits|
  {
    hide Frame, ItemInside, ItemLaunched, Scalable;
    if limits != [] {
      var s', rest := Frame(c, s, limits[0]), limits[1..];
      FrameBounces(c, s, limits[0]);
      RunBounces(c, s', rest);
      forall i | 0 <= i < |s.items| && DrawnBy(limits, i)
        ensures i < limits[0] || DrawnBy(rest, i)
      {
        var k :| 0 <= k < |limits| && i < limits[k];
        assert k > 0 ==> rest[k - 1] == limits[k];
      }
    }
  }

  ghost predicate DrawnBy(limits: seq<nat>, i: int)
  {
    exists k :: 0 <= k < |limits| && i < limits[k]
  }

  /** How many frames of a run show sprite `i`. */
  function Draws(limits: seq<nat>, i: nat): nat
  {
    if limits == [] then 0 else (if i < limits[0] then 1 else 0) + Draws(limits[1..], i)
  }

  /** A position after `k` frames of free motion. */
  function At(pos: int, speed: int, k: nat): int
  {
    pos + k * speed
  }

  /** No edge is met in frame `k` of free motion. */
  predicate FreeFrame(pos: int, speed: int, size: int, k: nat)
  {
    At(pos, speed, k) <= size - SPRITE_SIZE && 0 <= At(pos, speed, k + 1) <= size
  }

  ghost predicate Free(pos: int, speed: int, size: int, n: nat)
  {
    forall k: nat :: k < n ==> FreeFrame(pos, speed, size, k)
  }

  lemma AtNext(pos: int, speed: int, k: nat)
    ensures At(pos, speed, k + 1) == At(pos + speed, speed, k)
  {
    MulNext(k + 1, speed);
  }

  lemma FreeNext(pos: int, speed: int, size: int, n: nat)
    requires n > 0 && Free(pos, speed, size, n)
    ensures Motion(pos, speed, size) == (pos + speed, speed)
    ensures Free(pos + speed, speed, size, n - 1)
  {
    assert FreeFrame(pos, speed, size, 0);
    hide At;
    var next := pos + speed;
    forall k: nat | k < n - 1
      ensures FreeFrame(next, speed, size, k)
    {
      assert FreeFrame(pos, speed, size, k + 1);
      AtNext(pos, speed, k);
      AtNext(pos, speed, k + 1);
    }
  }

  /**
   A sprite that meets no edge moves on by its speed in each frame that shows it, and in no other, at unchanged speed.
   */
  lemma {:induction false} RunGlides(c: Config, s: State, limits: seq<nat>, i: nat)
    requires RunnableAll(c, s, limits) && i < |s.items|
    requires var it, n := s.items[i], Draws(limits, i);
             Free(it.x, it.xd, c.width, n) && Free(it.y, it.yd, c.height, n)
    ensures |RunState(c, s, limits).items| == |s.items|
    ensures var it, n := s.items[i], Draws(limits, i);
            RunState(c, s, limits).items[i] == Item(it.x + n * it.xd, it.y + n * it.yd, it.xd, it.yd)
    decreases |limits|
  {
    hide Scalable, Frame, Free, Motion, At;
    var it := s.items[i];
    AtDone(it, Draws(limits, i));
    if limits != [] {
      var s', rest := Frame(c, s, limits[0]), limits[1..];
      FrameItem(c, s, limits[0], i);
      if i < limits[0] {
        FreeNext(it.x, it.xd, c.width, Draws(limits, i));
        FreeNext(it.y, it.yd, c.height, Draws(limits, i));
        AtNext(it.x, it.xd, Draws(rest, i));
        AtNext(it.y, it.yd, Draws(rest, i));
        AtDone(s'.items[i], Draws(rest, i));
      }
      RunGlides(c, s', rest, i);
    }
  }

  lemma AtDone(it: Item, n: nat)
    ensures At(it.x, it.xd, n) == it.x + n * it.xd && At(it.y, it.yd, n) == it.y + n * it.yd
    ensures n == 0 ==> At(it.x, it.xd, n) == it.x && At(it.y, it.yd, n) == it.y
  {
  }

  lemma FrameItem(c: Config, s: State, n: nat, i: nat)
    requires Runnable(c, s, n) && i < |s.items|
    ensures Frame(c, s, n).items[i] ==
              if i < n then
                Item(Motion(s.items[i].x, s.items[i].xd, c.width).0, Motion(s.items[i].y, s.items[i].yd, c.height).0,
                     Motion(s.items[i].x, s.items[i].xd, c.width).1, Motion(s.items[i].y, s.items[i].yd, c.height).1)
              else s.items[i]
  {
    hide Motion, Apply, FrameEvents, Len;
  }

  /** No run changes how fast a sprite moves, along either axis, wherever it started. */
  lemma {:induction false} RunKeepsSpeeds(c: Config, s: State, limits: seq<nat>, i: nat)
    requires RunnableAll(c, s, limits) && i < |s.items|
    ensures |RunState(c, s, limits).items| == |s.items|
    ensures var it, it' := s.items[i], RunState(c, s, limits).items[i];
            (it'.xd == it.xd || it'.xd == -it.xd) && (it'.yd == it.yd || it'.yd == -it.yd)
    decreases |limits|
  {
    hide Scalable, Frame, Motion;
    if limits != [] {
      FrameItem(c, s, limits[0], i);
      MotionKeepsSpeed(s.items[i].x, s.items[i].xd, c.width);
      MotionKeepsSpeed(s.items[i].y, s.items[i].yd, c.height);
      RunKeepsSpeeds(c, Frame(c, s, limits[0]), limits[1..], i);
    }
  }

  /**
   After a frame every sprite it moved is on the screen, the conditions for the next frame hold again, and the
   published list decodes to exactly the sprites' positions, in sprite order.
   */
  lemma FrameShowsPositions(c: Config, s: State, n: nat)
    requires Runnable(c, s, n) && Fits(n, c.fb) && |s.screen.mem| == MEMORY_WORDS
    requires 5 <= c.width <= 0xfff && 5 <= c.height <= 0xfff && AllStarted(s, c)
    ensures AllStarted(Frame(c, s, n), c) && ShowsPositions(Frame(c, s, n), c, n)
  {
    hide SpriteLen, Len, Encode, Motion, Apply, Walk, Expected, FrameEvents;
    var t := Frame(c, s, n);
    forall i | 0 <= i < |s.items| && i < n
      ensures Started(t.items[i], c) && OnScreen(t.items[i], c)
    {
      assert Started(s.items[i], c);
      MotionStays(s.items[i].x, s.items[i].xd, c.width);
      MotionStays(s.items[i].y, s.items[i].yd, c.height);
    }
    assert AllStarted(t, c);
    FramePublished(c, s, n);
    hide Frame;
    ExpectedEntries(t.shown, t.screen.list1, MEMORY_WORDS);
    forall i | 0 <= i < n
      ensures Expected(t.shown, t.screen.list1, MEMORY_WORDS).entries[i].x == t.items[i].x
      ensures Expected(t.shown, t.screen.list1, MEMORY_WORDS).entries[i].y == t.items[i].y
      ensures IsSprite(Expected(t.shown, t.screen.list1, MEMORY_WORDS).entries[i], c.fb)
    {
      EntryFits(t.shown[i], Offset(t.screen.list1, t.shown, i));
      SpriteEntry(t.items[i], c.fb, s.layers + i, Offset(t.screen.list1, t.shown, i));
    }
  }

  /** The dump of a plane of the bitmap, 100 by 100 on the screen, not flipped. */
  predicate IsSprite(e: Entry, fb: Surface)
  {
    && !e.unity && !e.hflip && e.word1 == 0x64_0064
    && e.width == fb.width % 0x1_0000 && e.height == fb.height % 0x1000
    && e.ptr == 0x8000_0000 + fb.ptr % 0x8000_0000
  }

  /** The published list decodes to the positions of the first `n` sprites, all of them on the screen. */
  ghost predicate ShowsPositions(t: State, c: Config, n: nat)
  {
    var dump := Walk(t.screen.mem, t.screen.list1, MEMORY_WORDS);
    && n <= |t.items| && |dump.entries| == n
    && forall i :: 0 <= i < n ==>
         && OnScreen(t.items[i], c)
         && dump.entries[i].x == t.items[i].x
         && dump.entries[i].y == t.items[i].y
         && IsSprite(dump.entries[i], c.fb)
  }

  /** So in every run, however the limit changes, the sprites on display are on the screen and where the list says. */
  lemma {:induction false} RunShowsPositions(c: Config, s: State, limits: seq<nat>)
    requires RunnableAll(c, s, limits) && |s.screen.mem| == MEMORY_WORDS && limits != []
    requires forall k :: 0 <= k < |limits| ==> Fits(limits[k], c.fb)
    requires 5 <= c.width <= 0xfff && 5 <= c.height <= 0xfff && AllStarted(s, c)
    ensures ShowsPositions(RunState(c, s, limits), c, limits[|limits| - 1])
    decreases |limits|
  {
    hide Frame, Fits, ShowsPositions, AllStarted, Scalable;
    var n, rest := limits[0], limits[1..];
    FrameShowsPositions(c, s, n);
    if rest == [] {
      assert RunState(c, Frame(c, s, n), rest) == Frame(c, s, n);
    } else {
      assert RunnableAll(c, Frame(c, s, n), rest);
      RunShowsPositions(c, Frame(c, s, n), rest);
    }
  }

  lemma SpriteEntry(it: Item, fb: Surface, layer: nat, at: nat)
    ensures IsSprite(EntryOf(SpritePlane(it, fb, layer), at), fb)
  {
    hide Or, PlaneLen, ScalerMode, Pitch, Position1;
    PointerBits(fb.ptr);
    Position1Value(SPRITE_SIZE, SPRITE_SIZE);
  }

  lemma FramePublished(c: Config, s: State, n: nat)
    requires Runnable(c, s, n) && Fits(n, c.fb) && |s.screen.mem| == MEMORY_WORDS
    ensures var t := Frame(c, s, n);
            && t.screen.list1 + Len(t.shown) < MEMORY_WORDS
            && |t.shown| == n
            && Walk(t.screen.mem, t.screen.list1, MEMORY_WORDS) == Expected(t.shown, t.screen.list1, MEMORY_WORDS)
            && forall i :: 0 <= i < n ==> t.shown[i] == SpritePlane(t.items[i], c.fb, s.layers + i)
  {
    hide SpriteLen, Len, Encode, AllDrawable, FrameEvents, Apply, Walk, Expected;
    var ps := NewPlanes(c, s, n);
    FramePlanesLen(MovedItems(s.items, n, c), n, c.fb, s.layers);
    MulBound(n, SpriteLen(c.fb));
    FrameShows(s.screen, FrameStart(s.slot, n), ps);
    WalkShowsList(Frame(c, s, n).screen.mem, FrameStart(s.slot, n), ps, MEMORY_WORDS);
  }
}
