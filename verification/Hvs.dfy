/** The hardware video scaler driver: the list memory, the writers that append to it, and the dump command. */
module Hvs {
  import opened Bits
  import opened DisplayList
  import opened ListStores
  import opened ListWalk

  const DUMP_WINDOW := 64

  class Scaler {
    const dlist: array<word>
    var displaySlot: nat
    var scaledLayers: nat
    /** The register `SCALER_DISPLIST1`. */
    var displist1: nat

    /** Every store to the list memory and every publication since `boot`, in order. */
    ghost var log: seq<Event>
    ghost const boot: Screen

    ghost function Now(): Screen
      reads this`displist1, dlist
    {
      Screen(dlist[..], displist1)
    }

    ghost predicate Valid()
      reads this`displist1, this`log, dlist
    {
      dlist.Length == MEMORY_WORDS && Now() == Apply(boot, log)
    }

    constructor (memory: array<word>, list1: nat)
      requires memory.Length == MEMORY_WORDS
      ensures Valid() && dlist == memory && displaySlot == scaledLayers == 0 && displist1 == list1 && log == []
    {
      dlist := memory;
      displaySlot, scaledLayers, displist1 := 0, 0, list1;
      boot := Screen(memory[..], list1);
      log := [];
    }

    /** `dlist_memory[display_slot++] = value` */
    method Emit(value: word)
      requires Valid() && displaySlot < MEMORY_WORDS
      modifies this`displaySlot, this`log, dlist
      ensures Valid()
      ensures displaySlot == old(displaySlot) + 1
      ensures log == old(log) + [Store(old(displaySlot), value)]
    {
      StepLog(Store(displaySlot, value));
      dlist[displaySlot] := value;
      log := log + [Store(displaySlot, value)];
      displaySlot := displaySlot + 1;
    }

    method Patch(addr: nat, value: word)
      requires Valid() && addr < MEMORY_WORDS
      modifies this`log, dlist
      ensures Valid()
      ensures log == old(log) + [Store(addr, value)]
    {
      StepLog(Store(addr, value));
      dlist[addr] := value;
      log := log + [Store(addr, value)];
    }

    method PublishList(start: nat)
      requires Valid()
      modifies this`displist1, this`log
      ensures Valid() && displist1 == start
      ensures log == old(log) + [Publish(start)]
    {
      StepLog(Publish(start));
      displist1 := start;
      log := log + [Publish(start)];
    }

    lemma StepLog(e: Event)
      requires Valid()
      ensures Apply(boot, log + [e]) == Step(Now(), e)
    {
      ApplyConcat(boot, log, [e]);
      ApplyOne(Now(), e);
    }

    lemma Replayed(before: seq<Event>, es: seq<Event>)
      requires Valid() && log == before + es
      ensures Now() == Apply(Apply(boot, before), es)
    {
      ApplyConcat(boot, before, es);
    }

    /** The memory holds what the latest stores put there. */
    lemma LatestStores(before: seq<Event>, at: nat, ws: seq<word>)
      requires Valid() && at + |ws| <= MEMORY_WORDS && log == before + Stores(at, ws)
      ensures dlist.Length == MEMORY_WORDS && dlist[at..at + |ws|] == ws
    {
      ApplyConcat(boot, before, Stores(at, ws));
      StoresSplice(Apply(boot, before), at, ws);
      SpliceRead(Apply(boot, before).mem, at, ws);
      assert dlist[..][at..at + |ws|] == dlist[at..at + |ws|];
    }

    method AddPlane(fb: Surface, x: int, y: int, hflip: bool)
      requires Valid() && displaySlot + 7 <= MEMORY_WORDS
      modifies this`displaySlot, this`log, dlist
      ensures Valid()
      ensures displaySlot == old(displaySlot) + 7
      ensures log == old(log) + PlaneEvents(old(displaySlot), Unity(fb, x, y, hflip))
    {
      hide Or32, UnityHeader, Position0, Position2, Pitch, Apply, Valid;
      ghost var p := Unity(fb, x, y, hflip);
      Emit(UnityHeader(fb, hflip));
      Emit(Position0(x, y));
      Emit(Position2(fb));
      Emit(DUMMY);
      Emit(Or32(fb.ptr, 0xc000_0000));
      Emit(DUMMY);
      Emit(Pitch(fb));
      assert log == old(log) + Stores(old(displaySlot), [FirstHeader(p)] + Payload(p));
    }

    method WriteTpz(source: word, dest: word)
      requires Valid() && displaySlot + 2 <= MEMORY_WORDS && TpzDefined(source, dest)
      modifies this`displaySlot, this`log, dlist
      ensures Valid()
      ensures displaySlot == old(displaySlot) + 2
      ensures log == old(log) + Stores(old(displaySlot), TpzWords(source, dest))
    {
      hide Apply, Valid;
      var scale: word := 0x1_0000 * source % TWO32 / dest;
      var recip: word := (TWO32 - 1) / scale;
      Emit(Shl32(scale, 8));
      Emit(recip);
    }

    /** The scaling words that end a scaled plane. */
    method WriteScaling(fb: Surface, width: word, height: word)
      requires Valid() && Scalable(fb, width, height)
      requires displaySlot + |ScalingWords(fb, width, height)| <= MEMORY_WORDS
      modifies this`displaySlot, this`log, dlist
      ensures Valid()
      ensures displaySlot == old(displaySlot) + |ScalingWords(fb, width, height)|
      ensures log == old(log) + Stores(old(displaySlot), ScalingWords(fb, width, height))
    {
      hide Apply, Valid;
      if fb.width > width {
        WriteTpz(fb.width, width);
      }
      if fb.height > height {
        WriteTpz(fb.height, height);
        Emit(DUMMY);
      }
    }

    /** The nine words every scaled plane starts with. */
    method WriteScaledHead(fb: Surface, x: int, y: int, width: word, height: word, hflip: bool)
      requires Valid() && displaySlot + 9 <= MEMORY_WORDS
      modifies this`displaySlot, this`scaledLayers, this`log, dlist
      ensures Valid()
      ensures displaySlot == old(displaySlot) + 9
      ensures scaledLayers == old(scaledLayers) + 1
      ensures log == old(log) + Stores(old(displaySlot), [OpenHeader(fb, width, height, hflip)]
                                       + ScaledPayload(fb, x, y, width, height, old(scaledLayers)))
    {
      hide Or32, OpenHeader, Position0, Position1, Position2, Pitch, Apply, Valid;
      Emit(OpenHeader(fb, width, height, hflip));
      Emit(Position0(x, y));
      Emit(Position1(width, height));
      Emit(Position2(fb));
      Emit(DUMMY);
      Emit(Or32(fb.ptr, 0x8000_0000));
      Emit(DUMMY);
      Emit(Pitch(fb));
      Emit(scaledLayers * 720 % TWO32);
      scaledLayers := scaledLayers + 1;
    }

    method AddPlaneScaled(fb: Surface, x: int, y: int, width: word, height: word, hflip: bool)
      requires Valid() && Scalable(fb, width, height)
      requires displaySlot + PlaneLen(Scaled(fb, x, y, hflip, width, height, scaledLayers)) <= MEMORY_WORDS
      modifies this`displaySlot, this`scaledLayers, this`log, dlist
      ensures Valid()
      ensures scaledLayers == old(scaledLayers) + 1
      ensures var p := Scaled(fb, x, y, hflip, width, height, old(scaledLayers));
              && displaySlot == old(displaySlot) + PlaneLen(p)
              && log == old(log) + PlaneEvents(old(displaySlot), p)
    {
      hide OpenHeader, ClosedHeader, ScaledPayload, ScalingWords, Scalable, Apply, Valid;
      ghost var p := Scaled(fb, x, y, hflip, width, height, scaledLayers);
      ghost var head := [FirstHeader(p)] + ScaledPayload(fb, x, y, width, height, scaledLayers);
      var start := displaySlot;
      WriteScaledHead(fb, x, y, width, height, hflip);
      WriteScaling(fb, width, height);
      ghost var ws := [FirstHeader(p)] + Payload(p);
      assert ws == head + ScalingWords(fb, width, height);
      StoresConcat(start, head, ScalingWords(fb, width, height));
      assert log == old(log) + Stores(start, ws);
      LatestStores(old(log), start, ws);
      assert dlist[start] == dlist[start..start + |ws|][0];
      Patch(start, ClosedHeader(dlist[start], displaySlot - start));
    }

    method TerminateList()
      requires Valid() && displaySlot < MEMORY_WORDS
      modifies this`displaySlot, this`scaledLayers, this`log, dlist
      ensures Valid()
      ensures displaySlot == old(displaySlot) + 1
      ensures scaledLayers == if old(scaledLayers) > 10 then 0 else old(scaledLayers)
      ensures log == old(log) + [Store(old(displaySlot), CONTROL_END)]
    {
      Emit(CONTROL_END);
      if scaledLayers > 10 {
        scaledLayers := 0;
      }
    }

    /** Only the first quarter of the memory is wiped. */
    method WipeDisplayList()
      requires Valid()
      modifies this`displaySlot, this`log, dlist
      ensures Valid()
      ensures displaySlot == 0
      ensures log == old(log) + Stores(0, seq(1024, i => CONTROL_END))
    {
      hide Apply, Valid;
      var i := 0;
      while i < 1024
        invariant 0 <= i <= 1024
        invariant Valid() && log == old(log) + Stores(0, seq(i, j => CONTROL_END))
      {
        Patch(i, CONTROL_END);
        i := i + 1;
      }
      displaySlot := 0;
    }

    /** The list walk of `hvs_dump`: 64 words from the published start, unless an END word comes first. */
    method HvsDump() returns (d: Dump)
      requires dlist.Length == MEMORY_WORDS
      ensures d == Walk(dlist[..], displist1, displist1 + 64)
      ensures Finds(dlist[..], displist1, displist1 + 64, d)
    {
      hide Decode, ReadSpan, Field, And, Shr, Pow2, Finds;
      ghost var mem, end := dlist[..], displist1 + DUMP_WINDOW;
      WalkFinds(mem, displist1, end);
      var entries := [];
      var i := displist1;
      while i < displist1 + DUMP_WINDOW
        invariant displist1 <= i
        invariant Walk(mem, displist1, end).entries == entries + Walk(mem, i, end).entries
        invariant Walk(mem, displist1, end).stop == Walk(mem, i, end).stop
      {
        if i >= dlist.Length {
          return Dump(entries, OffMemory);
        }
        var w := dlist[i];
        HeaderTests(w);
        if And(w, 0x8000_0000) != 0 {
          return Dump(entries, AtEnd(i));
        }
        if And(w, 0x4000_0000) != 0 {
          var words := And(Shr(w, 24), 0x3f);
          if i + ReadSpan(w) > dlist.Length {
            return Dump(entries, OffMemory);
          }
          var entry := DecodeEntry(i, words);
          entries := entries + [entry];
          if words > 1 {
            i := i + (words - 1);
          }
        }
        i := i + 1;
      }
      return Dump(entries, WindowDone);
    }

    /** The fields `hvs_dump` prints for the plane whose header is at `i`. */
    method DecodeEntry(i: nat, words: nat) returns (e: Entry)
      requires dlist.Length == MEMORY_WORDS && i < dlist.Length && i + ReadSpan(dlist[i]) <= dlist.Length
      requires words == Field(dlist[i], 24, 6)
      ensures e == Decode(dlist[..], i)
    {
      hide Field, And, Shr, Pow2;
      var w := dlist[i];
      HeaderReads(w);
      var unity := And(w, 0x10) != 0;
      assert ReadSpan(w) >= if unity then 7 else 8;
      var format, scl0, scl1 := And(w, 0xf), And(Shr(w, 5), 7), And(Shr(w, 8), 7);
      var order, hflip := And(Shr(w, 13), 3), And(w, 0x1_0000) != 0;
      var x := i + 1;
      var position0 := dlist[x];
      PositionReads(position0);
      x := x + 1;
      var word1: word := 0;
      if !unity {
        word1 := dlist[x];
        x := x + 1;
      }
      var position2 := dlist[x];
      PositionReads(position2);
      x := x + 2;
      var pointer0 := dlist[x];
      x := x + 2;
      var pitch0 := dlist[x];
      e := Entry(i, words, format, unity, scl0, scl1, order, hflip,
                 And(position0, 0xfff), And(Shr(position0, 12), 0xfff), word1,
                 And(position2, 0xffff), And(Shr(position2, 16), 0xfff), pointer0, pitch0);
    }
  }

  /** The dump of an intact list is complete exactly when the list is shorter than the window. */
  lemma DumpCompleteIff(mem: seq<word>, list1: nat, ps: seq<Plane>)
    requires ListAt(mem, list1, ps)
    ensures var d := Walk(mem, list1, list1 + 64);
            && (d.stop == AtEnd(list1 + Len(ps)) <==> Len(ps) < 64)
            && (Len(ps) < 64 ==> |d.entries| == |ps|)
            && (Len(ps) < 64 ==>
                  forall k :: 0 <= k < |ps| ==> d.entries[k] == EntryOf(ps[k], Offset(list1, ps, k)))
  {
    hide Walk, Expected, Len, Encode, EntryOf;
    WalkShowsList(mem, list1, ps, list1 + 64);
    ExpectedStop(ps, list1, list1 + 64);
    if Len(ps) < 64 {
      ExpectedEntries(ps, list1, list1 + 64);
    }
  }

  lemma HeaderTests(w: word)
    ensures And(w, 0x8000_0000) != 0 <==> Field(w, 31, 1) == 1
    ensures And(w, 0x4000_0000) != 0 <==> Field(w, 30, 1) == 1
    ensures And(Shr(w, 24), 0x3f) == Field(w, 24, 6)
  {
    hide Field, And, Shr, Pow2;
    PowTable();
    TestBit(w, 31);
    TestBit(w, 30);
    GetField(w, 24, 6);
  }

  lemma HeaderReads(w: word)
    ensures And(w, 0xf) == Field(w, 0, 4) && And(Shr(w, 5), 7) == Field(w, 5, 3) && And(Shr(w, 8), 7) == Field(w, 8, 3)
    ensures And(Shr(w, 13), 3) == Field(w, 13, 2)
    ensures And(w, 0x10) != 0 <==> Field(w, 4, 1) == 1
    ensures And(w, 0x1_0000) != 0 <==> Field(w, 16, 1) == 1
  {
    hide Field, And, Shr, Pow2;
    PowTable();
    ShrNone(w);
    GetField(w, 0, 4);
    GetField(w, 5, 3);
    GetField(w, 8, 3);
    GetField(w, 13, 2);
    TestBit(w, 4);
    TestBit(w, 16);
  }

  lemma PositionReads(w: word)
    ensures And(w, 0xfff) == Field(w, 0, 12) && And(Shr(w, 12), 0xfff) == Field(w, 12, 12)
    ensures And(w, 0xffff) == Field(w, 0, 16) && And(Shr(w, 16), 0xfff) == Field(w, 16, 12)
  {
    hide Field, And, Shr, Pow2;
    PowTable();
    ShrNone(w);
    GetField(w, 0, 12);
    GetField(w, 12, 12);
    GetField(w, 0, 16);
    GetField(w, 16, 12);
  }

  lemma ShrNone(w: word)
    ensures Shr(w, 0) == w
  {
  }
}
