/** The bus events by which a display list is written and published, and what they do to the screen. */
module ListStores {
  import opened Bits
  import opened DisplayList

  datatype Event = Store(addr: nat, value: word) | Publish(start: nat)

  /** What the HVS reads: the list memory, and `SCALER_DISPLIST1`, which says where its list starts. */
  datatype Screen = Screen(mem: seq<word>, list1: nat)

  function Step(s: Screen, e: Event): (t: Screen)
    ensures |t.mem| == |s.mem|
  {
    match e
    case Store(addr, value) => if addr < |s.mem| then s.(mem := s.mem[addr := value]) else s
    case Publish(start) => s.(list1 := start)
  }

  function Apply(s: Screen, es: seq<Event>): (t: Screen)
    ensures |t.mem| == |s.mem|
  {
    if es == [] then s else Step(Apply(s, es[..|es| - 1]), es[|es| - 1])
  }

  function Stores(at: nat, ws: seq<word>): (es: seq<Event>)
    ensures |es| == |ws|
    ensures forall k :: 0 <= k < |ws| ==> es[k] == Store(at + k, ws[k])
  {
    seq(|ws|, k requires 0 <= k < |ws| => Store(at + k, ws[k]))
  }

  /** The header as the first store leaves it: the scaled writer closes it only when all words are out. */
  function FirstHeader(p: Plane): word
  {
    if p.Unity? then Header(p) else OpenHeader(p.fb, p.width, p.height, p.hflip)
  }

  function PlaneEvents(at: nat, p: Plane): seq<Event>
    requires Drawable(p)
  {
    Stores(at, [FirstHeader(p)] + Payload(p)) + (if p.Unity? then [] else [Store(at, Header(p))])
  }

  function ListEvents(at: nat, ps: seq<Plane>): seq<Event>
    requires AllDrawable(ps)
  {
    if ps == [] then []
    else ListEvents(at, ps[..|ps| - 1]) + PlaneEvents(at + Len(ps[..|ps| - 1]), ps[|ps| - 1])
  }

  /** A whole frame: the planes, the END word, and only then the new start. */
  function FrameEvents(at: nat, ps: seq<Plane>): seq<Event>
    requires AllDrawable(ps)
  {
    ListEvents(at, ps) + [Store(at + Len(ps), CONTROL_END)] + [Publish(at)]
  }

  predicate StoresWithin(es: seq<Event>, lo: nat, hi: nat)
  {
    forall k :: 0 <= k < |es| ==> es[k].Store? && lo <= es[k].addr < hi
  }

  function Splice(mem: seq<word>, at: nat, ws: seq<word>): (r: seq<word>)
    requires at + |ws| <= |mem|
    ensures |r| == |mem|
  {
    mem[..at] + ws + mem[at + |ws|..]
  }

  lemma {:induction false} ApplyConcat(s: Screen, a: seq<Event>, b: seq<Event>)
    ensures Apply(s, a + b) == Apply(Apply(s, a), b)
  {
    hide Step;
    if b == [] {
      assert a + b == a;
    } else {
      ApplyConcat(s, a, b[..|b| - 1]);
      assert (a + b)[..|a + b| - 1] == a + b[..|b| - 1];
    }
  }

  /** Stores that stay out of a region leave it, and the published start, alone. */
  lemma {:induction false} StoresOutside(s: Screen, es: seq<Event>, lo: nat, hi: nat, a: nat, b: nat)
    requires StoresWithin(es, lo, hi) && a <= b <= |s.mem| && (hi <= a || b <= lo)
    ensures Apply(s, es).mem[a..b] == s.mem[a..b] && Apply(s, es).list1 == s.list1
  {
    if es != [] {
      StoresOutside(s, es[..|es| - 1], lo, hi, a, b);
    }
  }

  lemma {:induction false} StoresSplice(s: Screen, at: nat, ws: seq<word>)
    requires at + |ws| <= |s.mem|
    ensures Apply(s, Stores(at, ws)) == s.(mem := Splice(s.mem, at, ws))
  {
    var n := |ws|;
    if n > 0 {
      StoresSplice(s, at, ws[..n - 1]);
      assert Stores(at, ws)[..n - 1] == Stores(at, ws[..n - 1]);
      assert Splice(s.mem, at, ws[..n - 1])[at + n - 1 := ws[n - 1]] == Splice(s.mem, at, ws);
    } else {
      assert Splice(s.mem, at, ws) == s.mem;
    }
  }

  lemma StoresConcat(at: nat, a: seq<word>, b: seq<word>)
    ensures Stores(at, a + b) == Stores(at, a) + Stores(at + |a|, b)
  {
  }

  lemma PlaneEventsWrite(s: Screen, at: nat, p: Plane)
    requires Drawable(p) && at + PlaneLen(p) <= |s.mem|
    ensures Apply(s, PlaneEvents(at, p)) == s.(mem := Splice(s.mem, at, Words(p)))
  {
    hide Header, OpenHeader, FirstHeader, Payload, Drawable, PlaneLen;
    var ws := [FirstHeader(p)] + Payload(p);
    StoresSplice(s, at, ws);
    if p.Unity? {
      FirstHeaderUnity(p);
      assert PlaneEvents(at, p) == Stores(at, ws);
    } else {
      ApplyConcat(s, Stores(at, ws), [Store(at, Header(p))]);
      ApplyOne(s.(mem := Splice(s.mem, at, ws)), Store(at, Header(p)));
      assert Splice(s.mem, at, ws)[at := Header(p)] == Splice(s.mem, at, Words(p));
    }
  }

  /** A scaled plane becomes valid with its last store: until then its header is neither a header nor an END word. */
  lemma ValidLast(s: Screen, at: nat, p: Plane, k: nat)
    requires p.Scaled? && Drawable(p) && at + PlaneLen(p) <= |s.mem|
    requires 0 < k < |PlaneEvents(at, p)|
    ensures var w := Apply(s, PlaneEvents(at, p)[..k]).mem[at]; Field(w, 30, 1) == 0 && Field(w, 31, 1) == 0
  {
    hide Header, FirstHeader, Payload, Drawable, PlaneLen, Field, Apply;
    var ws := [FirstHeader(p)] + Payload(p);
    assert |PlaneEvents(at, p)| == |ws| + 1;
    assert PlaneEvents(at, p)[..k] == Stores(at, ws[..k]);
    StoresSplice(s, at, ws[..k]);
    FirstHeaderInvalid(p);
  }

  lemma FirstHeaderInvalid(p: Plane)
    requires p.Scaled?
    ensures Field(FirstHeader(p), 30, 1) == 0 && Field(FirstHeader(p), 31, 1) == 0
  {
    hide Field, OpenHeader, Pow2;
    OpenHeaderValue(p.fb, p.width, p.height, p.hflip);
    PowTable();
    FieldIs(FirstHeader(p), 0, 0, FirstHeader(p), 30, 1, 0x4000_0000, 2);
    FieldIs(FirstHeader(p), 0, 0, FirstHeader(p), 31, 1, 0x8000_0000, 2);
  }

  lemma FirstHeaderUnity(p: Plane)
    ensures p.Unity? ==> FirstHeader(p) == Header(p)
  {
  }

  lemma ApplyOne(s: Screen, e: Event)
    ensures Apply(s, [e]) == Step(s, e)
  {
    assert [e][..0] == [];
  }

  /** Writing the planes one after the other leaves their words one after the other. */
  lemma {:induction false} ListEventsWrite(s: Screen, at: nat, ps: seq<Plane>)
    requires AllDrawable(ps) && at + Len(ps) <= |s.mem|
    ensures Apply(s, ListEvents(at, ps)) == s.(mem := Splice(s.mem, at, Encode(ps)))
  {
    hide Words, Drawable, PlaneLen, PlaneEvents, Apply;
    if ps == [] {
      SpliceNone(s.mem, at);
      ApplyNone(s);
    } else {
      hide Splice;
      var n := |ps| - 1;
      var init, p := ps[..n], ps[n];
      ListEventsWrite(s, at, init);
      ApplyConcat(s, ListEvents(at, init), PlaneEvents(at + Len(init), p));
      PlaneEventsWrite(s.(mem := Splice(s.mem, at, Encode(init))), at + Len(init), p);
      SpliceNext(s.mem, at, Encode(init), Words(p));
    }
  }

  lemma ApplyNone(s: Screen)
    ensures Apply(s, []) == s
  {
  }

  lemma SpliceNone(mem: seq<word>, at: nat)
    requires at <= |mem|
    ensures Splice(mem, at, []) == mem
  {
  }

  lemma SpliceNext(mem: seq<word>, at: nat, a: seq<word>, b: seq<word>)
    requires at + |a| + |b| <= |mem|
    ensures Splice(Splice(mem, at, a), at + |a|, b) == Splice(mem, at, a + b)
  {
  }

  lemma SpliceOne(mem: seq<word>, at: nat, a: seq<word>, w: word)
    requires at + |a| < |mem|
    ensures Splice(mem, at, a)[at + |a| := w] == Splice(mem, at, a + [w])
  {
  }

  lemma SpliceRead(mem: seq<word>, at: nat, a: seq<word>)
    requires at + |a| <= |mem|
    ensures Splice(mem, at, a)[at..at + |a|] == a
  {
  }

  /** After a frame the published list is the new one. */
  lemma FrameShows(s: Screen, at: nat, ps: seq<Plane>)
    requires AllDrawable(ps) && at + Len(ps) < |s.mem|
    ensures Apply(s, FrameEvents(at, ps)).list1 == at
    ensures ListAt(Apply(s, FrameEvents(at, ps)).mem, at, ps)
    ensures Apply(s, FrameEvents(at, ps)).mem == Splice(s.mem, at, Encode(ps) + [CONTROL_END])
  {
    hide Encode, Drawable, ListEvents, Len, Splice, Apply;
    ListEventsWrite(s, at, ps);
    var t := s.(mem := Splice(s.mem, at, Encode(ps)));
    var end, pub := Store(at + Len(ps), CONTROL_END), Publish(at);
    ApplyConcat(s, ListEvents(at, ps), [end]);
    ApplyConcat(s, ListEvents(at, ps) + [end], [pub]);
    ApplyOne(t, end);
    ApplyOne(Step(t, end), pub);
    SpliceOne(s.mem, at, Encode(ps), CONTROL_END);
    SpliceRead(s.mem, at, Encode(ps) + [CONTROL_END]);
  }

  lemma PlaneEventsWithin(at: nat, p: Plane)
    requires Drawable(p)
    ensures StoresWithin(PlaneEvents(at, p), at, at + PlaneLen(p))
  {
    hide Header, OpenHeader, FirstHeader, Drawable;
    var ws := [FirstHeader(p)] + Payload(p);
    hide Payload;
    assert |ws| == PlaneLen(p);
    assert 7 <= PlaneLen(p);
  }

  lemma {:induction false} ListEventsWithin(at: nat, ps: seq<Plane>)
    requires AllDrawable(ps)
    ensures StoresWithin(ListEvents(at, ps), at, at + Len(ps))
  {
    hide Drawable, PlaneLen, PlaneEvents;
    if ps != [] {
      var n := |ps| - 1;
      ListEventsWithin(at, ps[..n]);
      PlaneEventsWithin(at + Len(ps[..n]), ps[n]);
    }
  }

  /**
   While a frame is being written, up to but not including its last event, a list that lies outside the words
   it writes stays published and intact.
   */
  lemma FrameKeeps(s: Screen, at: nat, ps: seq<Plane>, k: nat, shown: seq<Plane>)
    requires AllDrawable(ps) && k < |FrameEvents(at, ps)|
    requires ListAt(s.mem, s.list1, shown)
    requires at + Len(ps) < s.list1 || s.list1 + Len(shown) < at
    ensures var t := Apply(s, FrameEvents(at, ps)[..k]); t.list1 == s.list1 && ListAt(t.mem, t.list1, shown)
  {
    hide Encode, Drawable, ListEvents, Len;
    ListEventsWithin(at, ps);
    var es := FrameEvents(at, ps)[..k];
    assert StoresWithin(es, at, at + Len(ps) + 1);
    StoresOutside(s, es, at, at + Len(ps) + 1, s.list1, s.list1 + Len(shown) + 1);
  }
}
