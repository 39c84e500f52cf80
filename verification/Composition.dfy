/** What stacked layers should look like, and when redrawing part of them is enough (kernel/layer.cpp). */
module Composition {
  import opened Basics
  import opened Geometry
  import opened FrameBuffers

  /** A window: the shadow buffer that opaque drawing copies from, and the pixels that transparent drawing
      looks at one by one. */
  datatype Window = Window(width: nat, height: nat, shadow: Image, data: Image, transparent: Option<Color>)

  datatype Layer = Layer(id: nat, window: Option<Window>, pos: Point)

  ghost predicate WindowOk(w: Window)
  {
    Sized(w.shadow, w.width, w.height) && Sized(w.data, w.width, w.height)
  }

  ghost predicate LayerOk(l: Layer)
  {
    l.window.Some? ==> WindowOk(l.window.value)
  }

  /** The window's rectangle on the screen. */
  function Area(l: Layer): Rect
    requires l.window.Some?
  {
    Rect(l.pos, Point(l.window.value.width, l.window.value.height))
  }

  predicate Opaque(l: Layer)
  {
    l.window.Some? ==> l.window.value.transparent.None?
  }

  /** The colour of `p` once a layer is drawn over colour `c`. */
  ghost function Over(l: Layer, p: Point, c: Color): Color
    requires LayerOk(l)
  {
    if l.window.None? || !Area(l).Contains(p) then c
    else
      var w, q := l.window.value, p.Minus(l.pos);
      if w.transparent.None? then At(w.shadow, q)
      else if At(w.data, q) == w.transparent.value then c else At(w.data, q)
  }

  /** Drawing with an area: opaque windows stay inside it, transparent ones ignore it. */
  ghost function Painted(l: Layer, area: Rect, p: Point, c: Color): Color
    requires LayerOk(l)
  {
    if Opaque(l) && !area.Contains(p) then c else Over(l, p, c)
  }

  ghost predicate StackOk(stack: seq<Layer>)
  {
    forall i | 0 <= i < |stack| :: LayerOk(stack[i])
  }

  /** The layers of a stack over colour `c`, bottom to top. */
  ghost function Composite(stack: seq<Layer>, p: Point, c: Color): Color
    requires StackOk(stack)
    decreases |stack|
  {
    if stack == [] then c else Composite(stack[1..], p, Over(stack[0], p, c))
  }

  ghost function PaintedAll(stack: seq<Layer>, area: Rect, p: Point, c: Color): Color
    requires StackOk(stack)
    decreases |stack|
  {
    if stack == [] then c else PaintedAll(stack[1..], area, p, Painted(stack[0], area, p, c))
  }

  /** Only the topmost layer may be transparent. */
  ghost predicate OpaqueBelow(stack: seq<Layer>)
  {
    forall i | 0 <= i < |stack| - 1 :: Opaque(stack[i])
  }

  // ----- painting inside and outside of an area -----

  /** Inside the area every layer is drawn. */
  lemma {:induction false} Inside(stack: seq<Layer>, area: Rect, p: Point, c: Color)
    requires StackOk(stack) && area.Contains(p)
    ensures PaintedAll(stack, area, p, c) == Composite(stack, p, c)
    decreases |stack|
  {
    if stack != [] { Inside(stack[1..], area, p, Over(stack[0], p, c)); }
  }

  lemma {:induction false} CompositeSplit(a: seq<Layer>, b: seq<Layer>, p: Point, c: Color)
    requires StackOk(a) && StackOk(b)
    ensures StackOk(a + b) && Composite(a + b, p, c) == Composite(b, p, Composite(a, p, c))
    decreases |a|
  {
    if a == [] {
      assert a + b == b;
    } else {
      assert (a + b)[1..] == a[1..] + b;
      CompositeSplit(a[1..], b, p, Over(a[0], p, c));
    }
  }

  /** Where layer `i` is opaque, what is below it does not matter. */
  lemma {:induction false} Hidden(stack: seq<Layer>, i: nat, p: Point, c: Color, d: Color)
    requires StackOk(stack) && i < |stack| && stack[i].window.Some? && Opaque(stack[i]) && Area(stack[i]).Contains(p)
    ensures StackOk(stack[i..]) && Composite(stack, p, c) == Composite(stack[i..], p, d)
  {
    assert stack == stack[..i] + stack[i..];
    CompositeSplit(stack[..i], stack[i..], p, c);
  }

  // ----- the topmost layer at a point -----

  /** The colour a layer shows at a point, if it shows any. */
  ghost function Shown(l: Layer, p: Point): Option<Color>
    requires LayerOk(l)
  {
    if l.window.None? || !Area(l).Contains(p) then None
    else
      var w, q := l.window.value, p.Minus(l.pos);
      if w.transparent.None? then Some(At(w.shadow, q))
      else if At(w.data, q) == w.transparent.value then None else Some(At(w.data, q))
  }

  /** The colour of the topmost layer that shows any. */
  ghost function Top(stack: seq<Layer>, p: Point): Option<Color>
    requires StackOk(stack)
    decreases |stack|
  {
    if stack == [] then None
    else if Top(stack[1..], p).Some? then Top(stack[1..], p) else Shown(stack[0], p)
  }

  function OrElse(top: Option<Color>, c: Color): Color
  {
    match top
    case Some(x) => x
    case None => c
  }

  /** What is seen is the topmost layer that is not clear. */
  lemma {:induction false} CompositeTop(stack: seq<Layer>, p: Point, c: Color)
    requires StackOk(stack)
    ensures Composite(stack, p, c) == OrElse(Top(stack, p), c)
    decreases |stack|
  {
    if stack != [] { CompositeTop(stack[1..], p, Over(stack[0], p, c)); }
  }

  lemma {:induction false} TopSplit(a: seq<Layer>, b: seq<Layer>, p: Point)
    requires StackOk(a) && StackOk(b)
    ensures StackOk(a + b) && Top(a + b, p) == if Top(b, p).Some? then Top(b, p) else Top(a, p)
    decreases |a|
  {
    if a == [] {
      assert a + b == b;
    } else {
      assert (a + b)[1..] == a[1..] + b;
      TopSplit(a[1..], b, p);
    }
  }

  /** The transparent layers, in order. */
  ghost function Glass(stack: seq<Layer>): (g: seq<Layer>)
    requires StackOk(stack)
    ensures StackOk(g)
    decreases |stack|
  {
    if stack == [] then [] else (if Opaque(stack[0]) then [] else [stack[0]]) + Glass(stack[1..])
  }

  lemma {:induction false} GlassSplit(a: seq<Layer>, b: seq<Layer>)
    requires StackOk(a) && StackOk(b)
    ensures StackOk(a + b) && Glass(a + b) == Glass(a) + Glass(b)
    decreases |a|
  {
    if a == [] {
      assert a + b == b;
    } else {
      assert (a + b)[1..] == a[1..] + b;
      GlassSplit(a[1..], b);
    }
  }

  /** Outside of the area exactly the transparent layers are drawn. */
  lemma {:induction false} OutsidePainted(stack: seq<Layer>, area: Rect, p: Point, c: Color)
    requires StackOk(stack) && !area.Contains(p)
    ensures PaintedAll(stack, area, p, c) == Composite(Glass(stack), p, c)
    decreases |stack|
  {
    if stack != [] {
      var g := Glass(stack[1..]);
      OutsidePainted(stack[1..], area, p, Painted(stack[0], area, p, c));
      if Opaque(stack[0]) {
        assert Glass(stack) == g;
      } else {
        assert Glass(stack) == [stack[0]] + g && ([stack[0]] + g)[1..] == g;
      }
    }
  }

  // ----- the screen -----

  /** The bottom layer is opaque and covers the screen. */
  ghost predicate Floor(stack: seq<Layer>, screen: Rect)
  {
    && StackOk(stack) && stack != []
    && stack[0].window.Some? && Opaque(stack[0]) && forall p: Point :: screen.Contains(p) ==> Area(stack[0]).Contains(p)
  }

  const BLACK := Color(0, 0, 0)

  ghost function Seen(stack: seq<Layer>, p: Point): Color
    requires StackOk(stack)
  {
    Composite(stack, p, BLACK)
  }

  /** A full drawing inside an area shows the stack there, whatever was there before. */
  lemma {:induction false} DrawnInside(stack: seq<Layer>, screen: Rect, area: Rect, p: Point, c: Color)
    requires Floor(stack, screen) && screen.Contains(p) && area.Contains(p)
    ensures PaintedAll(stack, area, p, c) == Seen(stack, p)
  {
    Inside(stack, area, p, c);
    Hidden(stack, 0, p, c, c);
    Hidden(stack, 0, p, BLACK, c);
  }

  /** Drawing the transparent ones of `part` does not change what `stack` shows at `p`: all of them are clear there, or
      the topmost that is not has the colour seen. */
  ghost predicate Harmless(part: seq<Layer>, stack: seq<Layer>, p: Point)
    requires StackOk(part) && StackOk(stack)
  {
    var top := Top(Glass(part), p);
    top.None? || top.value == Seen(stack, p)
  }

  /** Drawing an area keeps the picture outside of it iff the transparent layers do no harm there. */
  lemma {:induction false} KeptIff(part: seq<Layer>, stack: seq<Layer>, area: Rect, p: Point)
    requires StackOk(part) && StackOk(stack) && !area.Contains(p)
    ensures PaintedAll(part, area, p, Seen(stack, p)) == Seen(stack, p) <==> Harmless(part, stack, p)
  {
    OutsidePainted(part, area, p, Seen(stack, p));
    CompositeTop(Glass(part), p, Seen(stack, p));
  }

  /** Transparency on the topmost layer only does no harm. */
  lemma {:induction false} TopHarmless(stack: seq<Layer>, i: nat, p: Point)
    requires StackOk(stack) && OpaqueBelow(stack) && i <= |stack|
    ensures StackOk(stack[i..]) && Harmless(stack[i..], stack, p)
  {
    if i < |stack| {
      var n := |stack| - 1;
      var a, top := stack[i..n], [stack[n]];
      assert stack[i..] == a + top && stack == stack[..n] + top;
      GlassSplit(a, top);
      NoGlass(a);
      TopSplit(stack[..n], top, p);
      CompositeTop(stack, p, BLACK);
      assert top[1..] == [] && Glass(top) == if Opaque(stack[n]) then [] else top;
      assert Glass(stack[i..]) == Glass(top);
    }
  }

  lemma {:induction false} NoGlass(stack: seq<Layer>)
    requires StackOk(stack) && forall i | 0 <= i < |stack| :: Opaque(stack[i])
    ensures Glass(stack) == []
    decreases |stack|
  {
    if stack != [] { NoGlass(stack[1..]); }
  }

  /** Moving or changing one layer changes what is seen only inside its old and its new window. */
  lemma {:induction false} ChangeSeen(stack: seq<Layer>, i: nat, l: Layer, p: Point, c: Color)
    requires StackOk(stack) && LayerOk(l) && i < |stack|
    requires Over(l, p, Composite(stack[..i], p, c)) == Over(stack[i], p, Composite(stack[..i], p, c))
    ensures StackOk(stack[i := l]) && Composite(stack[i := l], p, c) == Composite(stack, p, c)
  {
    var a, b := stack[..i], stack[i + 1..];
    assert stack == a + ([stack[i]] + b) && stack[i := l] == a + ([l] + b);
    CompositeSplit(a, [stack[i]] + b, p, c);
    CompositeSplit(a, [l] + b, p, c);
    assert ([stack[i]] + b)[1..] == b && ([l] + b)[1..] == b;
  }

  /** A layer that shows nothing at a point may be anywhere in the stack, or nowhere. */
  lemma {:induction false} RemoveSeen(stack: seq<Layer>, i: nat, p: Point, c: Color)
    requires StackOk(stack) && i < |stack| && Shown(stack[i], p).None?
    ensures StackOk(stack[..i] + stack[i + 1..]) && Composite(stack[..i] + stack[i + 1..], p, c) == Composite(stack, p, c)
  {
    var a, b := stack[..i], stack[i + 1..];
    assert stack == a + ([stack[i]] + b);
    CompositeSplit(a, [stack[i]] + b, p, c);
    CompositeSplit(a, b, p, c);
    assert ([stack[i]] + b)[1..] == b;
  }

  // ----- what is seen after each operation -----

  /** A point that neither the old nor the new window covers. */
  lemma {:induction false} Elsewhere(stack: seq<Layer>, i: nat, l: Layer, p: Point)
    requires StackOk(stack) && LayerOk(l) && i < |stack| && stack[i].window.Some? && l.window.Some?
    requires !Area(stack[i]).Contains(p) && !Area(l).Contains(p)
    ensures StackOk(stack[i := l]) && Seen(stack[i := l], p) == Seen(stack, p)
  {
    assert StackOk(stack[..i]);
    ChangeSeen(stack, i, l, p, BLACK);
  }

  /** A move of layer `i` to where it is now, from `before`, shows the stack at `p`: nothing is asked where both windows
      are; where only the new one is, that it or a layer above it shows there, or that the transparent layers do no
      harm; where only the old one was, that those drawn again do none; and elsewhere, that none does. */
  ghost predicate MovesWell(stack: seq<Layer>, i: nat, before: Rect, p: Point)
    requires StackOk(stack) && i < |stack| && stack[i].window.Some?
  {
    if before.Contains(p) then Area(stack[i]).Contains(p) || Harmless(stack[i..], stack, p)
    else (Area(stack[i]).Contains(p) && Top(stack[i..], p).Some?) || Harmless(stack, stack, p)
  }

  /** Layer `i` becomes `l` elsewhere on the screen: drawing all layers in its old window and then the layer
      and those above it in the new one shows the stack iff it moves well. */
  lemma {:induction false} MovedIff(stack: seq<Layer>, i: nat, l: Layer, screen: Rect, p: Point)
    requires Floor(stack, screen) && i < |stack| && LayerOk(l) && stack[i].window.Some? && l.window == stack[i].window
    requires Floor(stack[i := l], screen) && screen.Contains(p)
    ensures StackOk(stack[i := l][i..])
    ensures var new_ := stack[i := l];
            var b1 := PaintedAll(new_, Area(stack[i]), p, Seen(stack, p));
            var s1 := if Area(stack[i]).Contains(p) then b1 else Seen(stack, p);
            var b2 := PaintedAll(new_[i..], Area(l), p, b1);
            var s2 := if Area(l).Contains(p) then b2 else s1;
            (b2 == Seen(new_, p) && s2 == Seen(new_, p)) <==> MovesWell(new_, i, Area(stack[i]), p)
  {
    hide Over, Composite, PaintedAll, Floor, Glass, Shown;
    FloorOk(stack, screen);
    FloorOk(stack[i := l], screen);
    var new_, before, after := stack[i := l], Area(stack[i]), Area(l);
    var b1 := PaintedAll(new_, before, p, Seen(stack, p));
    assert new_[i] == l && new_[..i] + new_[i..] == new_;
    TopSplit(new_[..i], new_[i..], p);
    CompositeTop(new_, p, BLACK);
    if before.Contains(p) {
      DrawnInside(new_, screen, before, p, Seen(stack, p));
      if after.Contains(p) {
        Inside(new_[i..], after, p, b1);
        CompositeTop(new_[i..], p, b1);
      } else {
        KeptIff(new_[i..], new_, after, p);
      }
    } else if after.Contains(p) {
      Inside(new_[i..], after, p, b1);
      CompositeTop(new_[i..], p, b1);
      if Top(new_[i..], p).None? {
        NotShown(stack, i, l, p);
        KeptIff(new_, new_, before, p);
      }
    } else {
      Elsewhere(stack, i, l, p);
      KeptIff(new_, new_, before, p);
      DrawnTwice(new_, i, before, after, p, Seen(stack, p));
    }
  }

  lemma {:induction false} FloorOk(stack: seq<Layer>, screen: Rect)
    requires Floor(stack, screen)
    ensures StackOk(stack)
  {
  }

  /** Where the moved layer shows nothing, before and now, the picture is the same. */
  lemma {:induction false} NotShown(stack: seq<Layer>, i: nat, l: Layer, p: Point)
    requires StackOk(stack) && LayerOk(l) && i < |stack| && stack[i].window.Some? && !Area(stack[i]).Contains(p)
    requires StackOk(stack[i := l]) && Top(stack[i := l][i..], p).None?
    ensures Seen(stack[i := l], p) == Seen(stack, p)
  {
    assert stack[i := l][i..][0] == l;
    ChangeSeen(stack, i, l, p, BLACK);
  }

  /** Outside of both windows the transparent layers from `i` on are drawn twice, which shows no more than once. */
  lemma {:induction false} DrawnTwice(stack: seq<Layer>, i: nat, before: Rect, after: Rect, p: Point, c: Color)
    requires StackOk(stack) && i < |stack| && !before.Contains(p) && !after.Contains(p)
    ensures var b := PaintedAll(stack, before, p, c); StackOk(stack[i..]) && PaintedAll(stack[i..], after, p, b) == b
  {
    hide Composite, PaintedAll;
    var a, t := stack[..i], stack[i..];
    assert stack == a + t;
    var b := PaintedAll(stack, before, p, c);
    GlassSplit(a, t);
    TopSplit(Glass(a), Glass(t), p);
    OutsidePainted(stack, before, p, c);
    CompositeTop(Glass(stack), p, c);
    OutsidePainted(t, after, p, b);
    CompositeTop(Glass(t), p, b);
  }

  /** A move on a desktop whose transparency is left to the topmost layer, or of an opaque layer there, goes well. */
  lemma {:induction false} MovedPixel(stack: seq<Layer>, i: nat, before: Rect, p: Point)
    requires StackOk(stack) && OpaqueBelow(stack) && i < |stack| && stack[i].window.Some?
    ensures MovesWell(stack, i, before, p)
  {
    TopHarmless(stack, i, p);
    TopHarmless(stack, 0, p);
    assert stack[0..] == stack;
  }

  /** What layer `l` showed at `p` need not be taken away: nothing, or the colour of the layers below it. */
  ghost predicate NothingToErase(l: Layer, below: seq<Layer>, p: Point)
    requires LayerOk(l) && StackOk(below)
  {
    Shown(l, p).None? || Shown(l, p).value == Seen(below, p)
  }

  /** A layer `was` gets the pixels of layer `i`, other ones inside `area`: drawing it and those above it there shows the
      stack at `p`.  Inside, one of them shows or what it showed before need not go; outside, the transparent ones do
      no harm. */
  ghost predicate RepaintsWell(stack: seq<Layer>, i: nat, was: Layer, area: Rect, p: Point)
    requires StackOk(stack) && LayerOk(was) && i < |stack|
  {
    if area.Contains(p) then Top(stack[i..], p).Some? || NothingToErase(was, stack[..i], p) else Harmless(stack[i..], stack, p)
  }

  lemma {:induction false} RepaintedPixel(stack: seq<Layer>, i: nat, l: Layer, area: Rect, p: Point)
    requires StackOk(stack) && i < |stack| && LayerOk(l)
    requires !area.Contains(p) ==> Shown(l, p) == Shown(stack[i], p)
    ensures StackOk(stack[i := l]) && StackOk(stack[i := l][i..])
    ensures var new_ := stack[i := l];
            var b := PaintedAll(new_[i..], area, p, Seen(stack, p));
            var s := if area.Contains(p) then b else Seen(stack, p);
            (b == Seen(new_, p) && s == Seen(new_, p)) <==> RepaintsWell(new_, i, stack[i], area, p)
  {
    hide Composite, PaintedAll, Shown;
    var new_ := stack[i := l];
    assert new_[i] == l && new_[..i] == stack[..i];
    assert new_[..i] + new_[i..] == new_ && stack[..i] + stack[i..] == stack;
    assert new_[i..][1..] == stack[i..][1..];
    TopSplit(new_[..i], new_[i..], p);
    TopSplit(stack[..i], stack[i..], p);
    CompositeTop(new_, p, BLACK);
    CompositeTop(stack, p, BLACK);
    if area.Contains(p) {
      Inside(new_[i..], area, p, Seen(stack, p));
      CompositeTop(new_[i..], p, Seen(stack, p));
      CompositeTop(stack[..i], p, BLACK);
    } else {
      KeptIff(new_[i..], new_, area, p);
    }
  }

  /** An opaque window repaints well inside itself when transparency is left to the topmost layer. */
  lemma {:induction false} OpaqueRepaints(stack: seq<Layer>, i: nat, was: Layer, area: Rect, p: Point)
    requires StackOk(stack) && LayerOk(was) && i < |stack| && stack[i].window.Some? && OpaqueBelow(stack) && Opaque(stack[i])
    requires area.Contains(p) ==> Area(stack[i]).Contains(p)
    ensures RepaintsWell(stack, i, was, area, p)
  {
    TopHarmless(stack, i, p);
  }

  /** A layer is put at height `h` of the others, wherever it was: drawing it and those above it inside its
      window shows the stack there, and elsewhere iff the transparent ones of them do no harm. */
  lemma {:induction false} ShownPixel(rest: seq<Layer>, h: nat, l: Layer, stack: seq<Layer>, p: Point)
    requires StackOk(rest) && LayerOk(l) && l.window.Some? && h <= |rest| && stack == rest[..h] + [l] + rest[h..] && StackOk(stack)
    ensures StackOk(stack[h..])
    ensures forall c | Area(l).Contains(p) && (Shown(l, p).None? ==> c == Seen(rest, p)) ::
              PaintedAll(stack[h..], Area(l), p, c) == Seen(stack, p)
    ensures Shown(l, p).None? ==> Seen(stack, p) == Seen(rest, p)
    ensures !Area(l).Contains(p) ==>
              (PaintedAll(stack[h..], Area(l), p, Seen(stack, p)) == Seen(stack, p) <==> Harmless(stack[h..], stack, p))
  {
    hide Over, Composite, PaintedAll, Shown;
    assert stack[h] == l && stack[..h] + stack[h + 1..] == rest && stack[..h] + stack[h..] == stack;
    if Shown(l, p).None? { RemoveSeen(stack, h, p, BLACK); }
    if Area(l).Contains(p) {
      TopSplit(stack[..h], stack[h..], p);
      CompositeTop(stack, p, BLACK);
      forall c | Shown(l, p).None? ==> c == Seen(rest, p)
        ensures PaintedAll(stack[h..], Area(l), p, c) == Seen(stack, p)
      {
        Inside(stack[h..], Area(l), p, c);
        CompositeTop(stack[h..], p, c);
      }
    } else {
      KeptIff(stack[h..], stack, Area(l), p);
    }
  }

  /** A layer is taken away: drawing the others inside its window shows them there, and elsewhere iff the transparent
      ones do no harm. */
  lemma {:induction false} ClosedPixel(stack: seq<Layer>, i: nat, screen: Rect, p: Point)
    requires StackOk(stack) && i < |stack| && stack[i].window.Some? && screen.Contains(p)
    requires Floor(stack[..i] + stack[i + 1..], screen)
    ensures var rest := stack[..i] + stack[i + 1..];
            var b := PaintedAll(rest, Area(stack[i]), p, Seen(stack, p));
            var s := if Area(stack[i]).Contains(p) then b else Seen(stack, p);
            s == Seen(rest, p) && (b == Seen(rest, p) <==> Area(stack[i]).Contains(p) || Harmless(rest, rest, p))
  {
    hide Over, Composite, PaintedAll;
    var rest := stack[..i] + stack[i + 1..];
    if Area(stack[i]).Contains(p) {
      DrawnInside(rest, screen, Area(stack[i]), p, Seen(stack, p));
    } else {
      RemoveSeen(stack, i, p, BLACK);
      KeptIff(rest, rest, Area(stack[i]), p);
    }
  }

  // ----- when it does not -----

  function OnePixel(id: nat, c: Color, transparent: Option<Color>): Layer
  {
    Layer(id, Some(Window(1, 1, [[c]], [[c]], transparent)), Point(0, 0))
  }

  lemma {:induction false} Stacked(l: Layer, rest: seq<Layer>, p: Point)
    requires LayerOk(l) && StackOk(rest)
    ensures StackOk([l] + rest) && Glass([l] + rest) == (if Opaque(l) then [] else [l]) + Glass(rest)
    ensures Top([l] + rest, p) == if Top(rest, p).Some? then Top(rest, p) else Shown(l, p)
  {
    assert ([l] + rest)[1..] == rest;
  }

  /** With a transparent layer below another one, drawing a rectangle damages the picture outside of it: so does moving
      a third one elsewhere. */
  lemma {:induction false} TransparentBelowExample() returns (stack: seq<Layer>, before: Rect, p: Point)
    ensures StackOk(stack) && |stack| == 4 && stack[3].window.Some? && !before.Contains(p) && !Area(stack[3]).Contains(p)
    ensures PaintedAll(stack, before, p, Seen(stack, p)) != Seen(stack, p) && !MovesWell(stack, 3, before, p)
  {
    hide Top, Glass, Composite, PaintedAll;
    var red, blue, grey := Color(255, 0, 0), Color(0, 0, 255), Color(9, 9, 9);
    var ground, glass, top := OnePixel(1, grey, None), OnePixel(2, red, Some(grey)), OnePixel(3, blue, None);
    var other := OnePixel(4, grey, None).(pos := Point(6, 6));
    before, p := Rect(Point(5, 5), Point(1, 1)), Point(0, 0);
    Empty(p);
    Stacked(other, [], p);
    Stacked(top, [other], p);
    Stacked(glass, [top] + [other], p);
    Stacked(glass, [], p);
    stack := [ground] + ([glass] + ([top] + ([other] + [])));
    assert [other] + [] == [other] && [glass] + [] == [glass];
    Stacked(ground, [glass] + ([top] + [other]), p);
    CompositeTop(stack, p, BLACK);
    assert Top(stack, p) == Some(blue);
    assert Glass(stack) == [glass] && Top([glass], p) == Some(red);
    KeptIff(stack, stack, before, p);
  }

  lemma {:induction false} Empty(p: Point)
    ensures Top([], p) == None && Glass([]) == []
  {
  }
}
