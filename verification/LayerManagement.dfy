/** The class LayerManager of kernel/layer.cpp: drawing, moving, raising and closing layers keeps the screen
    equal to the composite of all layers. */
module LayerManagement {
  import opened Basics
  import opened Geometry
  import opened FrameBuffers
  import opened Composition

  /** Window::DrawTo. */
  method DrawTo(dst: FrameBuffer, l: Layer, area: Rect)
    requires dst.Valid() && LayerOk(l) && area.Proper()
    modifies dst
    ensures dst.Valid()
    ensures forall p: Point | dst.Holds(p) :: At(dst.rows, p) == Painted(l, area, p, old(At(dst.rows, p)))
  {
    hide Blit;
    if l.window.None? {
      return;
    }
    var w := l.window.value;
    if w.transparent.None? {
      DrawOpaque(dst, l, area);
    } else {
      DrawTransparent(dst, l);
    }
  }

  method DrawOpaque(dst: FrameBuffer, l: Layer, area: Rect)
    requires dst.Valid() && LayerOk(l) && area.Proper() && l.window.Some? && Opaque(l)
    modifies dst
    ensures dst.Valid()
    ensures forall p: Point | dst.Holds(p) :: At(dst.rows, p) == Painted(l, area, p, old(At(dst.rows, p)))
  {
    hide Intersection, Blit, Painted;
    var w := l.window.value;
    var intersection := Intersection(area, Area(l));
    ghost var before := dst.rows;
    dst.Copy(intersection.pos, w.shadow, w.width, w.height, Rect(intersection.pos.Minus(l.pos), intersection.size));
    forall p: Point | dst.Holds(p)
      ensures At(dst.rows, p) == Painted(l, area, p, At(before, p))
    {
      BlitPaints(l, area, p, At(before, p));
    }
  }

  lemma {:induction false} BlitPaints(l: Layer, area: Rect, p: Point, c: Color)
    requires LayerOk(l) && l.window.Some? && Opaque(l)
    ensures var w, r := l.window.value, Intersection(area, Area(l));
            Blit(w.shadow, w.width, w.height, r.pos, Rect(r.pos.Minus(l.pos), r.size), p, c) == Painted(l, area, p, c)
  {
    hide Intersection;
    var w, r := l.window.value, Intersection(area, Area(l));
    var q := p.Minus(r.pos).Plus(r.pos.Minus(l.pos));
    assert q == p.Minus(l.pos);
    assert Rect(r.pos.Minus(l.pos), r.size).Contains(q) <==> r.Contains(p);
    assert Outline(w.width, w.height).Contains(q) <==> Area(l).Contains(p);
  }

  /** Pixel by pixel, clipped to the buffer. */
  method DrawTransparent(dst: FrameBuffer, l: Layer)
    requires dst.Valid() && LayerOk(l) && l.window.Some? && !Opaque(l)
    modifies dst
    ensures dst.Valid()
    ensures forall p: Point | dst.Holds(p) :: At(dst.rows, p) == Over(l, p, old(At(dst.rows, p)))
  {
    var w := l.window.value;
    ghost var before := dst.rows;
    var y := Max(0, 0 - l.pos.y);
    var yEnd := Min(w.height, dst.height - l.pos.y);
    while y < yEnd
      invariant dst.Valid() && 0 <= y && y + l.pos.y >= 0
      invariant forall p: Point | dst.Holds(p) ::
                  At(dst.rows, p) == if p.y < l.pos.y + y then Over(l, p, At(before, p)) else At(before, p)
      decreases yEnd - y
    {
      DrawLine(dst, l, y);
      y := y + 1;
    }
  }

  method DrawLine(dst: FrameBuffer, l: Layer, y: int)
    requires dst.Valid() && LayerOk(l) && l.window.Some? && !Opaque(l)
    requires 0 <= y < l.window.value.height && 0 <= y + l.pos.y < dst.height
    modifies dst
    ensures dst.Valid()
    ensures forall p: Point | dst.Holds(p) ::
              At(dst.rows, p) == if p.y == l.pos.y + y then Over(l, p, old(At(dst.rows, p))) else old(At(dst.rows, p))
  {
    var w := l.window.value;
    ghost var before := dst.rows;
    var x := Max(0, 0 - l.pos.x);
    var xEnd := Min(w.width, dst.width - l.pos.x);
    while x < xEnd
      invariant dst.Valid() && 0 <= x && x + l.pos.x >= 0
      invariant forall p: Point | dst.Holds(p) ::
                  At(dst.rows, p) == if p.y == l.pos.y + y && p.x < l.pos.x + x then Over(l, p, At(before, p)) else At(before, p)
      decreases xEnd - x
    {
      var c := At(w.data, Point(x, y));
      if c != w.transparent.value {
        dst.CopyRow(l.pos.x + x, l.pos.y + y, [c]);
      }
      x := x + 1;
    }
  }

  /** The part of a window that Draw(id, area) draws: what an area relative to the window covers of it, or all of it. */
  function Part(l: Layer, area: Rect): Rect
    requires l.window.Some?
  {
    if area.Proper() then Intersection(Area(l), Rect(area.pos.Plus(l.pos), area.size)) else Area(l)
  }

  /** The point lies in the window, and in `area` as seen from the corner of the window. */
  ghost predicate Named(l: Layer, area: Rect, p: Point)
    requires l.window.Some?
  {
    Area(l).Contains(p) && (area.Proper() ==> area.Contains(p.Minus(l.pos)))
  }

  lemma {:induction false} PartIs(l: Layer, area: Rect, p: Point)
    requires l.window.Some?
    ensures Part(l, area).Contains(p) <==> Named(l, area, p)
  {
    hide Intersection;
  }

  class LayerManager {
    var layers: map<nat, Layer>
    var layerStack: seq<nat>
    const back: FrameBuffer
    const screen: FrameBuffer

    constructor (screen: FrameBuffer)
      requires screen.Valid()
      ensures this.screen == screen && fresh(back) && Valid() && layerStack == []
    {
      this.screen := screen;
      back := new FrameBuffer(screen.width, screen.height, BLACK);
      layers, layerStack := map[], [];
    }

    ghost predicate Valid()
      reads this, back, screen
    {
      && back != screen && back.Valid() && screen.Valid() && back.width == screen.width && back.height == screen.height
      && (forall i | 0 <= i < |layerStack| :: layerStack[i] in layers)
      && Distinct(layerStack)
      && (forall id | id in layers :: LayerOk(layers[id]) && layers[id].id == id)
    }

    /** The visible layers, bottom to top. */
    function Stack(): (s: seq<Layer>)
      requires forall i | 0 <= i < |layerStack| :: layerStack[i] in layers
      reads this
      ensures |s| == |layerStack| && forall i | 0 <= i < |s| :: s[i] == layers[layerStack[i]]
    {
      seq(|layerStack|, i requires 0 <= i < |layerStack| reads this requires layerStack[i] in layers => layers[layerStack[i]])
    }

    ghost function Bounds(): Rect
    {
      Outline(screen.width, screen.height)
    }

    /** Back buffer and screen both show the visible layers. */
    ghost predicate Synced()
      requires Valid()
      reads this, back, screen
    {
      forall p: Point | Bounds().Contains(p) :: At(back.rows, p) == At(screen.rows, p) == Seen(Stack(), p)
    }

    /** Draw(area): all layers, inside an area. */
    method DrawArea(area: Rect)
      requires Valid() && area.Proper()
      modifies back, screen
      ensures Valid()
      ensures forall p: Point | Bounds().Contains(p) ::
                At(back.rows, p) == PaintedAll(Stack(), area, p, old(At(back.rows, p)))
                && At(screen.rows, p) == if area.Contains(p) then At(back.rows, p) else old(At(screen.rows, p))
    {
      hide Painted, LayerOk;
      ghost var stack, before := Stack(), back.rows;
      var i := 0;
      assert stack[0..] == stack;
      while i < |layerStack|
        invariant 0 <= i <= |layerStack| && Valid() && screen.rows == old(screen.rows)
        invariant forall p: Point | Bounds().Contains(p) ::
                    PaintedAll(stack, area, p, At(before, p)) == PaintedAll(stack[i..], area, p, At(back.rows, p))
      {
        assert stack[i..][1..] == stack[i + 1..];
        DrawTo(back, layers[layerStack[i]], area);
        i := i + 1;
      }
      screen.Copy(area.pos, back.rows, back.width, back.height, area);
    }

    /** Draw(id, area): the layer and all above it, inside its window; `whole` when no part of the window is
        selected. */
    method DrawLayer(id: nat, area: Rect, ghost i: nat) returns (windowArea: Rect)
      requires Valid() && i < |layerStack| && layerStack[i] == id && layers[id].window.Some?
      requires area.Proper() || (area.size.x < 0 && area.size.y < 0)
      modifies back, screen
      ensures Valid() && windowArea.Proper()
      ensures windowArea == Part(layers[id], area)
      ensures forall p: Point | Bounds().Contains(p) ::
                At(back.rows, p) == PaintedAll(Stack()[i..], windowArea, p, old(At(back.rows, p)))
                && At(screen.rows, p) == if windowArea.Contains(p) then At(back.rows, p) else old(At(screen.rows, p))
    {
      hide Painted, Intersection;
      ghost var stack, before := Stack(), back.rows;
      var draw := false;
      windowArea := Rect(Point(0, 0), Point(0, 0));
      var j := 0;
      while j < |layerStack|
        invariant 0 <= j <= |layerStack| && Valid() && screen.rows == old(screen.rows) && (draw <==> i < j)
        invariant !draw ==> back.rows == before
        invariant draw ==> windowArea == Part(layers[id], area)
        invariant windowArea.Proper()
        invariant draw ==> forall p: Point | Bounds().Contains(p) ::
                    PaintedAll(stack[i..], windowArea, p, At(before, p)) == PaintedAll(stack[j..], windowArea, p, At(back.rows, p))
      {
        if layerStack[j] == id {
          windowArea := Area(layers[id]);
          if area.size.x >= 0 || area.size.y >= 0 {
            windowArea := Intersection(windowArea, Rect(area.pos.Plus(layers[id].pos), area.size));
          }
          draw := true;
        }
        if draw {
          assert stack[j..][1..] == stack[j + 1..];
          DrawTo(back, layers[layerStack[j]], windowArea);
        }
        j := j + 1;
      }
      screen.Copy(windowArea.pos, back.rows, back.width, back.height, windowArea);
    }

    /** Drawing the whole screen shows the layers, whatever was there before. */
    method Refresh()
      requires Valid() && Floor(Stack(), Bounds())
      modifies back, screen
      ensures Valid() && Synced()
    {
      hide Painted, Over, PaintedAll, Composite, Floor;
      ghost var b0 := back.rows;
      DrawArea(Rect(Point(0, 0), Point(screen.width, screen.height)));
      forall p: Point | Bounds().Contains(p)
        ensures At(back.rows, p) == At(screen.rows, p) == Seen(Stack(), p)
      {
        DrawnInside(Stack(), Bounds(), Bounds(), p, At(b0, p));
      }
    }

    /** Moving a visible layer. The screen shows the layers again iff the transparent ones do no harm where they are
        drawn outside of the two windows; they do none if only the topmost layer is transparent. */
    method Move(id: nat, newPos: Point, ghost i: nat)
      requires Valid() && Synced() && i < |layerStack| && layerStack[i] == id && layers[id].window.Some?
      requires Floor(Stack(), Bounds()) && Floor(Stack()[i := layers[id].(pos := newPos)], Bounds())
      modifies this`layers, back, screen
      ensures Valid() && layerStack == old(layerStack) && layers == old(layers)[id := old(layers[id]).(pos := newPos)]
      ensures Synced() <==> forall p: Point | Bounds().Contains(p) :: MovesWell(Stack(), i, old(Area(layers[id])), p)
      ensures OpaqueBelow(Stack()) ==> Synced()
    {
      hide Painted, Over, PaintedAll, Composite, Intersection, Floor, MovesWell, OpaqueBelow;
      ghost var stack, l := Stack(), layers[id].(pos := newPos);
      var oldArea := Area(layers[id]);
      layers := layers[id := layers[id].(pos := newPos)];
      assert Stack() == stack[i := l];
      ghost var b0, s0 := back.rows, screen.rows;
      DrawArea(oldArea);
      ghost var b1, s1 := back.rows, screen.rows;
      var newArea := DrawLayer(id, Rect(Point(0, 0), Point(-1, -1)), i);
      forall p: Point | Bounds().Contains(p)
        ensures At(back.rows, p) == At(screen.rows, p) == Seen(Stack(), p) <==> MovesWell(Stack(), i, oldArea, p)
        ensures OpaqueBelow(Stack()) ==> MovesWell(Stack(), i, oldArea, p)
      {
        assert At(b0, p) == At(s0, p) == Seen(stack, p);
        assert At(b1, p) == PaintedAll(Stack(), oldArea, p, At(b0, p));
        assert At(s1, p) == if oldArea.Contains(p) then At(b1, p) else At(s0, p);
        assert At(back.rows, p) == PaintedAll(Stack()[i..], newArea, p, At(b1, p));
        assert At(screen.rows, p) == if newArea.Contains(p) then At(back.rows, p) else At(s1, p);
        assert Stack() == stack[i := l];
        MovedIff(stack, i, l, Bounds(), p);
        if OpaqueBelow(Stack()) { MovedPixel(Stack(), i, oldArea, p); }
      }
    }

    method MoveRelative(id: nat, diff: Point, ghost i: nat)
      requires Valid() && Synced() && i < |layerStack| && layerStack[i] == id && layers[id].window.Some?
      requires Floor(Stack(), Bounds()) && Floor(Stack()[i := layers[id].(pos := layers[id].pos.Plus(diff))], Bounds())
      modifies this`layers, back, screen
      ensures Valid() && layerStack == old(layerStack) && layers[id] == old(layers[id]).(pos := old(layers[id].pos).Plus(diff))
      ensures Synced() <==> forall p: Point | Bounds().Contains(p) :: MovesWell(Stack(), i, old(Area(layers[id])), p)
      ensures OpaqueBelow(Stack()) ==> Synced()
    {
      Move(id, layers[id].pos.Plus(diff), i);
    }

    /** A window's pixels change inside `area` and that part of it is drawn. The screen shows the layers again, except
        where the window has become clear over something it had painted, or transparent layers above do harm outside. */
    method Repaint(id: nat, window: Window, area: Rect, ghost i: nat)
      requires Valid() && Synced() && i < |layerStack| && layerStack[i] == id && layers[id].window.Some? && WindowOk(window)
      requires area.Proper() || (area.size.x < 0 && area.size.y < 0)
      requires window.width == layers[id].window.value.width && window.height == layers[id].window.value.height
      requires var l := layers[id].(window := Some(window));
               forall p: Point | Area(l).Contains(p) && !Named(l, area, p) :: Shown(l, p) == Shown(layers[id], p)
      modifies this`layers, back, screen
      ensures Valid() && layerStack == old(layerStack) && layers == old(layers)[id := old(layers[id]).(window := Some(window))]
      ensures Synced() <==>
              forall p: Point | Bounds().Contains(p) :: RepaintsWell(Stack(), i, old(layers[id]), Part(layers[id], area), p)
      ensures OpaqueBelow(Stack()) && Opaque(layers[id]) ==> Synced()
      ensures forall p: Point | Bounds().Contains(p) && !Named(layers[id], area, p) :: At(screen.rows, p) == old(At(screen.rows, p))
    {
      hide Painted, Over, PaintedAll, Composite, RepaintsWell, OpaqueBelow, Part;
      ghost var stack, l := Stack(), layers[id].(window := Some(window));
      layers := layers[id := layers[id].(window := Some(window))];
      assert Stack() == stack[i := l];
      ghost var b0, s0 := back.rows, screen.rows;
      var part := DrawLayer(id, area, i);
      forall p: Point | Bounds().Contains(p)
        ensures At(back.rows, p) == At(screen.rows, p) == Seen(Stack(), p) <==> RepaintsWell(Stack(), i, stack[i], part, p)
        ensures OpaqueBelow(Stack()) && Opaque(l) ==> RepaintsWell(Stack(), i, stack[i], part, p)
        ensures !Named(l, area, p) ==> At(screen.rows, p) == At(s0, p)
      {
        assert At(b0, p) == At(s0, p) == Seen(stack, p);
        assert At(back.rows, p) == PaintedAll(Stack()[i..], part, p, At(b0, p));
        assert At(screen.rows, p) == if part.Contains(p) then At(back.rows, p) else At(s0, p);
        assert Stack() == stack[i := l];
        PartIs(l, area, p);
        RepaintedPixel(stack, i, l, part, p);
        if OpaqueBelow(Stack()) && Opaque(l) { OpaqueRepaints(Stack(), i, stack[i], part, p); }
      }
    }

    /** UpDown for a height of at least 0: the layer is put at that height of the others, or on top. */
    method UpDown(id: nat, newHeight: nat) returns (h: nat, at: nat, ghost rest: seq<nat>)
      requires Valid() && id in layers
      modifies this`layerStack
      ensures Valid() && h == Min(newHeight, |rest|) && layerStack == rest[..h] + [id] + rest[h..] && id !in rest
      ensures if id in old(layerStack) then at < |old(layerStack)| && old(layerStack)[at] == id && rest == Removed(old(layerStack), at)
              else at == |old(layerStack)| && rest == old(layerStack)
    {
      hide Removed;
      h := newHeight;
      if h > |layerStack| {
        h := |layerStack|;
      }
      at := FindPos(id);
      if at < |layerStack| {
        if h == |layerStack| {
          h := h - 1;
        }
        RemovedDistinct(layerStack, at);
        layerStack := Removed(layerStack, at);
      }
      rest := layerStack;
      layerStack := layerStack[..h] + [id] + layerStack[h..];
    }

    /** std::find */
    method FindPos(id: nat) returns (i: nat)
      ensures i <= |layerStack| && (i < |layerStack| ==> layerStack[i] == id)
      ensures i == |layerStack| <==> id !in layerStack
    {
      i := 0;
      while i < |layerStack| && layerStack[i] != id
        invariant i <= |layerStack| && forall j | 0 <= j < i :: layerStack[j] != id
      {
        i := i + 1;
      }
    }

    method Hide(id: nat) returns (i: nat)
      requires Valid() && id in layers
      modifies this`layerStack
      ensures Valid() && id !in layerStack
      ensures if id in old(layerStack) then i < |old(layerStack)| && old(layerStack)[i] == id && layerStack == Removed(old(layerStack), i)
              else layerStack == old(layerStack)
    {
      hide Removed;
      i := FindPos(id);
      if i < |layerStack| {
        RemovedDistinct(layerStack, i);
        layerStack := Removed(layerStack, i);
      }
    }

    /** The layers of some ids. */
    ghost function LayersOf(ids: seq<nat>): (s: seq<Layer>)
      requires forall i | 0 <= i < |ids| :: ids[i] in layers
      reads this
      ensures |s| == |ids| && forall i | 0 <= i < |s| :: s[i] == layers[ids[i]]
    {
      seq(|ids|, i requires 0 <= i < |ids| reads this requires ids[i] in layers => layers[ids[i]])
    }

    /** The visible layers other than the one at height `i`. */
    ghost function Others(i: nat): seq<nat>
      reads this
    {
      if i < |layerStack| then Removed(layerStack, i) else layerStack
    }

    /** Layer `id` is at height `i`, or hidden and `i` is the number of visible layers. */
    ghost predicate Placed(id: nat, i: nat)
      reads this
    {
      if i < |layerStack| then layerStack[i] == id else i == |layerStack| && id !in layerStack
    }

    lemma {:induction false} OthersKnown(id: nat, i: nat)
      requires Valid() && Placed(id, i)
      ensures forall k | 0 <= k < |Others(i)| :: Others(i)[k] in layers
    {
    }

    /** Putting a layer at another height, or showing it, and drawing it. */
    method Raise(id: nat, newHeight: nat, ghost i: nat) returns (ghost h: nat)
      requires Valid() && Synced() && id in layers && layers[id].window.Some? && Placed(id, i)
      modifies this`layerStack, back, screen
      ensures Valid() && h == Min(newHeight, |old(Others(i))|) && layerStack == old(Others(i))[..h] + [id] + old(Others(i))[h..]
      ensures Synced() <==> forall p: Point | Bounds().Contains(p) && !Area(layers[id]).Contains(p) :: Harmless(Stack()[h..], Stack(), p)
      ensures OpaqueBelow(Stack()) ==> Synced()
    {
      hide Painted, Over, PaintedAll, Composite, Intersection, Removed, Harmless, OpaqueBelow;
      OthersKnown(id, i);
      ghost var stack, l, rest := Stack(), layers[id], LayersOf(Others(i));
      ghost var b0, s0 := back.rows, screen.rows;
      OthersSeen(id, i);
      var height, at, _ := UpDown(id, newHeight);
      h := height;
      assert Stack() == rest[..h] + [l] + rest[h..];
      var area := DrawLayer(id, Rect(Point(0, 0), Point(-1, -1)), h);
      forall p: Point | Bounds().Contains(p)
        ensures At(back.rows, p) == At(screen.rows, p) == Seen(Stack(), p) <==> Area(l).Contains(p) || Harmless(Stack()[h..], Stack(), p)
        ensures OpaqueBelow(Stack()) ==> Harmless(Stack()[h..], Stack(), p)
      {
        assert At(b0, p) == At(s0, p) == Seen(stack, p);
        assert At(back.rows, p) == PaintedAll(Stack()[h..], area, p, At(b0, p));
        assert At(screen.rows, p) == if area.Contains(p) then At(back.rows, p) else At(s0, p);
        ShownPixel(rest, h, l, Stack(), p);
        if OpaqueBelow(Stack()) { TopHarmless(Stack(), h, p); }
      }
    }

    /** Where a layer shows nothing, the others are seen. */
    lemma {:induction false} OthersSeen(id: nat, i: nat)
      requires Valid() && id in layers && layers[id].window.Some? && Placed(id, i)
      requires forall k | 0 <= k < |Others(i)| :: Others(i)[k] in layers
      ensures forall p: Point | Shown(layers[id], p).None? :: Seen(LayersOf(Others(i)), p) == Seen(Stack(), p)
    {
      hide Composite;
      var stack, rest := Stack(), LayersOf(Others(i));
      if i < |layerStack| {
        assert rest == stack[..i] + stack[i + 1..];
        forall p: Point | Shown(layers[id], p).None?
          ensures Seen(rest, p) == Seen(stack, p)
        {
          RemoveSeen(stack, i, p, BLACK);
        }
      } else {
        assert rest == stack;
      }
    }

    /** CloseLayer: a visible layer is removed and its place drawn. */
    method Close(id: nat, ghost i: nat)
      requires Valid() && Synced() && i < |layerStack| && layerStack[i] == id && layers[id].window.Some?
      requires Floor(Stack()[..i] + Stack()[i + 1..], Bounds())
      modifies this`layerStack, this`layers, back, screen
      ensures Valid() && layers == old(layers) - {id} && layerStack == Removed(old(layerStack), i)
      ensures Synced() <==> forall p: Point | Bounds().Contains(p) && !old(Area(layers[id])).Contains(p) :: Harmless(Stack(), Stack(), p)
      ensures OpaqueBelow(Stack()) ==> Synced()
    {
      hide Painted, Over, PaintedAll, Composite, Intersection, Floor, Harmless, OpaqueBelow;
      ghost var stack := Stack();
      ghost var b0, s0 := back.rows, screen.rows;
      var area := Area(layers[id]);
      var at := Hide(id);
      layers := layers - {id};
      assert Stack() == stack[..i] + stack[i + 1..];
      DrawArea(area);
      forall p: Point | Bounds().Contains(p)
        ensures At(back.rows, p) == At(screen.rows, p) == Seen(Stack(), p) <==> area.Contains(p) || Harmless(Stack(), Stack(), p)
        ensures OpaqueBelow(Stack()) ==> Harmless(Stack(), Stack(), p)
      {
        assert At(b0, p) == At(s0, p) == Seen(stack, p);
        assert At(back.rows, p) == PaintedAll(Stack(), area, p, At(b0, p));
        assert At(screen.rows, p) == if area.Contains(p) then At(back.rows, p) else At(s0, p);
        assert Stack() == stack[..i] + stack[i + 1..];
        ClosedPixel(stack, i, Bounds(), p);
        if OpaqueBelow(Stack()) {
          TopHarmless(Stack(), 0, p);
          assert Stack()[0..] == Stack();
        }
      }
    }

    /** The topmost layer at a position, apart from `excludeId`. */
    method FindLayerByPosition(pos: Point, excludeId: nat) returns (id: Option<nat>)
      requires Valid()
      ensures id.None? ==> forall i: nat | i < |layerStack| :: layerStack[i] == excludeId || !LiesAt(layers[layerStack[i]], pos)
      ensures id.Some? ==> id.value != excludeId && id.value in layers && LiesAt(layers[id.value], pos)
                           && exists i: nat :: i < |layerStack| && layerStack[i] == id.value
                                && forall j: nat | i < j < |layerStack| :: layerStack[j] == excludeId || !LiesAt(layers[layerStack[j]], pos)
    {
      var i: nat := |layerStack|;
      while i > 0
        invariant i <= |layerStack|
        invariant forall j: nat | i <= j < |layerStack| :: layerStack[j] == excludeId || !LiesAt(layers[layerStack[j]], pos)
      {
        i := i - 1;
        if layerStack[i] == excludeId {
          continue;
        }
        var layer := layers[layerStack[i]];
        if layer.window.Some? {
          var end := layer.pos.Plus(Point(layer.window.value.width, layer.window.value.height));
          if layer.pos.x <= pos.x && pos.x < end.x && layer.pos.y <= pos.y && pos.y < end.y {
            return Some(layerStack[i]);
          }
        }
      }
      return None;
    }
  }

  ghost predicate LiesAt(l: Layer, pos: Point)
  {
    l.window.Some? && Area(l).Contains(pos)
  }

  /** erase */
  function Removed(s: seq<nat>, i: nat): seq<nat>
    requires i < |s|
  {
    s[..i] + s[i + 1..]
  }

  lemma {:induction false} RemovedDistinct(s: seq<nat>, i: nat)
    requires i < |s| && Distinct(s)
    ensures Distinct(Removed(s, i)) && s[i] !in Removed(s, i) && |Removed(s, i)| == |s| - 1
    ensures forall k | 0 <= k < |s| - 1 :: Removed(s, i)[k] in s
  {
  }
}
