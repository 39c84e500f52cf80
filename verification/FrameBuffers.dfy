/** FrameBuffer of kernel/frame_buffer.cpp as rows of pixels, and the clipped copy between two of them: which pixels it
    writes, and from where it takes them. */
module FrameBuffers {
  import opened Geometry

  datatype Color = Color(r: nat, g: nat, b: nat)

  type Image = seq<seq<Color>>

  ghost predicate Sized(img: Image, w: nat, h: nat)
  {
    |img| == h && forall y | 0 <= y < h :: |img[y]| == w
  }

  function Outline(w: nat, h: nat): Rect
  {
    Rect(Point(0, 0), Point(w, h))
  }

  function At(img: Image, p: Point): Color
    requires 0 <= p.y < |img| && 0 <= p.x < |img[p.y]|
  {
    img[p.y][p.x]
  }

  /** What a copy of `area` of `src` to `pos` leaves at point `p`. */
  ghost function Blit(src: Image, sw: nat, sh: nat, pos: Point, area: Rect, p: Point, before: Color): Color
    requires Sized(src, sw, sh)
  {
    var q := p.Minus(pos).Plus(area.pos);
    if Outline(sw, sh).Contains(q) && area.Contains(q) then At(src, q) else before
  }

  class FrameBuffer {
    const width: nat
    const height: nat
    var rows: Image

    constructor (width: nat, height: nat, color: Color)
      ensures Valid() && this.width == width && this.height == height
    {
      this.width, this.height := width, height;
      rows := seq(height, _ => seq(width, _ => color));
    }

    ghost predicate Valid()
      reads this
    {
      Sized(rows, width, height)
    }

    predicate Holds(p: Point)
    {
      Outline(width, height).Contains(p)
    }

    /** Overwrites `n` pixels of row `y` from column `x` on. */
    method CopyRow(x: nat, y: nat, line: seq<Color>)
      requires Valid() && y < height && x + |line| <= width
      modifies this
      ensures Valid() && rows == old(rows)[y := old(rows[y])[..x] + line + old(rows[y])[x + |line|..]]
    {
      rows := rows[y := rows[y][..x] + line + rows[y][x + |line|..]];
    }

    /** The rows of a copy that is clipped to both buffers. */
    method CopyRows(src: Image, ghost sw: nat, ghost sh: nat, off: Point, clip: Rect)
      requires Valid() && Sized(src, sw, sh) && InBounds(width, height, sw, sh, off, clip) && clip.Proper()
      modifies this
      ensures Valid() && Copied(old(rows), rows, width, height, src, sw, sh, off, clip, clip.size.y)
    {
      hide Copied;
      ghost var before := rows;
      StartCopied(before, width, height, src, sw, sh, off, clip);
      var y := 0;
      while y < clip.size.y
        invariant 0 <= y <= clip.size.y && Valid() && Copied(before, rows, width, height, src, sw, sh, off, clip, y)
      {
        if clip.size.x > 0 {
          RowCopied(before, rows, width, height, src, sw, sh, off, clip, y);
          var x := clip.pos.x + off.x;
          CopyRow(clip.pos.x, clip.pos.y + y, src[clip.pos.y + y + off.y][x..x + clip.size.x]);
        } else {
          NoColumns(before, rows, width, height, src, sw, sh, off, clip, y);
        }
        y := y + 1;
      }
    }

    /** FrameBuffer::Copy: copies `srcArea` of `src` to `dstPos`, clipped to both. */
    method Copy(dstPos: Point, src: Image, sw: nat, sh: nat, srcArea: Rect)
      requires Valid() && Sized(src, sw, sh) && srcArea.Proper()
      modifies this
      ensures Valid()
      ensures forall p: Point | Holds(p) :: At(rows, p) == Blit(src, sw, sh, dstPos, srcArea, p, old(At(rows, p)))
    {
      hide Intersection, Copied, Blit;
      var shifted := Rect(dstPos, srcArea.size);
      var srcOutline := Rect(dstPos.Minus(srcArea.pos), Point(sw, sh));
      var copyArea := Intersection(Intersection(Outline(width, height), srcOutline), shifted);
      ClipWithin(width, height, srcOutline, shifted);
      ghost var before := rows;
      CopyRows(src, sw, sh, srcArea.pos.Minus(dstPos), copyArea);
      forall p: Point | Holds(p)
        ensures At(rows, p) == Blit(src, sw, sh, dstPos, srcArea, p, At(before, p))
      {
        CopiedAt(before, rows, width, height, src, sw, sh, dstPos, srcArea, copyArea, p);
      }
    }
  }

  lemma {:induction false} CopiedAt(before: Image, rows: Image, w: nat, h: nat, src: Image, sw: nat, sh: nat,
                                    pos: Point, area: Rect, clip: Rect, p: Point)
    requires Outline(w, h).Contains(p)
    requires Copied(before, rows, w, h, src, sw, sh, area.pos.Minus(pos), clip, clip.size.y)
    requires clip == Intersection(Intersection(Outline(w, h), Rect(pos.Minus(area.pos), Point(sw, sh))), Rect(pos, area.size))
    ensures At(rows, p) == Blit(src, sw, sh, pos, area, p, At(before, p))
  {
    hide Intersection;
    assert rows[p.y][p.x] == rows[p.y][p.x];
  }

  lemma {:induction false} NoColumns(before: Image, rows: Image, w: nat, h: nat, src: Image, sw: nat, sh: nat, off: Point, clip: Rect, y: int)
    requires Copied(before, rows, w, h, src, sw, sh, off, clip, y) && clip.size.x <= 0
    ensures Copied(before, rows, w, h, src, sw, sh, off, clip, y + 1)
  {
  }

  ghost predicate InBounds(w: nat, h: nat, sw: nat, sh: nat, off: Point, clip: Rect)
  {
    clip.size.x > 0 && clip.size.y > 0 ==>
      && 0 <= clip.pos.x && clip.pos.x + clip.size.x <= w && 0 <= clip.pos.y && clip.pos.y + clip.size.y <= h
      && 0 <= clip.pos.x + off.x && clip.pos.x + off.x + clip.size.x <= sw
      && 0 <= clip.pos.y + off.y && clip.pos.y + off.y + clip.size.y <= sh
  }

  /** The first `y` rows of `clip` are copied. */
  ghost predicate Copied(before: Image, rows: Image, w: nat, h: nat, src: Image, sw: nat, sh: nat, off: Point, clip: Rect, y: int)
  {
    && Sized(before, w, h) && Sized(rows, w, h) && Sized(src, sw, sh) && InBounds(w, h, sw, sh, off, clip)
    && forall i, j | 0 <= j < h && 0 <= i < w ::
         rows[j][i] == if clip.Contains(Point(i, j)) && j < clip.pos.y + y then src[j + off.y][i + off.x] else before[j][i]
  }

  lemma {:induction false} StartCopied(before: Image, w: nat, h: nat, src: Image, sw: nat, sh: nat, off: Point, clip: Rect)
    requires Sized(before, w, h) && Sized(src, sw, sh) && InBounds(w, h, sw, sh, off, clip)
    ensures Copied(before, before, w, h, src, sw, sh, off, clip, 0)
  {
  }

  lemma {:induction false} RowCopied(before: Image, rows: Image, w: nat, h: nat, src: Image, sw: nat, sh: nat, off: Point, clip: Rect, y: int)
    requires Copied(before, rows, w, h, src, sw, sh, off, clip, y) && 0 <= y < clip.size.y && clip.size.x > 0
    ensures var (x, j, n) := (clip.pos.x, clip.pos.y + y, clip.size.x);
            && 0 <= x && x + n <= w && 0 <= j < h && 0 <= j + off.y < sh && 0 <= x + off.x && x + off.x + n <= sw
            && Copied(before, rows[j := rows[j][..x] + src[j + off.y][x + off.x..x + off.x + n] + rows[j][x + n..]],
                      w, h, src, sw, sh, off, clip, y + 1)
  {
  }

  lemma {:induction false} ClipWithin(w: nat, h: nat, a: Rect, b: Rect)
    ensures var r := Intersection(Intersection(Outline(w, h), a), b);
            r.size.x > 0 && r.size.y > 0 ==>
              0 <= r.pos.x && r.pos.x + r.size.x <= w && 0 <= r.pos.y && r.pos.y + r.size.y <= h
              && a.pos.x <= r.pos.x && r.pos.x + r.size.x <= a.pos.x + a.size.x
              && a.pos.y <= r.pos.y && r.pos.y + r.size.y <= a.pos.y + a.size.y
  {
  }
}
