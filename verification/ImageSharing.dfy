/** What an application still shares with its cached image, and what stores of the kernel do to it. */
module ImageSharing {
  import opened Basics
  import opened PageTables
  import opened PageMapping
  import opened PageOwnership
  import opened AppInvariant

  /** A cached application image. */
  ghost predicate ImageOk(m: Memory, u: set<Frame>, image: Frame)
  {
    Within(m, u, image, TOP, USER) && Open(m, image, TOP, USER)
  }

  /** Page `q` is mapped read-only. */
  ghost predicate ReadOnly(m: Memory, r: Frame, q: Path)
  {
    Leaf(m, r, q).Some? && !Leaf(m, r, q).value.writable
  }

  /** The pages mapped read-only are the image's. User mode never writes to them, but the kernel does when a system
      call stores through a pointer of the application, since it ignores that a page is read-only. */
  ghost predicate Sharing(bm: Memory, m: Memory, r: Frame, image: Frame)
  {
    forall q: Path | |q| == TOP && USER <= q[0] && ReadOnly(m, r, q) ::
      Leaf(bm, image, q).Some? && Leaf(bm, image, q).value.addr == Leaf(m, r, q).value.addr
  }

  ghost predicate ImageFrame(m: Memory, image: Frame, g: Frame)
  {
    exists q: Path :: |q| == TOP && USER <= q[0] && Leaf(m, image, q).Some? && Leaf(m, image, q).value.addr == g
  }

  /** From `sm` to `bm` nothing but the content of pages of the image has changed. */
  ghost predicate OnlyImage(sm: Memory, bm: Memory, base: set<Frame>, image: Frame)
  {
    && |bm| == |sm|
    && (forall g: Frame | g in base && g < |sm| :: bm[g] == sm[g] || ImageFrame(sm, image, g))
    && (forall q: Path | |q| == TOP && USER <= q[0] :: Leaf(bm, image, q) == Leaf(sm, image, q))
  }

  /** The application at `r` was started from `image`, when the rest of the system had memory `sm`; now it has `bm`. */
  ghost predicate Linked(m: Memory, r: Frame, base: set<Frame>, bm: Memory, image: Frame, sm: Memory)
  {
    ImageOk(bm, base, image) && Sharing(bm, m, r, image) && OnlyImage(sm, bm, base, image)
  }

  ghost predicate SameLeaves(m0: Memory, m1: Memory, r: Frame)
  {
    forall q: Path | |q| == TOP && USER <= q[0] :: Leaf(m1, r, q) == Leaf(m0, r, q)
  }

  /** Only the leaf entry of page `q` may have changed, and `q` is now writable. */
  ghost predicate OnlyLeaf(m0: Memory, m1: Memory, r: Frame, q: Path)
  {
    && Leaf(m1, r, q).Some? && Leaf(m1, r, q).value.writable
    && forall p: Path | |p| == TOP && USER <= p[0] && p != q :: Leaf(m1, r, p) == Leaf(m0, r, p)
  }

  /** A page that is read-only was so before. */
  ghost predicate FewerReadOnly(m0: Memory, m1: Memory, r: Frame)
  {
    forall q: Path | |q| == TOP && USER <= q[0] && ReadOnly(m1, r, q) :: Leaf(m1, r, q) == Leaf(m0, r, q)
  }

  lemma {:induction false} FewerLinked(m0: Memory, m1: Memory, r: Frame, base: set<Frame>, bm: Memory, image: Frame, sm: Memory)
    requires Linked(m0, r, base, bm, image, sm) && FewerReadOnly(m0, m1, r)
    ensures Linked(m1, r, base, bm, image, sm)
  {
    hide ImageOk, OnlyImage, Leaf;
    forall q: Path | |q| == TOP && USER <= q[0] && ReadOnly(m1, r, q)
      ensures Leaf(bm, image, q).Some? && Leaf(bm, image, q).value.addr == Leaf(m1, r, q).value.addr
    {
      assert ReadOnly(m0, r, q);
    }
  }

  lemma {:induction false} OnlyLeafFewer(m0: Memory, m1: Memory, r: Frame, q: Path)
    requires OnlyLeaf(m0, m1, r, q) || SameLeaves(m0, m1, r)
    ensures FewerReadOnly(m0, m1, r)
  {
    hide Leaf;
  }

  /** A page that is read-only belongs to the rest of the system. */
  lemma {:induction false} ReadOnlyInBase(m: Memory, u: set<Frame>, r: Frame, base: set<Frame>, bm: Memory, q: Path)
    requires AppOk(m, u, r, base, bm) && |q| == TOP && USER <= q[0] && ReadOnly(m, r, q)
    ensures Leaf(m, r, q).value.addr in base && Leaf(m, r, q).value.addr < |m|
    ensures Leaf(m, r, q).value.addr !in Tables(m, r, TOP, USER)
  {
    hide TreeOk, Frames, Tables, Owned, Open, Leaf;
    LeafFrame(m, r, q, USER);
    SharedNotOwned(m, r, q);
    RootFacts(m, u, r, TOP, USER);
  }

  /** New content in the frame of one page of a tree shows at that page and nowhere else. */
  lemma {:induction false} StoreShows(m: Memory, u: set<Frame>, f: Frame, q: Path, t: Table)
    requires Within(m, u, f, TOP, USER) && |q| == TOP && USER <= q[0] && Leaf(m, f, q).Some?
    ensures var g := Leaf(m, f, q).value.addr;
            && g < |m| && Within(m[g := t], u, f, TOP, USER) && SameOn(m, m[g := t], Tables(m, f, TOP, USER))
            && (Open(m, f, TOP, USER) ==> Open(m[g := t], f, TOP, USER)) && SameLeaves(m, m[g := t], f)
            && (forall p: Path | |p| == TOP && USER <= p[0] :: View(m[g := t], f, p) == if p == q then Some(t) else View(m, f, p))
  {
    hide TreeOk, Frames, Tables, Owned, Open, Leaf;
    var g := Leaf(m, f, q).value.addr;
    LeafFrame(m, f, q, USER);
    var m1 := m[g := t];
    Framing(m, m1, f, TOP, USER);
    forall p: Path | |p| == TOP && USER <= p[0]
      ensures View(m1, f, p) == (if p == q then Some(t) else View(m, f, p)) && Leaf(m1, f, p) == Leaf(m, f, p)
    {
      LeafFraming(m, m1, f, p, USER);
      if p != q && Leaf(m, f, p).Some? && Leaf(m, f, p).value.addr == g { LeafInjective(m, f, p, q, USER); }
    }
  }

  lemma {:induction false} StoreKeepsApp(m: Memory, u: set<Frame>, r: Frame, base: set<Frame>, bm: Memory, q: Path, t: Table)
    requires AppOk(m, u, r, base, bm) && |q| == TOP && USER <= q[0] && ReadOnly(m, r, q)
    ensures var g := Leaf(m, r, q).value.addr; g in base && g < |m| && g < |bm| && AppOk(m[g := t], u, r, base, bm[g := t])
  {
    hide TreeOk, Frames, Tables, Owned, Open, Leaf;
    var g := Leaf(m, r, q).value.addr;
    ReadOnlyInBase(m, u, r, base, bm, q);
    Framing(m, m[g := t], r, TOP, USER);
  }

  /** A store into a page that is still shared goes into the image: the application and the image show it, and
      nothing else changes. */
  lemma {:induction false} StoreShared(m: Memory, u: set<Frame>, r: Frame, base: set<Frame>, bm: Memory, image: Frame, sm: Memory,
                                       q: Path, t: Table)
    requires AppOk(m, u, r, base, bm) && Linked(m, r, base, bm, image, sm)
    requires |q| == TOP && USER <= q[0] && ReadOnly(m, r, q)
    ensures var g := Leaf(m, r, q).value.addr;
            && g in base && g < |m| && g < |bm|
            && AppOk(m[g := t], u, r, base, bm[g := t]) && Linked(m[g := t], r, base, bm[g := t], image, sm)
            && SameLeaves(m, m[g := t], r)
            && (forall p: Path | |p| == TOP && USER <= p[0] ::
                  && View(m[g := t], r, p) == (if p == q then Some(t) else View(m, r, p))
                  && View(bm[g := t], image, p) == (if p == q then Some(t) else View(bm, image, p)))
  {
    hide TreeOk, Frames, Tables, Owned, Open, Leaf, View;
    var g := Leaf(m, r, q).value.addr;
    StoreKeepsApp(m, u, r, base, bm, q, t);
    assert Leaf(bm, image, q).Some? && Leaf(bm, image, q).value.addr == g;
    StoreShows(m, u, r, q, t);
    StoreShows(bm, base, image, q, t);
    StoreLinked(m, r, base, bm, image, sm, q, t);
  }

  lemma {:induction false} StoreLinked(m: Memory, r: Frame, base: set<Frame>, bm: Memory, image: Frame, sm: Memory, q: Path, t: Table)
    requires Linked(m, r, base, bm, image, sm) && |q| == TOP && USER <= q[0] && ReadOnly(m, r, q)
    requires var g := Leaf(m, r, q).value.addr;
             g < |m| && g < |bm| && ImageOk(bm[g := t], base, image) && SameLeaves(m, m[g := t], r) && SameLeaves(bm, bm[g := t], image)
    ensures var g := Leaf(m, r, q).value.addr; Linked(m[g := t], r, base, bm[g := t], image, sm)
  {
    hide ImageOk, Leaf;
    var g := Leaf(m, r, q).value.addr;
    assert Leaf(sm, image, q) == Leaf(bm, image, q);
    assert ImageFrame(sm, image, g);
    forall p: Path | |p| == TOP && USER <= p[0] && ReadOnly(m[g := t], r, p)
      ensures Leaf(bm[g := t], image, p).Some? && Leaf(bm[g := t], image, p).value.addr == Leaf(m[g := t], r, p).value.addr
    {
      assert ReadOnly(m, r, p);
    }
  }

  // ----- when the image is as it was -----

  /** Memory that agrees on the frames of the rest of the system shows the same image. */
  lemma {:induction false} SameImage(m0: Memory, m1: Memory, base: set<Frame>, image: Frame)
    requires ImageOk(m0, base, image) && SameOn(m0, m1, base)
    ensures ImageOk(m1, base, image) && SameLeaves(m0, m1, image)
    ensures forall q: Path | |q| == TOP && USER <= q[0] :: View(m1, image, q) == View(m0, image, q)
  {
    hide TreeOk, Frames, Tables, Owned, Open, Leaf;
    TablesInFrames(m0, image, TOP, USER);
    Framing(m0, m1, image, TOP, USER);
    forall q: Path | |q| == TOP && USER <= q[0]
      ensures View(m1, image, q) == View(m0, image, q) && Leaf(m1, image, q) == Leaf(m0, image, q)
    {
      LeafFraming(m0, m1, image, q, USER);
      if Leaf(m0, image, q).Some? { LeafFrame(m0, image, q, USER); }
    }
  }

  /** All frames of the rest of the system are as they were iff the image shows what it showed. */
  lemma {:induction false} KeptIff(sm: Memory, bm: Memory, base: set<Frame>, image: Frame)
    requires ImageOk(sm, base, image) && OnlyImage(sm, bm, base, image)
    ensures SameOn(sm, bm, base) <==> forall q: Path | |q| == TOP && USER <= q[0] :: View(bm, image, q) == View(sm, image, q)
  {
    hide TreeOk, Frames, Tables, Owned, Open, Leaf, ImageOk;
    if SameOn(sm, bm, base) {
      SameImage(sm, bm, base, image);
    } else {
      var g: Frame :| g in base && g < |sm| && bm[g] != sm[g];
      var q: Path :| |q| == TOP && USER <= q[0] && Leaf(sm, image, q).Some? && Leaf(sm, image, q).value.addr == g;
      assert Leaf(bm, image, q) == Leaf(sm, image, q);
      assert View(bm, image, q) == Some(bm[g]) && View(sm, image, q) == Some(sm[g]);
    }
  }

  /** At the start application and image share all pages. */
  lemma {:induction false} StartLinked(m0: Memory, m1: Memory, r: Frame, base: set<Frame>, image: Frame)
    requires ImageOk(m0, base, image)
    requires forall q: Path | |q| == TOP && USER <= q[0] && Leaf(m1, r, q).Some? ::
               Leaf(m0, image, q).Some? && Leaf(m1, r, q).value.addr == Leaf(m0, image, q).value.addr
    ensures Linked(m1, r, base, m0, image, m0)
  {
    hide ImageOk, Leaf;
  }
}
