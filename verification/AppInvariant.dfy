/** What stays true of the kernel's memory while an application runs, and that every kind of change the
    kernel or the processor makes keeps it. */
module AppInvariant {
  import opened Basics
  import opened PageTables
  import opened PageMapping
  import opened PageSharing
  import opened PageOwnership
  import opened LinearAddresses

  const TOP: nat := 4
  const USER: nat := 256

  /** The frames in use are those of the rest of the system (`base`, still as in `bm`), the root, and
      exactly the frames the application's tree owns. */
  ghost predicate AppOk(m: Memory, u: set<Frame>, r: Frame, base: set<Frame>, bm: Memory)
  {
    && Within(m, u, r, TOP, USER) && Open(m, r, TOP, USER)
    && r !in base && base !! Owned(m, r, TOP, USER)
    && u == base + {r} + Owned(m, r, TOP, USER)
    && SameOn(bm, m, base)
  }

  /** The page content user mode sees at `q`. */
  ghost function View(m: Memory, r: Frame, q: Path): Option<Table>
  {
    match Leaf(m, r, q)
    case None => None
    case Some(e) => if e.addr < |m| then Some(m[e.addr]) else None
  }

  /** The processor's walk: the access rights are those of every entry on the way. */
  function Walk(m: Memory, f: Frame, q: Path): Option<(Frame, bool, bool)>
    decreases |q|
  {
    if q == [] || f >= |m| || !m[f][q[0]].present then None
    else
      var e := m[f][q[0]];
      if |q| == 1 then Some((e.addr, e.writable, e.user))
      else match Walk(m, e.addr, q[1..])
        case None => None
        case Some((g, w, u)) => Some((g, w && e.writable, u && e.user))
  }

  /** In an open tree the leaf entry alone decides: user mode reaches every page, and may write
      exactly the pages mapped writable. */
  lemma {:induction false} WalkIsLeaf(m: Memory, f: Frame, q: Path, lo: nat)
    requires |q| >= 1 && lo <= q[0] && TreeOk(m, f, |q|, lo) && Open(m, f, |q|, lo)
    ensures Walk(m, f, q) == match Leaf(m, f, q)
                             case None => None
                             case Some(e) => Some((e.addr, e.writable, true))
    decreases |q|
  {
    if m[f][q[0]].present {
      assert Child(m, f, q[0]) == Some(m[f][q[0]].addr);
      if |q| > 1 { WalkIsLeaf(m, m[f][q[0]].addr, q[1..], 0); }
    }
  }

  lemma {:induction false} SetupKeepsApp(m0: Memory, u0: set<Frame>, m1: Memory, u1: set<Frame>,
                                         r: Frame, base: set<Frame>, bm: Memory, a: nat, n: nat)
    requires AppOk(m0, u0, r, base, bm)
    requires Setup(m0, u0, m1, u1, r, TOP, USER, a, n, true)
    requires forall g: Frame :: !Exposed(m0, r, TOP, USER, a, n, g)
    ensures AppOk(m1, u1, r, base, bm)
  {
    hide TreeOk, Frames, Tables, Owned, Open, Leaf, Exposed, PageRule;
    SetupStaysApart(m0, u0, m1, u1, r, TOP, USER, a, n, base);
    SetupWithinW(m0, u0, m1, u1, r, a, n);
    forall g: Frame | g in base && g < |bm|
      ensures m1[g] == m0[g]
    {
      BaseNoTable(m0, u0, r, base, bm, g);
    }
  }

  lemma {:induction false} SetupWithinW(m0: Memory, u0: set<Frame>, m1: Memory, u1: set<Frame>, r: Frame, a: nat, n: nat)
    requires Within(m0, u0, r, TOP, USER) && Setup(m0, u0, m1, u1, r, TOP, USER, a, n, true)
    ensures Within(m1, u1, r, TOP, USER)
  {
    SetupWithin(m0, u0, m1, u1, r, TOP, USER, a, n, true);
  }

  lemma {:induction false} BaseNoTable(m: Memory, u: set<Frame>, r: Frame, base: set<Frame>, bm: Memory, g: Frame)
    requires AppOk(m, u, r, base, bm) && g in base
    ensures g !in Tables(m, r, TOP, USER)
  {
    hide TreeOk, Frames, Tables, Owned, Open;
    if g in Tables(m, r, TOP, USER) { TablesOwned(m, r, TOP, USER, g); }
  }

  /** Writing into a page mapped writable. */
  lemma {:induction false} WriteKeepsApp(m: Memory, u: set<Frame>, r: Frame, base: set<Frame>, bm: Memory, q: Path, t: Table)
    requires AppOk(m, u, r, base, bm)
    requires |q| == TOP && USER <= q[0] && Leaf(m, r, q).Some? && Leaf(m, r, q).value.writable
    ensures var g := Leaf(m, r, q).value.addr;
            && g < |m| && g !in base
            && AppOk(m[g := t], u, r, base, bm)
            && (forall p: Path | |p| == TOP && USER <= p[0] ::
                  View(m[g := t], r, p) == (if p == q then Some(t) else View(m, r, p)) && Leaf(m[g := t], r, p) == Leaf(m, r, p))
  {
    hide TreeOk, Frames, Tables, Owned, Open, Leaf;
    var g := Leaf(m, r, q).value.addr;
    LeafFrame(m, r, q, USER);
    LeafOwned(m, r, q, USER);
    var m1 := m[g := t];
    Framing(m, m1, r, TOP, USER);
    forall p: Path | |p| == TOP && USER <= p[0]
      ensures View(m1, r, p) == (if p == q then Some(t) else View(m, r, p)) && Leaf(m1, r, p) == Leaf(m, r, p)
    {
      LeafFraming(m, m1, r, p, USER);
      if p != q && Leaf(m, r, p).Some? && Leaf(m, r, p).value.addr == g { LeafInjective(m, r, p, q, USER); }
    }
  }

  /** A view after pages were mapped: new pages read as zero, the others as before. */
  lemma {:induction false} SetupView(m0: Memory, u0: set<Frame>, m1: Memory, u1: set<Frame>, r: Frame, a: nat, n: nat, p: Path)
    requires Within(m0, u0, r, TOP, USER) && Setup(m0, u0, m1, u1, r, TOP, USER, a, n, true)
    requires |p| == TOP && USER <= p[0]
    ensures View(m1, r, p) == if a <= Num(p) < a + n && View(m0, r, p).None? then Some(ZeroTable()) else View(m0, r, p)
    ensures a <= Num(p) < a + n ==> Leaf(m1, r, p).Some? && Leaf(m1, r, p).value.writable
    ensures !(a <= Num(p) < a + n) ==> Leaf(m1, r, p) == Leaf(m0, r, p)
  {
    hide TreeOk, Frames, Tables, Owned, Open, Leaf;
    assert PageRule(m0, u0, m1, r, p, a, n, true);
    if Leaf(m0, r, p).Some? { LeafFrame(m0, r, p, USER); }
  }

  /** Copy on write: a fresh frame takes over the content of a shared page. */
  lemma {:induction false} CopyKeepsApp(m0: Memory, u0: set<Frame>, m2: Memory, m3: Memory, r: Frame, base: set<Frame>, bm: Memory, q: Path, p: Frame)
    requires AppOk(m0, u0, r, base, bm)
    requires |q| == TOP && USER <= q[0] && Leaf(m0, r, q).Some? && !Leaf(m0, r, q).value.writable
    requires p !in u0 && p < |m0| && Leaf(m0, r, q).value.addr < |m0|
    requires m2 == m0[p := m0[Leaf(m0, r, q).value.addr]]
    requires Leaf(m2, r, q) == Leaf(m0, r, q)
    requires Replaced(m2, m3, r, q, USER, p)
    ensures AppOk(m3, u0 + {p}, r, base, bm) && |m3| == |m0|
    ensures forall t: Path | |t| == TOP && USER <= t[0] :: View(m3, r, t) == View(m0, r, t)
    ensures Leaf(m3, r, q).Some? && Leaf(m3, r, q).value.writable
    ensures forall t: Path | |t| == TOP && USER <= t[0] && t != q :: Leaf(m3, r, t) == Leaf(m0, r, t)
  {
    hide TreeOk, Frames, Tables, Owned, Open, Leaf;
    var x := Leaf(m0, r, q).value.addr;
    LeafFrame(m0, r, q, USER);
    FreshFraming(m0, u0, m2, r, p);
    SharedNotOwned(m0, r, q);
    RootFacts(m0, u0, r, TOP, USER);
    TablesInFrames(m0, r, TOP, USER);
    forall g: Frame | g in base && g < |bm|
      ensures m3[g] == m0[g]
    {
      BaseNoTable(m0, u0, r, base, bm, g);
    }
    forall t: Path | |t| == TOP && USER <= t[0]
      ensures View(m3, r, t) == View(m0, r, t) && (t != q ==> Leaf(m3, r, t) == Leaf(m0, r, t))
    {
      LeafFraming(m0, m2, r, t, USER);
      if Leaf(m0, r, t).Some? { LeafFrame(m0, r, t, USER); }
    }
  }

  lemma {:induction false} FreshFraming(m0: Memory, u0: set<Frame>, m2: Memory, r: Frame, p: Frame)
    requires Within(m0, u0, r, TOP, USER) && p !in u0 && p < |m0|
    requires |m2| == |m0| && forall g: Frame | g < |m0| && g != p :: m2[g] == m0[g]
    ensures SameTree(m0, m2, r, TOP, USER) && SameOn(m0, m2, Tables(m0, r, TOP, USER))
  {
    hide TreeOk, Frames, Tables, Owned, Open;
    TablesInFrames(m0, r, TOP, USER);
    Framing(m0, m2, r, TOP, USER);
  }

  lemma {:induction false} SharedNotOwned(m: Memory, r: Frame, q: Path)
    requires TreeOk(m, r, TOP, USER) && |q| == TOP && USER <= q[0]
    requires Leaf(m, r, q).Some? && !Leaf(m, r, q).value.writable
    ensures Leaf(m, r, q).value.addr !in Owned(m, r, TOP, USER)
  {
    hide TreeOk, Frames, Tables, Owned, Open, Leaf;
    LeafFrame(m, r, q, USER);
    var g := Leaf(m, r, q).value.addr;
    if g in Owned(m, r, TOP, USER) {
      var t := OwnedKind(m, r, TOP, USER, g);
      LeafInjective(m, r, q, t, USER);
    }
  }

  /** The copy of an image is an application's first tree: it owns its tables and shows the image. */
  lemma {:induction false} CopyStartsApp(m0: Memory, u0: set<Frame>, m1: Memory, u1: set<Frame>, r: Frame, image: Frame, base: set<Frame>, bm: Memory)
    requires CopyReady(m0, u0, r, image, TOP, USER) && Open(m0, image, TOP, USER)
    requires Copied(m0, u0, m1, u1, r, image, TOP, USER, ENTRIES)
    requires u0 == base + {r} && r !in base
    requires SameOn(bm, m0, base)
    ensures AppOk(m1, u1, r, base, bm)
    ensures forall q: Path | |q| == TOP && USER <= q[0] ::
              && View(m1, r, q) == View(m0, image, q)
              && (Leaf(m1, r, q).Some? <==> Leaf(m0, image, q).Some?)
              && (Leaf(m1, r, q).Some? ==> !Leaf(m1, r, q).value.writable && Leaf(m1, r, q).value.addr == Leaf(m0, image, q).value.addr)
  {
    hide TreeOk, Frames, Tables, Owned, Open, Leaf;
    CopyFrames(m0, u0, m1, u1, r, image);
    RootFacts(m1, u1, r, TOP, USER);
    forall q: Path | |q| == TOP && USER <= q[0]
      ensures View(m1, r, q) == View(m0, image, q) && (Leaf(m1, r, q).Some? <==> Leaf(m0, image, q).Some?)
      ensures Leaf(m1, r, q).Some? ==> !Leaf(m1, r, q).value.writable && Leaf(m1, r, q).value.addr == Leaf(m0, image, q).value.addr
    {
      assert ShareRule(m0, m1, r, image, q, ENTRIES);
      if Leaf(m0, image, q).Some? {
        LeafFrame(m0, image, q, USER);
        assert Leaf(m0, image, q).value.addr != r;
      }
    }
  }

  lemma {:induction false} CopyFrames(m0: Memory, u0: set<Frame>, m1: Memory, u1: set<Frame>, r: Frame, image: Frame)
    requires CopyReady(m0, u0, r, image, TOP, USER)
    requires Copied(m0, u0, m1, u1, r, image, TOP, USER, ENTRIES)
    ensures Within(m1, u1, r, TOP, USER)
  {
    hide TreeOk, Tables, Owned, Open, Leaf, Frames;
    forall g | g in Frames(m1, r, TOP, USER)
      ensures g in u1
    {
      if g != r {
        var j := WhichKid(m1, r, TOP, USER, g);
        assert g in (u1 - u0) + KidFrames(m0, image, TOP, USER, j);
        KidFacts(m0, u0, image, TOP, USER, j);
      }
    }
  }
}
