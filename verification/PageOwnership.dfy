/** Who owns which frame: the frames CleanPageMap gives back are the tables and the pages mapped
    writable, and how mapping pages changes that set. */
module PageOwnership {
  import opened PageTables
  import opened PageMapping

  /** The tables below an open root are owned. */
  lemma {:induction false} TablesOwned(m: Memory, f: Frame, level: nat, lo: nat, g: Frame)
    requires TreeOk(m, f, level, lo) && Open(m, f, level, lo) && g in Tables(m, f, level, lo) && g != f
    ensures g in Owned(m, f, level, lo)
    decreases level
  {
    var i := WhichTable(m, f, level, lo, g);
    var c := Child(m, f, i).value;
    assert TreeOk(m, c, level - 1, 0);
    if level > 1 && g != c { TablesOwned(m, c, level - 1, 0, g); }
    assert g in KidOwned(m, f, level, lo, i);
  }

  lemma {:induction false} WhichTable(m: Memory, f: Frame, level: nat, lo: nat, h: Frame) returns (j: Index)
    requires h in Tables(m, f, level, lo) && h != f
    ensures h in KidTables(m, f, level, lo, j)
  {
    j :| h in KidTables(m, f, level, lo, j);
  }

  /** A page mapped writable is owned. */
  lemma {:induction false} LeafOwned(m: Memory, f: Frame, q: Path, lo: nat)
    requires |q| >= 1 && lo <= q[0] && TreeOk(m, f, |q|, lo) && Leaf(m, f, q).Some? && Leaf(m, f, q).value.writable
    ensures Leaf(m, f, q).value.addr in Owned(m, f, |q|, lo)
    decreases |q|
  {
    var c := Child(m, f, q[0]).value;
    assert TreeOk(m, c, |q| - 1, 0);
    if |q| > 1 { LeafOwned(m, c, q[1..], 0); }
    assert Leaf(m, f, q).value.addr in KidOwned(m, f, |q|, lo, q[0]);
  }

  /** Every frame of the tree is a table or the frame of some page. */
  lemma {:induction false} FrameKind(m: Memory, f: Frame, level: nat, lo: nat, g: Frame) returns (q: Path)
    requires level >= 1 && TreeOk(m, f, level, lo) && g in Frames(m, f, level, lo) && g !in Tables(m, f, level, lo)
    ensures |q| == level && lo <= q[0] && Leaf(m, f, q).Some? && Leaf(m, f, q).value.addr == g
    decreases level
  {
    assert f in Tables(m, f, level, lo);
    var i := WhichKid(m, f, level, lo, g);
    var c := Child(m, f, i).value;
    assert TreeOk(m, c, level - 1, 0);
    if level == 1 {
      q := [i];
    } else {
      KidInTables(m, f, level, lo, i);
      var t := FrameKind(m, c, level - 1, 0, g);
      q := [i] + t;
      assert q[1..] == t;
    }
  }

  /** An owned frame that is no table is the frame of a page mapped writable. */
  lemma {:induction false} OwnedKind(m: Memory, f: Frame, level: nat, lo: nat, g: Frame) returns (q: Path)
    requires level >= 1 && TreeOk(m, f, level, lo) && g in Owned(m, f, level, lo) && g !in Tables(m, f, level, lo)
    ensures |q| == level && lo <= q[0] && Leaf(m, f, q).Some? && Leaf(m, f, q).value.addr == g
    ensures Leaf(m, f, q).value.writable
    decreases level
  {
    var i := WhichOwner(m, f, level, lo, g);
    var c := Child(m, f, i).value;
    assert TreeOk(m, c, level - 1, 0);
    KidInTables(m, f, level, lo, i);
    if level == 1 {
      q := [i];
    } else {
      assert c in Tables(m, c, level - 1, 0);
      var t := OwnedKind(m, c, level - 1, 0, g);
      q := [i] + t;
      assert q[1..] == t;
    }
  }

  /** `g` is the frame of a page in the range that was mapped read-only, that is, a shared page. */
  ghost predicate Exposed(m: Memory, f: Frame, level: nat, lo: nat, a: nat, n: nat, g: Frame)
  {
    exists q: Path :: |q| == level && level >= 1 && lo <= q[0] && a <= Num(q) < a + n
                      && Leaf(m, f, q).Some? && !Leaf(m, f, q).value.writable && Leaf(m, f, q).value.addr == g
  }

  /** Mapping pages writable makes the tree own the frames it took and the shared pages it ran over. */
  lemma {:induction false} SetupOwns(m0: Memory, u0: set<Frame>, m1: Memory, u1: set<Frame>,
                                     f: Frame, level: nat, lo: nat, a: nat, n: nat, g: Frame)
    requires level >= 1 && Within(m0, u0, f, level, lo) && Open(m0, f, level, lo)
    requires Setup(m0, u0, m1, u1, f, level, lo, a, n, true)
    ensures g in Owned(m1, f, level, lo) <==>
            g in Owned(m0, f, level, lo) || g in u1 - u0 || Exposed(m0, f, level, lo, a, n, g)
  {
    if g in Owned(m1, f, level, lo) { SetupOwnsOnly(m0, u0, m1, u1, f, level, lo, a, n, g); }
    if g in Owned(m0, f, level, lo) { SetupKeepsOwned(m0, u0, m1, u1, f, level, lo, a, n, g); }
    if g in u1 - u0 { SetupOwnsNew(m0, u0, m1, u1, f, level, lo, a, n, g); }
    if Exposed(m0, f, level, lo, a, n, g) {
      var q: Path :| |q| == level && level >= 1 && lo <= q[0] && a <= Num(q) < a + n
                      && Leaf(m0, f, q).Some? && !Leaf(m0, f, q).value.writable && Leaf(m0, f, q).value.addr == g;
      assert PageRule(m0, u0, m1, f, q, a, n, true);
      LeafOwned(m1, f, q, lo);
    }
  }

  lemma {:induction false} SetupOwnsOnly(m0: Memory, u0: set<Frame>, m1: Memory, u1: set<Frame>,
                                         f: Frame, level: nat, lo: nat, a: nat, n: nat, g: Frame)
    requires level >= 1 && Within(m0, u0, f, level, lo) && Open(m0, f, level, lo)
    requires Setup(m0, u0, m1, u1, f, level, lo, a, n, true)
    requires g in Owned(m1, f, level, lo)
    ensures g in Owned(m0, f, level, lo) || g in u1 - u0 || Exposed(m0, f, level, lo, a, n, g)
  {
    hide TreeOk, Frames, Tables, Owned, Open, Leaf;
    OwnedFrames(m1, f, level, lo);
    if g in Tables(m1, f, level, lo) {
      if g in Tables(m0, f, level, lo) { TablesOwned(m0, f, level, lo, g); }
    } else {
      var q := OwnedKind(m1, f, level, lo, g);
      assert PageRule(m0, u0, m1, f, q, a, n, true);
      if Leaf(m0, f, q).Some? && Leaf(m0, f, q).value.writable { LeafOwned(m0, f, q, lo); }
    }
  }

  lemma {:induction false} SetupKeepsOwned(m0: Memory, u0: set<Frame>, m1: Memory, u1: set<Frame>,
                                           f: Frame, level: nat, lo: nat, a: nat, n: nat, g: Frame)
    requires level >= 1 && Within(m0, u0, f, level, lo) && Open(m0, f, level, lo)
    requires Setup(m0, u0, m1, u1, f, level, lo, a, n, true)
    requires g in Owned(m0, f, level, lo)
    ensures g in Owned(m1, f, level, lo)
  {
    hide TreeOk, Frames, Tables, Owned, Open, Leaf;
    OwnedFrames(m0, f, level, lo);
    if g in Tables(m0, f, level, lo) {
      TablesOwned(m1, f, level, lo, g);
    } else {
      var q := OwnedKind(m0, f, level, lo, g);
      assert PageRule(m0, u0, m1, f, q, a, n, true);
      LeafOwned(m1, f, q, lo);
    }
  }

  lemma {:induction false} SetupOwnsNew(m0: Memory, u0: set<Frame>, m1: Memory, u1: set<Frame>,
                                        f: Frame, level: nat, lo: nat, a: nat, n: nat, g: Frame)
    requires level >= 1 && Within(m0, u0, f, level, lo) && Open(m0, f, level, lo)
    requires Setup(m0, u0, m1, u1, f, level, lo, a, n, true)
    requires g in u1 - u0
    ensures g in Owned(m1, f, level, lo)
  {
    hide TreeOk, Frames, Tables, Owned, Open, Leaf;
    RootFacts(m0, u0, f, level, lo);
    if g in Tables(m1, f, level, lo) {
      TablesOwned(m1, f, level, lo, g);
    } else {
      var q := FrameKind(m1, f, level, lo, g);
      assert PageRule(m0, u0, m1, f, q, a, n, true);
      if Leaf(m0, f, q).Some? { LeafFrame(m0, f, q, lo); }
      LeafOwned(m1, f, q, lo);
    }
  }

  /** Mapping keeps the owned frames apart from frames in use elsewhere iff it runs over no shared page. */
  lemma {:induction false} SetupStaysApart(m0: Memory, u0: set<Frame>, m1: Memory, u1: set<Frame>,
                                           f: Frame, level: nat, lo: nat, a: nat, n: nat, base: set<Frame>)
    requires level >= 1 && Within(m0, u0, f, level, lo) && Open(m0, f, level, lo)
    requires Setup(m0, u0, m1, u1, f, level, lo, a, n, true)
    requires base <= u0 && u0 == base + {f} + Owned(m0, f, level, lo) && f !in base && base !! Owned(m0, f, level, lo)
    ensures base !! Owned(m1, f, level, lo) <==> forall g: Frame :: !Exposed(m0, f, level, lo, a, n, g)
    ensures (forall g: Frame :: !Exposed(m0, f, level, lo, a, n, g)) ==>
              u1 == base + {f} + Owned(m1, f, level, lo)
  {
    hide TreeOk, Frames, Tables, Owned, Open, Leaf, Exposed, Setup, Within;
    forall g: Frame
      ensures g in Owned(m1, f, level, lo) <==>
              g in Owned(m0, f, level, lo) || g in u1 - u0 || Exposed(m0, f, level, lo, a, n, g)
    {
      SetupOwns(m0, u0, m1, u1, f, level, lo, a, n, g);
    }
    assert u0 <= u1 by { SetupGrows(m0, u0, m1, u1, f, level, lo, a, n); }
    forall g: Frame | Exposed(m0, f, level, lo, a, n, g)
      ensures g in base && g in Owned(m1, f, level, lo)
    {
      ExposedInBase(m0, u0, f, level, lo, a, n, g);
    }
  }

  lemma {:induction false} SetupGrows(m0: Memory, u0: set<Frame>, m1: Memory, u1: set<Frame>, f: Frame, level: nat, lo: nat, a: nat, n: nat)
    requires Setup(m0, u0, m1, u1, f, level, lo, a, n, true)
    ensures u0 <= u1
  {
  }

  /** A shared page's frame is in use, and neither the root nor an owned frame. */
  lemma {:induction false} ExposedInBase(m: Memory, u: set<Frame>, f: Frame, level: nat, lo: nat, a: nat, n: nat, g: Frame)
    requires level >= 1 && Within(m, u, f, level, lo) && Exposed(m, f, level, lo, a, n, g)
    ensures g in u && g != f && g !in Owned(m, f, level, lo)
  {
    var q: Path :| |q| == level && level >= 1 && lo <= q[0] && a <= Num(q) < a + n
                   && Leaf(m, f, q).Some? && !Leaf(m, f, q).value.writable && Leaf(m, f, q).value.addr == g;
    hide TreeOk, Frames, Tables, Owned, Open, Leaf;
    LeafFrame(m, f, q, lo);
    RootFacts(m, u, f, level, lo);
    if g in Owned(m, f, level, lo) {
      var r := OwnedKind(m, f, level, lo, g);
      LeafInjective(m, f, q, r, lo);
    }
  }
}
