/** Sharing a page map read-only, and giving one page a private frame.  The relations Copied and Replaced say
    exactly what CopyPageMaps and SetPageContent do to frames, ownership and translations; the lemmas are the steps
    of the two loops, one for a subtree and one for a page each. */
module PageSharing {
  import opened Basics
  import opened PageTables
  import opened PageMapping

  /** The copy translates the page to the same frame, read-only. */
  ghost predicate Shared(src: Option<Entry>, copy: Option<Entry>)
  {
    if src.None? then copy.None? else copy == Some(src.value.(writable := false))
  }

  ghost predicate ShareRule(m0: Memory, m1: Memory, d: Frame, s: Frame, q: Path, n: nat)
    requires |q| >= 1
  {
    Shared(Leaf(m0, s, q), Leaf(m1, d, q)) || (n <= q[0] && Leaf(m1, d, q).None?)
  }

  /** The tree at `d` shares the pages of the first `n` entries of `s` read-only; the frames taken are
      exactly the tables below `d`, and they are all `d` owns; nothing else changed. */
  ghost predicate Copied(m0: Memory, u0: set<Frame>, m1: Memory, u1: set<Frame>,
                         d: Frame, s: Frame, level: nat, lo: nat, n: nat)
  {
    && |m1| == |m0| && u0 <= u1 && d < |m0|
    && TreeOk(m1, d, level, lo)
    && Tables(m1, d, level, lo) == {d} + (u1 - u0)
    && (forall j: Index :: KidFrames(m1, d, level, lo, j) <= (u1 - u0) + KidFrames(m0, s, level, lo, j))
    && (Open(m0, s, level, lo) ==> Open(m1, d, level, lo) && Owned(m1, d, level, lo) == u1 - u0)
    && (forall g: Frame | g < |m0| && g != d && g !in u1 - u0 :: m1[g] == m0[g])
    && (forall j: Index | j < lo :: m1[d][j] == m0[d][j])
    && (forall q: Path | |q| == level && level >= 1 && lo <= q[0] :: ShareRule(m0, m1, d, s, q, n))
  }

  ghost predicate CopyReady(m: Memory, u: set<Frame>, d: Frame, s: Frame, level: nat, lo: nat)
  {
    && level >= 1 && Within(m, u, s, level, lo)
    && d < |m| && d in u && d !in Frames(m, s, level, lo)
  }

  /** No entry from `n` on is in use. */
  ghost predicate EmptyFrom(m: Memory, d: Frame, n: nat)
  {
    d < |m| && forall j: Index | n <= j :: !m[d][j].present
  }

  lemma {:induction false} CopyStart(m: Memory, u: set<Frame>, d: Frame, s: Frame, level: nat, lo: nat)
    requires CopyReady(m, u, d, s, level, lo) && EmptyFrom(m, d, lo)
    ensures Copied(m, u, m, u, d, s, level, lo, lo)
  {
    hide TreeOk, Frames, Tables, Open, Owned;
    EmptyTable(m, d, level, lo);
    forall j: Index
      ensures KidFrames(m, d, level, lo, j) == {}
    {
    }
  }

  /** The source tree is untouched while its copy is made. */
  lemma {:induction false} SourceKept(m0: Memory, u0: set<Frame>, m1: Memory, u1: set<Frame>, d: Frame, s: Frame, level: nat, lo: nat)
    requires CopyReady(m0, u0, d, s, level, lo) && |m1| == |m0|
    requires forall g: Frame | g < |m0| && g != d && g !in u1 - u0 :: m1[g] == m0[g]
    ensures SameOn(m0, m1, Tables(m0, s, level, lo))
    ensures SameTree(m0, m1, s, level, lo) && m1[s] == m0[s]
    ensures forall q: Path | |q| == level && lo <= q[0] :: Leaf(m1, s, q) == Leaf(m0, s, q)
  {
    hide TreeOk, Frames, Tables, Open, Owned, Leaf;
    RootFacts(m0, u0, s, level, lo);
    TablesInFrames(m0, s, level, lo);
    Framing(m0, m1, s, level, lo);
    forall q: Path | |q| == level && lo <= q[0]
      ensures Leaf(m1, s, q) == Leaf(m0, s, q)
    {
      LeafFraming(m0, m1, s, q, lo);
    }
  }

  /** Entry `i` of the copy about to be filled: a fresh table `c` under the source's own flags. */
  ghost predicate CopyEntry(m0: Memory, u0: set<Frame>, mb: Memory, ub: set<Frame>, mc: Memory, uc: set<Frame>,
                            d: Frame, s: Frame, level: nat, lo: nat, i: Index, c: Frame)
  {
    && level >= 2 && lo <= i && CopyReady(m0, u0, d, s, level, lo)
    && Copied(m0, u0, mb, ub, d, s, level, lo, i) && EmptyFrom(mb, d, i)
    && m0[s][i].present
    && c !in ub && c < |m0| && uc == ub + {c}
    && mc == mb[c := ZeroTable()][d := mb[d][i := m0[s][i].(addr := c)]]
  }

  lemma {:induction false} CopyChildReady(m0: Memory, u0: set<Frame>, mb: Memory, ub: set<Frame>, mc: Memory, uc: set<Frame>,
                       d: Frame, s: Frame, level: nat, lo: nat, i: Index, c: Frame)
    requires CopyEntry(m0, u0, mb, ub, mc, uc, d, s, level, lo, i, c)
    ensures c != d && EmptyFrom(mc, c, 0)
    ensures CopyReady(mc, uc, c, m0[s][i].addr, level - 1, 0)
    ensures Frames(mc, m0[s][i].addr, level - 1, 0) == KidFrames(m0, s, level, lo, i)
    ensures Open(mc, m0[s][i].addr, level - 1, 0) == Open(m0, m0[s][i].addr, level - 1, 0)
    ensures forall t: Path | |t| == level - 1 :: Leaf(mc, m0[s][i].addr, t) == Leaf(m0, m0[s][i].addr, t)
  {
    hide TreeOk, Frames, Tables, Open, Owned, Leaf;
    RootFacts(m0, u0, s, level, lo);
    var sc := m0[s][i].addr;
    ChildInRange(m0, u0, s, level, lo, i);
    KidFacts(m0, u0, s, level, lo, i);
    assert KidFrames(m0, s, level, lo, i) == Frames(m0, sc, level - 1, 0);
    assert KidFrames(m0, s, level, lo, i) <= Frames(m0, s, level, lo) by { KidInFrames(m0, s, level, lo, i); }
    assert CopyReady(m0, u0, d, sc, level - 1, 0);
    SourceKept(m0, u0, mc, uc, d, sc, level - 1, 0);
  }

  lemma {:induction false} KidInFrames(m: Memory, f: Frame, level: nat, lo: nat, i: Index)
    ensures KidFrames(m, f, level, lo, i) <= Frames(m, f, level, lo)
  {
  }

  lemma {:induction false} CopyChildFrames(m0: Memory, u0: set<Frame>, mb: Memory, ub: set<Frame>, mc: Memory, uc: set<Frame>, m2: Memory, u2: set<Frame>,
                        d: Frame, s: Frame, level: nat, lo: nat, i: Index, c: Frame, n: nat)
    requires CopyEntry(m0, u0, mb, ub, mc, uc, d, s, level, lo, i, c)
    requires Copied(mc, uc, m2, u2, c, m0[s][i].addr, level - 1, 0, n)
    ensures Frames(m2, c, level - 1, 0) <= (u2 - ub) + KidFrames(m0, s, level, lo, i)
  {
    hide TreeOk, Tables, Open, Owned, Leaf;
    CopyChildReady(m0, u0, mb, ub, mc, uc, d, s, level, lo, i, c);
    var sc := m0[s][i].addr;
    forall g | g in Frames(m2, c, level - 1, 0) && g != c
      ensures g in (u2 - ub) + KidFrames(m0, s, level, lo, i)
    {
      var k: Index :| g in KidFrames(m2, c, level - 1, 0, k);
      assert g in (u2 - uc) + KidFrames(mc, sc, level - 1, 0, k);
      KidInFrames(mc, sc, level - 1, 0, k);
    }
  }

  lemma {:induction false} CopyGraft(m0: Memory, u0: set<Frame>, mb: Memory, ub: set<Frame>, mc: Memory, uc: set<Frame>, m2: Memory, u2: set<Frame>,
                  d: Frame, s: Frame, level: nat, lo: nat, i: Index, c: Frame, n: nat)
    requires CopyEntry(m0, u0, mb, ub, mc, uc, d, s, level, lo, i, c)
    requires Copied(mc, uc, m2, u2, c, m0[s][i].addr, level - 1, 0, n)
    ensures m2[d] == mb[d][i := m0[s][i].(addr := c)]
    ensures Frames(m2, c, level - 1, 0) <= (u2 - ub) + KidFrames(m0, s, level, lo, i)
    ensures forall j: Index | j != i :: KidFrames(mb, d, level, lo, j) !! Frames(m2, c, level - 1, 0)
    ensures forall j: Index | j != i :: SameOn(mb, m2, KidTables(mb, d, level, lo, j))
    ensures d !in Frames(m2, c, level - 1, 0)
  {
    hide TreeOk, Tables, Open, Owned, Leaf, Frames, ShareRule;
    CopyChildFrames(m0, u0, mb, ub, mc, uc, m2, u2, d, s, level, lo, i, c, n);
    KidInFrames(m0, s, level, lo, i);
    forall j: Index | j != i
      ensures KidFrames(mb, d, level, lo, j) !! Frames(m2, c, level - 1, 0)
      ensures SameOn(mb, m2, KidTables(mb, d, level, lo, j))
    {
      KidsApart(m0, s, level, lo, i, j);
      KidFacts(m0, u0, s, level, lo, j);
      KidFacts(m0, u0, s, level, lo, i);
      KidInTables(mb, d, level, lo, j);
      KidTablesInKid(mb, d, level, lo, j);
    }
  }

  lemma {:induction false} KidTablesInKid(m: Memory, f: Frame, level: nat, lo: nat, j: Index)
    requires level >= 1 && TreeOk(m, f, level, lo)
    ensures KidTables(m, f, level, lo, j) <= KidFrames(m, f, level, lo, j) && f !in KidFrames(m, f, level, lo, j)
  {
    KidFacts(m, Frames(m, f, level, lo), f, level, lo, j);
  }

  lemma {:induction false} CopyTree(m0: Memory, u0: set<Frame>, mb: Memory, ub: set<Frame>, mc: Memory, uc: set<Frame>, m2: Memory, u2: set<Frame>,
                 d: Frame, s: Frame, level: nat, lo: nat, i: Index, c: Frame, n: nat)
    requires CopyEntry(m0, u0, mb, ub, mc, uc, d, s, level, lo, i, c)
    requires Copied(mc, uc, m2, u2, c, m0[s][i].addr, level - 1, 0, n)
    ensures TreeOk(m2, d, level, lo)
    ensures Tables(m2, d, level, lo) == {d} + (u2 - u0)
    ensures forall j: Index :: KidFrames(m2, d, level, lo, j) <= (u2 - u0) + KidFrames(m0, s, level, lo, j)
    ensures KidOwned(m2, d, level, lo, i) ==
            Owned(m2, c, level - 1, 0) + (if m0[s][i].writable then {c} else {})
    ensures forall j: Index | j != i :: KidOwned(m2, d, level, lo, j) == KidOwned(mb, d, level, lo, j)
    ensures forall j: Index | j != i && lo <= j && Child(mb, d, j).Some? ::
              Open(m2, Child(mb, d, j).value, level - 1, 0) == Open(mb, Child(mb, d, j).value, level - 1, 0)
    ensures forall q: Path | |q| == level && lo <= q[0] && q[0] != i :: Leaf(m2, d, q) == Leaf(mb, d, q)
    ensures forall q: Path | |q| == level && q[0] == i :: Leaf(m2, d, q) == Leaf(m2, c, q[1..])
  {
    hide TreeOk, Frames, Tables, Open, Owned, Leaf;
    CopyGraft(m0, u0, mb, ub, mc, uc, m2, u2, d, s, level, lo, i, c, n);
    Graft(mb, m2, d, level, lo, i, c);
    assert KidTables(mb, d, level, lo, i) == {} && KidFrames(mb, d, level, lo, i) == {} by {
      assert Child(mb, d, i) == None;
    }
    FramesGrow(mb, m2, d, level, lo, i, Frames(m2, c, level - 1, 0));
    TablesUnion(mb, m2, d, level, lo, i);
  }

  lemma {:induction false} TablesUnion(m0: Memory, m1: Memory, f: Frame, level: nat, lo: nat, i: Index)
    requires level >= 1 && KidTables(m0, f, level, lo, i) == {}
    requires forall j: Index | j != i :: KidTables(m1, f, level, lo, j) == KidTables(m0, f, level, lo, j)
    ensures Tables(m1, f, level, lo) == Tables(m0, f, level, lo) + KidTables(m1, f, level, lo, i)
  {
    TablesGrow(m0, m1, f, level, lo, i, KidTables(m1, f, level, lo, i));
    KidInTables(m1, f, level, lo, i);
  }

  lemma {:induction false} OwnedUnion(m0: Memory, m1: Memory, f: Frame, level: nat, lo: nat, i: Index)
    requires level >= 1 && KidOwned(m0, f, level, lo, i) == {}
    requires forall j: Index | j != i :: KidOwned(m1, f, level, lo, j) == KidOwned(m0, f, level, lo, j)
    ensures Owned(m1, f, level, lo) == Owned(m0, f, level, lo) + KidOwned(m1, f, level, lo, i)
  {
  }

  lemma {:induction false} CopyRule(m0: Memory, u0: set<Frame>, mb: Memory, ub: set<Frame>, mc: Memory, uc: set<Frame>, m2: Memory, u2: set<Frame>,
                 d: Frame, s: Frame, level: nat, lo: nat, i: Index, c: Frame, n: nat)
    requires CopyEntry(m0, u0, mb, ub, mc, uc, d, s, level, lo, i, c)
    requires Copied(mc, uc, m2, u2, c, m0[s][i].addr, level - 1, 0, n)
    ensures forall q: Path | |q| == level && lo <= q[0] ::
              ShareRule(m0, m2, d, s, q, if n >= ENTRIES then i + 1 else i)
  {
    hide TreeOk, Frames, Tables, Open, Owned;
    CopyTree(m0, u0, mb, ub, mc, uc, m2, u2, d, s, level, lo, i, c, n);
    forall q: Path | |q| == level && lo <= q[0]
      ensures ShareRule(m0, m2, d, s, q, if n >= ENTRIES then i + 1 else i)
    {
      if q[0] == i {
        CopyChildReady(m0, u0, mb, ub, mc, uc, d, s, level, lo, i, c);
        RootFacts(m0, u0, s, level, lo);
        assert ShareRule(mc, m2, c, m0[s][i].addr, q[1..], n);
      } else {
        assert ShareRule(m0, mb, d, s, q, i);
      }
    }
  }

  lemma {:induction false} CopyOwns(m0: Memory, u0: set<Frame>, mb: Memory, ub: set<Frame>, mc: Memory, uc: set<Frame>, m2: Memory, u2: set<Frame>,
                 d: Frame, s: Frame, level: nat, lo: nat, i: Index, c: Frame, n: nat)
    requires CopyEntry(m0, u0, mb, ub, mc, uc, d, s, level, lo, i, c) && Open(m0, s, level, lo)
    requires Copied(mc, uc, m2, u2, c, m0[s][i].addr, level - 1, 0, n)
    ensures Owned(m2, d, level, lo) == u2 - u0
  {
    hide TreeOk, Frames, Tables, Owned, Leaf, ShareRule;
    CopyChildReady(m0, u0, mb, ub, mc, uc, d, s, level, lo, i, c);
    CopyTree(m0, u0, mb, ub, mc, uc, m2, u2, d, s, level, lo, i, c, n);
    assert Child(mb, d, i) == None;
    OwnedUnion(mb, m2, d, level, lo, i);
    RootFacts(m0, u0, s, level, lo);
    assert Child(m0, s, i) == Some(m0[s][i].addr);
  }

  lemma {:induction false} CopyOpen(m0: Memory, u0: set<Frame>, mb: Memory, ub: set<Frame>, mc: Memory, uc: set<Frame>, m2: Memory, u2: set<Frame>,
                 d: Frame, s: Frame, level: nat, lo: nat, i: Index, c: Frame, n: nat)
    requires CopyEntry(m0, u0, mb, ub, mc, uc, d, s, level, lo, i, c) && Open(m0, s, level, lo)
    requires Copied(mc, uc, m2, u2, c, m0[s][i].addr, level - 1, 0, n)
    ensures Open(m2, d, level, lo)
  {
    hide TreeOk, Frames, Tables, Owned, Leaf, ShareRule;
    CopyChildReady(m0, u0, mb, ub, mc, uc, d, s, level, lo, i, c);
    CopyTree(m0, u0, mb, ub, mc, uc, m2, u2, d, s, level, lo, i, c, n);
    CopyGraft(m0, u0, mb, ub, mc, uc, m2, u2, d, s, level, lo, i, c, n);
    RootFacts(m0, u0, s, level, lo);
    assert Child(m0, s, i) == Some(m0[s][i].addr);
    forall j: Index | lo <= j && Child(m2, d, j).Some?
      ensures m2[d][j].user && m2[d][j].writable && Open(m2, m2[d][j].addr, level - 1, 0)
    {
      if j != i { assert Child(mb, d, j).Some?; }
    }
  }

  /** Copying one subtree extends the copy by one entry, or leaves it partial when memory runs out. */
  lemma {:induction false} CopyInner(m0: Memory, u0: set<Frame>, mb: Memory, ub: set<Frame>, mc: Memory, uc: set<Frame>, m2: Memory, u2: set<Frame>,
                  d: Frame, s: Frame, level: nat, lo: nat, i: Index, c: Frame, n: nat)
    requires CopyEntry(m0, u0, mb, ub, mc, uc, d, s, level, lo, i, c)
    requires Copied(mc, uc, m2, u2, c, m0[s][i].addr, level - 1, 0, n)
    ensures Copied(m0, u0, m2, u2, d, s, level, lo, if n >= ENTRIES then i + 1 else i)
    ensures EmptyFrom(m2, d, i + 1)
  {
    hide TreeOk, Frames, Tables, Owned, Leaf, ShareRule, Open;
    CopyGraft(m0, u0, mb, ub, mc, uc, m2, u2, d, s, level, lo, i, c, n);
    CopyTree(m0, u0, mb, ub, mc, uc, m2, u2, d, s, level, lo, i, c, n);
    CopyRule(m0, u0, mb, ub, mc, uc, m2, u2, d, s, level, lo, i, c, n);
    if Open(m0, s, level, lo) {
      CopyOwns(m0, u0, mb, ub, mc, uc, m2, u2, d, s, level, lo, i, c, n);
      CopyOpen(m0, u0, mb, ub, mc, uc, m2, u2, d, s, level, lo, i, c, n);
    }
  }

  /** An entry the source does not use adds nothing to the copy. */
  lemma {:induction false} CopySkip(m0: Memory, u0: set<Frame>, mb: Memory, ub: set<Frame>, d: Frame, s: Frame, level: nat, lo: nat, i: Index)
    requires CopyReady(m0, u0, d, s, level, lo)
    requires Copied(m0, u0, mb, ub, d, s, level, lo, i) && !m0[s][i].present
    ensures Copied(m0, u0, mb, ub, d, s, level, lo, i + 1)
  {
    hide TreeOk, Frames, Tables, Owned, Open;
    forall q: Path | |q| == level && lo <= q[0]
      ensures ShareRule(m0, mb, d, s, q, i + 1)
    {
      assert ShareRule(m0, mb, d, s, q, i);
    }
  }

  /** At level 1 the entry itself is shared. */
  ghost predicate CopyPage(m0: Memory, u0: set<Frame>, mb: Memory, ub: set<Frame>, m2: Memory, d: Frame, s: Frame, lo: nat, i: Index)
  {
    && lo <= i && CopyReady(m0, u0, d, s, 1, lo)
    && Copied(m0, u0, mb, ub, d, s, 1, lo, i) && EmptyFrom(mb, d, i)
    && m0[s][i].present
    && m2 == mb[d := mb[d][i := m0[s][i].(writable := false)]]
  }

  lemma {:induction false} CopyPageGraft(m0: Memory, u0: set<Frame>, mb: Memory, ub: set<Frame>, m2: Memory, d: Frame, s: Frame, lo: nat, i: Index)
    requires CopyPage(m0, u0, mb, ub, m2, d, s, lo, i)
    ensures TreeOk(m2, d, 1, lo)
    ensures forall j: Index :: KidFrames(m2, d, 1, lo, j) <= (ub - u0) + KidFrames(m0, s, 1, lo, j)
    ensures forall j: Index :: KidTables(m2, d, 1, lo, j) == {} && KidTables(mb, d, 1, lo, j) == {}
    ensures forall j: Index | j != i :: KidOwned(m2, d, 1, lo, j) == KidOwned(mb, d, 1, lo, j)
    ensures KidOwned(mb, d, 1, lo, i) == {} && KidOwned(m2, d, 1, lo, i) == {}
    ensures forall q: Path | |q| == 1 && lo <= q[0] ::
              Leaf(m2, d, q) == if q[0] == i then Some(m2[d][i]) else Leaf(mb, d, q)
  {
    hide Tables, Owned, Open, Leaf, ShareRule;
    RootFacts(m0, u0, s, 1, lo);
    var c := m0[s][i].addr;
    ChildInRange(m0, u0, s, 1, lo, i);
    assert Child(m0, s, i) == Some(c) && Child(mb, d, i) == None && Child(m2, d, i) == Some(c);
    assert KidFrames(m0, s, 1, lo, i) == {c};
    NoTablesBelow(mb, d, lo);
    NoTablesBelow(m2, d, lo);
    KidInFrames(m0, s, 1, lo, i);
    forall j: Index | j != i
      ensures KidFrames(mb, d, 1, lo, j) !! Frames(m2, c, 0, 0)
    {
      KidsApart(m0, s, 1, lo, i, j);
    }
    Graft(mb, m2, d, 1, lo, i, c);
    assert Owned(m2, c, 0, 0) == {} by { NothingOwned(m2, c); }
  }

  lemma {:induction false} NothingOwned(m: Memory, f: Frame)
    ensures Owned(m, f, 0, 0) == {}
  {
  }

  lemma {:induction false} NoTablesBelow(m: Memory, f: Frame, lo: nat)
    ensures forall j: Index :: KidTables(m, f, 1, lo, j) == {}
    ensures Tables(m, f, 1, lo) == {f}
  {
    assert forall j: Index :: KidTables(m, f, 1, lo, j) == {};
  }

  lemma {:induction false} CopyLeaf(m0: Memory, u0: set<Frame>, mb: Memory, ub: set<Frame>, m2: Memory, d: Frame, s: Frame, lo: nat, i: Index)
    requires CopyPage(m0, u0, mb, ub, m2, d, s, lo, i)
    ensures Copied(m0, u0, m2, ub, d, s, 1, lo, i + 1)
    ensures EmptyFrom(m2, d, i + 1)
  {
    hide TreeOk, Frames, Tables, Owned;
    CopyPageGraft(m0, u0, mb, ub, m2, d, s, lo, i);
    RootFacts(m0, u0, s, 1, lo);
    NoTablesBelow(mb, d, lo);
    NoTablesBelow(m2, d, lo);
    OwnedUnion(mb, m2, d, 1, lo, i);
    forall q: Path | |q| == 1 && lo <= q[0]
      ensures ShareRule(m0, m2, d, s, q, i + 1)
    {
      assert ShareRule(m0, mb, d, s, q, i);
    }
  }

  // ----- giving one page another frame -----

  /** The table whose entry SetPageContent rewrites for page `q`; it looks at nothing but the addresses on the way. */
  function LastTable(m: Memory, f: Frame, q: Path): Frame
    requires |q| >= 1
    decreases |q|
  {
    if |q| == 1 || f >= |m| then f else LastTable(m, m[f][q[0]].addr, q[1..])
  }

  /** The tables on the way are in `u`, and the last one is in memory. */
  ghost predicate OnTheWay(m: Memory, u: set<Frame>, f: Frame, q: Path)
    decreases |q|
  {
    f < |m| && (|q| > 1 ==> f in u && OnTheWay(m, u, m[f][q[0]].addr, q[1..]))
  }

  ghost predicate Redirected(m0: Memory, m1: Memory, f: Frame, q: Path, g: Frame)
    requires |q| >= 1
  {
    var t, i := LastTable(m0, f, q), q[|q| - 1];
    t < |m0| && m1 == m0[t := m0[t][i := m0[t][i].(addr := g, writable := true)]]
  }

  /** In a tree the last table is on the way. */
  lemma {:induction false} TreeWay(m: Memory, f: Frame, q: Path, lo: nat)
    requires |q| >= 1 && lo <= q[0] && TreeOk(m, f, |q|, lo) && Leaf(m, f, q).Some?
    ensures OnTheWay(m, Frames(m, f, |q|, lo), f, q)
    decreases |q|
  {
    if |q| > 1 {
      assert Child(m, f, q[0]) == Some(m[f][q[0]].addr);
      TreeWay(m, m[f][q[0]].addr, q[1..], 0);
      KidInFrames(m, f, |q|, lo, q[0]);
      MoreOnTheWay(m, Frames(m, m[f][q[0]].addr, |q| - 1, 0), Frames(m, f, |q|, lo), m[f][q[0]].addr, q[1..]);
    }
  }

  lemma {:induction false} MoreOnTheWay(m: Memory, u: set<Frame>, v: set<Frame>, f: Frame, q: Path)
    requires OnTheWay(m, u, f, q) && u <= v
    ensures OnTheWay(m, v, f, q)
    decreases |q|
  {
    if |q| > 1 { MoreOnTheWay(m, u, v, m[f][q[0]].addr, q[1..]); }
  }

  /** A frame that is not on the way may change. */
  lemma {:induction false} SameWay(m0: Memory, m1: Memory, u: set<Frame>, f: Frame, q: Path)
    requires |q| >= 1 && OnTheWay(m0, u, f, q) && SameOn(m0, m1, u)
    ensures OnTheWay(m1, u, f, q) && LastTable(m1, f, q) == LastTable(m0, f, q) < |m0|
    decreases |q|
  {
    if |q| > 1 { SameWay(m0, m1, u, m0[f][q[0]].addr, q[1..]); }
  }

  /** Page `q` of the tree at `f` is moved to frame `g`, writable; nothing else about the tree changed. */
  ghost predicate Replaced(m0: Memory, m1: Memory, f: Frame, q: Path, lo: nat, g: Frame)
    requires |q| >= 1 && Leaf(m0, f, q).Some?
  {
    var e := Leaf(m0, f, q).value;
    && |m1| == |m0| && f < |m0|
    && TreeOk(m1, f, |q|, lo)
    && Tables(m1, f, |q|, lo) == Tables(m0, f, |q|, lo)
    && Frames(m1, f, |q|, lo) == Frames(m0, f, |q|, lo) - {e.addr} + {g}
    && Owned(m1, f, |q|, lo) == Owned(m0, f, |q|, lo) - {e.addr} + {g}
    && (Open(m0, f, |q|, lo) ==> Open(m1, f, |q|, lo))
    && (forall h: Frame | h < |m0| && h !in Tables(m0, f, |q|, lo) :: m1[h] == m0[h])
    && (forall j: Index | j < lo :: m1[f][j] == m0[f][j])
    && Leaf(m1, f, q) == Some(e.(addr := g, writable := true))
    && (forall t: Path | |t| == |q| && lo <= t[0] && t != q :: Leaf(m1, f, t) == Leaf(m0, f, t))
  }

  ghost predicate CanReplace(m: Memory, f: Frame, q: Path, lo: nat, g: Frame)
  {
    && |q| >= 1 && lo <= q[0] && TreeOk(m, f, |q|, lo) && Leaf(m, f, q).Some?
    && g < |m| && g !in Frames(m, f, |q|, lo)
  }

  lemma {:induction false} FramesSwap(m0: Memory, m1: Memory, f: Frame, level: nat, lo: nat, i: Index, x: Frame, g: Frame)
    requires level >= 1 && TreeOk(m0, f, level, lo) && x in KidFrames(m0, f, level, lo, i)
    requires KidFrames(m1, f, level, lo, i) == KidFrames(m0, f, level, lo, i) - {x} + {g}
    requires forall j: Index | j != i :: KidFrames(m1, f, level, lo, j) == KidFrames(m0, f, level, lo, j)
    ensures Frames(m1, f, level, lo) == Frames(m0, f, level, lo) - {x} + {g}
  {
    forall h | h in Frames(m1, f, level, lo)
      ensures h in Frames(m0, f, level, lo) - {x} + {g}
    {
      if h != f {
        var j := WhichKid(m1, f, level, lo, h);
      if j != i {
        KidsApart(m0, f, level, lo, i, j);
        assert h in KidFrames(m0, f, level, lo, j);
      } else {
        assert h in KidFrames(m0, f, level, lo, i) - {x} + {g};
      }
      }
    }
    forall h | h in Frames(m0, f, level, lo) && h != x
      ensures h in Frames(m1, f, level, lo)
    {
      if h != f {
        var j := WhichKid(m0, f, level, lo, h);
      assert h in KidFrames(m1, f, level, lo, j);
      }
    }
    assert g in KidFrames(m1, f, level, lo, i);
  }

  lemma {:induction false} OwnedSwap(m0: Memory, m1: Memory, f: Frame, level: nat, lo: nat, i: Index, x: Frame, g: Frame)
    requires level >= 1 && TreeOk(m0, f, level, lo) && x in KidFrames(m0, f, level, lo, i)
    requires KidOwned(m1, f, level, lo, i) == KidOwned(m0, f, level, lo, i) - {x} + {g}
    requires forall j: Index | j != i :: KidOwned(m1, f, level, lo, j) == KidOwned(m0, f, level, lo, j)
    requires forall j: Index :: KidOwned(m0, f, level, lo, j) <= KidFrames(m0, f, level, lo, j)
    ensures Owned(m1, f, level, lo) == Owned(m0, f, level, lo) - {x} + {g}
  {
    forall h | h in Owned(m1, f, level, lo)
      ensures h in Owned(m0, f, level, lo) - {x} + {g}
    {
      var j := WhichOwner(m1, f, level, lo, h);
      if j != i {
        KidsApart(m0, f, level, lo, i, j);
        assert h in KidOwned(m0, f, level, lo, j);
      } else {
        assert h in KidOwned(m0, f, level, lo, i) - {x} + {g};
      }
    }
    forall h | h in Owned(m0, f, level, lo) && h != x
      ensures h in Owned(m1, f, level, lo)
    {
      var j := WhichOwner(m0, f, level, lo, h);
      assert h in KidOwned(m1, f, level, lo, j);
    }
    assert g in KidOwned(m1, f, level, lo, i);
  }

  lemma {:induction false} TablesSame(m0: Memory, m1: Memory, f: Frame, level: nat, lo: nat)
    requires level >= 1
    requires forall j: Index :: KidTables(m1, f, level, lo, j) == KidTables(m0, f, level, lo, j)
    ensures Tables(m1, f, level, lo) == Tables(m0, f, level, lo)
  {
  }

  lemma {:induction false} ReplaceInner(m0: Memory, m1: Memory, f: Frame, q: Path, lo: nat, g: Frame)
    requires |q| >= 2 && CanReplace(m0, f, q, lo, g) && m0[f][q[0]].present
    requires CanReplace(m0, m0[f][q[0]].addr, q[1..], 0, g)
    requires Replaced(m0, m1, m0[f][q[0]].addr, q[1..], 0, g)
    ensures Replaced(m0, m1, f, q, lo, g)
  {
    hide TreeOk, Frames, Tables, Owned, Open, Leaf;
    RootFacts(m0, Frames(m0, f, |q|, lo), f, |q|, lo);
    var i, c, level := q[0], m0[f][q[0]].addr, |q|;
    ReplaceGraft(m0, m1, f, q, lo, g);
    ReplaceKid(m0, m1, f, q, lo, g);
    FramesSwap(m0, m1, f, level, lo, i, Leaf(m0, f, q).value.addr, g);
    OwnedFrames(m0, f, level, lo);
    OwnedSwap(m0, m1, f, level, lo, i, Leaf(m0, f, q).value.addr, g);
    TablesSame(m0, m1, f, level, lo);
    KidInTables(m0, f, level, lo, i);
    ReplaceRest(m0, m1, f, q, lo, g);
  }

  lemma {:induction false} ReplaceGraft(m0: Memory, m1: Memory, f: Frame, q: Path, lo: nat, g: Frame)
    requires |q| >= 2 && CanReplace(m0, f, q, lo, g) && m0[f][q[0]].present
    requires CanReplace(m0, m0[f][q[0]].addr, q[1..], 0, g)
    requires Replaced(m0, m1, m0[f][q[0]].addr, q[1..], 0, g)
    ensures m1[f] == m0[f] && TreeOk(m1, f, |q|, lo)
    ensures KidFrames(m1, f, |q|, lo, q[0]) == Frames(m1, m0[f][q[0]].addr, |q| - 1, 0)
    ensures KidTables(m1, f, |q|, lo, q[0]) == Tables(m1, m0[f][q[0]].addr, |q| - 1, 0)
    ensures forall j: Index | j != q[0] :: KidFrames(m1, f, |q|, lo, j) == KidFrames(m0, f, |q|, lo, j)
    ensures forall j: Index | j != q[0] :: KidTables(m1, f, |q|, lo, j) == KidTables(m0, f, |q|, lo, j)
    ensures forall j: Index | j != q[0] :: KidOwned(m1, f, |q|, lo, j) == KidOwned(m0, f, |q|, lo, j)
    ensures forall j: Index | j != q[0] && lo <= j && Child(m0, f, j).Some? ::
              Open(m1, Child(m0, f, j).value, |q| - 1, 0) == Open(m0, Child(m0, f, j).value, |q| - 1, 0)
    ensures forall t: Path | |t| == |q| && lo <= t[0] && t[0] != q[0] :: Leaf(m1, f, t) == Leaf(m0, f, t)
    ensures forall t: Path | |t| == |q| && t[0] == q[0] :: Leaf(m1, f, t) == Leaf(m1, m0[f][q[0]].addr, t[1..])
  {
    hide TreeOk, Frames, Tables, Owned, Open, Leaf;
    RootFacts(m0, Frames(m0, f, |q|, lo), f, |q|, lo);
    var i, c, level := q[0], m0[f][q[0]].addr, |q|;
    assert Child(m0, f, i) == Some(c);
    assert KidFrames(m0, f, level, lo, i) == Frames(m0, c, level - 1, 0);
    assert KidTables(m0, f, level, lo, i) == Tables(m0, c, level - 1, 0);
    KidTablesInKid(m0, f, level, lo, i);
    RootFacts(m0, Frames(m0, f, level, lo), f, level, lo);
    forall j: Index | j != i
      ensures SameOn(m0, m1, KidTables(m0, f, level, lo, j))
      ensures KidFrames(m0, f, level, lo, j) !! Frames(m1, c, level - 1, 0)
    {
      KidTablesInKid(m0, f, level, lo, j);
      KidsApart(m0, f, level, lo, i, j);
      KidInFrames(m0, f, level, lo, j);
    }
    Graft(m0, m1, f, level, lo, i, c);
  }

  lemma {:induction false} ReplaceKid(m0: Memory, m1: Memory, f: Frame, q: Path, lo: nat, g: Frame)
    requires |q| >= 2 && CanReplace(m0, f, q, lo, g) && m0[f][q[0]].present
    requires CanReplace(m0, m0[f][q[0]].addr, q[1..], 0, g)
    requires Replaced(m0, m1, m0[f][q[0]].addr, q[1..], 0, g)
    ensures Leaf(m0, f, q) == Leaf(m0, m0[f][q[0]].addr, q[1..])
    ensures var x := Leaf(m0, f, q).value.addr;
            && x in KidFrames(m0, f, |q|, lo, q[0])
            && KidFrames(m1, f, |q|, lo, q[0]) == KidFrames(m0, f, |q|, lo, q[0]) - {x} + {g}
            && KidOwned(m1, f, |q|, lo, q[0]) == KidOwned(m0, f, |q|, lo, q[0]) - {x} + {g}
            && KidTables(m1, f, |q|, lo, q[0]) == KidTables(m0, f, |q|, lo, q[0])
  {
    assert Leaf(m0, f, q) == Leaf(m0, m0[f][q[0]].addr, q[1..]);
    hide TreeOk, Frames, Tables, Owned, Open, Leaf;
    var c := m0[f][q[0]].addr;
    assert Child(m0, f, q[0]) == Some(c);
    ReplaceGraft(m0, m1, f, q, lo, g);
    LeafFrame(m0, f, q, lo);
    ChildNotLeaf(m0, c, q[1..]);
  }

  /** A table is not the frame of a page below it. */
  lemma {:induction false} ChildNotLeaf(m: Memory, c: Frame, t: Path)
    requires |t| >= 1 && TreeOk(m, c, |t|, 0) && Leaf(m, c, t).Some?
    ensures Leaf(m, c, t).value.addr != c
  {
    LeafFrame(m, c, t, 0);
    RootFacts(m, Frames(m, c, |t|, 0), c, |t|, 0);
  }

  lemma {:induction false} ReplaceRest(m0: Memory, m1: Memory, f: Frame, q: Path, lo: nat, g: Frame)
    requires |q| >= 2 && CanReplace(m0, f, q, lo, g) && m0[f][q[0]].present
    requires CanReplace(m0, m0[f][q[0]].addr, q[1..], 0, g)
    requires Replaced(m0, m1, m0[f][q[0]].addr, q[1..], 0, g)
    ensures Open(m0, f, |q|, lo) ==> Open(m1, f, |q|, lo)
    ensures forall t: Path | |t| == |q| && lo <= t[0] && t != q :: Leaf(m1, f, t) == Leaf(m0, f, t)
    ensures Leaf(m1, f, q) == Leaf(m1, m0[f][q[0]].addr, q[1..])
  {
    hide TreeOk, Frames, Tables, Owned;
    ReplaceGraft(m0, m1, f, q, lo, g);
    var c := m0[f][q[0]].addr;
    forall t: Path | |t| == |q| && lo <= t[0] && t != q
      ensures Leaf(m1, f, t) == Leaf(m0, f, t)
    {
      if t[0] == q[0] {
        assert t == [t[0]] + t[1..] && q == [q[0]] + q[1..];
        assert Leaf(m1, c, t[1..]) == Leaf(m0, c, t[1..]);
      }
    }
    if Open(m0, f, |q|, lo) {
      assert Child(m0, f, q[0]) == Some(c);
      forall j: Index | lo <= j && Child(m1, f, j).Some?
        ensures m1[f][j].user && m1[f][j].writable && Open(m1, m1[f][j].addr, |q| - 1, 0)
      {
        assert Child(m0, f, j).Some?;
      }
    }
  }

  /** The level-1 entry is where the page moves. */
  lemma {:induction false} ReplaceLeaf(m0: Memory, m1: Memory, f: Frame, q: Path, lo: nat, g: Frame)
    requires |q| == 1 && CanReplace(m0, f, q, lo, g)
    requires m1 == m0[f := m0[f][q[0] := m0[f][q[0]].(addr := g, writable := true)]]
    ensures Replaced(m0, m1, f, q, lo, g)
  {
    hide TreeOk, Owned, Open;
    var i, x := q[0], m0[f][q[0]].addr;
    assert Child(m0, f, i) == Some(x) && Child(m1, f, i) == Some(g);
    NoTablesBelow(m0, f, lo);
    NoTablesBelow(m1, f, lo);
    NothingOwned(m0, x);
    NothingOwned(m1, g);
    KidTablesInKid(m0, f, 1, lo, i);
    forall j: Index | j != i
      ensures KidFrames(m0, f, 1, lo, j) !! Frames(m1, g, 0, 0)
    {
      KidInFrames(m0, f, 1, lo, j);
    }
    assert TreeOk(m1, g, 0, 0) by { PageOk(m1, g); }
    assert f != g by { RootFacts(m0, Frames(m0, f, 1, lo), f, 1, lo); }
    Graft(m0, m1, f, 1, lo, i, g);
    FramesSwap(m0, m1, f, 1, lo, i, x, g);
    OwnedFrames(m0, f, 1, lo);
    OwnedSwap(m0, m1, f, 1, lo, i, x, g);
    ReplaceLeafOpen(m0, m1, f, q, lo, g);
  }

  lemma {:induction false} PageOk(m: Memory, g: Frame)
    requires g < |m|
    ensures TreeOk(m, g, 0, 0)
  {
  }

  lemma {:induction false} ReplaceLeafOpen(m0: Memory, m1: Memory, f: Frame, q: Path, lo: nat, g: Frame)
    requires |q| == 1 && CanReplace(m0, f, q, lo, g)
    requires m1 == m0[f := m0[f][q[0] := m0[f][q[0]].(addr := g, writable := true)]]
    ensures Open(m0, f, 1, lo) ==> Open(m1, f, 1, lo)
    ensures forall t: Path | |t| == 1 && lo <= t[0] && t != q :: Leaf(m1, f, t) == Leaf(m0, f, t)
  {
    hide TreeOk, Owned, Frames;
    forall t: Path | |t| == 1 && lo <= t[0] && t != q
      ensures Leaf(m1, f, t) == Leaf(m0, f, t)
    {
      assert t == [t[0]] && q == [q[0]];
    }
    if Open(m0, f, 1, lo) {
      forall j: Index | lo <= j && Child(m1, f, j).Some?
        ensures m1[f][j].user
      {
        assert Child(m0, f, j).Some?;
      }
    }
  }
}
