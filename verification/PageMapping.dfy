/** What mapping a run of pages does to a page map: the relation SetupPageMap establishes. */
module PageMapping {
  import opened Basics
  import opened PageTables

  /** Page `q` is mapped with the requested leaf bits.  A page that was present keeps its frame and
      its other bits; a new page gets a zeroed frame that was free. */
  ghost predicate Mapped(m0: Memory, u0: set<Frame>, m1: Memory, f: Frame, q: Path, w: bool)
  {
    match Leaf(m1, f, q)
    case None => false
    case Some(e) =>
      && e.user && e.writable == w
      && (Leaf(m0, f, q).Some? ==> e == Leaf(m0, f, q).value.(user := true, writable := w))
      && (Leaf(m0, f, q).None? ==> e.addr !in u0 && e.addr < |m1| && m1[e.addr] == ZeroTable())
  }

  ghost predicate PageRule(m0: Memory, u0: set<Frame>, m1: Memory, f: Frame, q: Path, a: nat, n: nat, w: bool)
  {
    if a <= Num(q) < a + n then Mapped(m0, u0, m1, f, q, w) else Leaf(m1, f, q) == Leaf(m0, f, q)
  }

  /** From memory `m0` with frames `u0` in use to `m1` with `u1`: exactly the `n` pages from page number
      `a` on are mapped, every other translation is as before, the frames taken are exactly the frames
      the tree gained, and no frame outside the tables changed. */
  ghost predicate Setup(m0: Memory, u0: set<Frame>, m1: Memory, u1: set<Frame>,
                        f: Frame, level: nat, lo: nat, a: nat, n: nat, w: bool)
  {
    && |m1| == |m0| && u0 <= u1
    && TreeOk(m1, f, level, lo)
    && Frames(m1, f, level, lo) == Frames(m0, f, level, lo) + (u1 - u0)
    && Tables(m0, f, level, lo) <= Tables(m1, f, level, lo) <= Tables(m0, f, level, lo) + (u1 - u0)
    && (forall g: Frame | g < |m0| && g !in Tables(m0, f, level, lo) && g !in u1 - u0 :: m1[g] == m0[g])
    && (f < |m0| && forall j: Index | j < lo :: m1[f][j] == m0[f][j])
    && (Open(m0, f, level, lo) ==> Open(m1, f, level, lo))
    && (forall q: Path | |q| == level >= 1 && lo <= q[0] :: PageRule(m0, u0, m1, f, q, a, n, w))
  }

  ghost predicate Within(m: Memory, u: set<Frame>, f: Frame, level: nat, lo: nat)
  {
    TreeOk(m, f, level, lo) && Frames(m, f, level, lo) <= u
  }

  lemma {:induction false} SetupNothing(m: Memory, u: set<Frame>, f: Frame, level: nat, lo: nat, a: nat, w: bool)
    requires Within(m, u, f, level, lo)
    ensures Setup(m, u, m, u, f, level, lo, a, 0, w)
  {
  }

  lemma {:induction false} SetupWithin(m0: Memory, u0: set<Frame>, m1: Memory, u1: set<Frame>, f: Frame, level: nat, lo: nat, a: nat, n: nat, w: bool)
    requires Within(m0, u0, f, level, lo) && Setup(m0, u0, m1, u1, f, level, lo, a, n, w)
    ensures Within(m1, u1, f, level, lo) && |m1| == |m0|
  {
    hide TreeOk, Frames, Tables, Leaf, Open, PageRule;
  }

  lemma {:induction false} SetupCompose(m0: Memory, u0: set<Frame>, m1: Memory, u1: set<Frame>, m2: Memory, u2: set<Frame>,
                     f: Frame, level: nat, lo: nat, a: nat, n1: nat, n2: nat, w: bool)
    requires Within(m0, u0, f, level, lo)
    requires Setup(m0, u0, m1, u1, f, level, lo, a, n1, w)
    requires Setup(m1, u1, m2, u2, f, level, lo, a + n1, n2, w)
    ensures Setup(m0, u0, m2, u2, f, level, lo, a, n1 + n2, w)
  {
    forall q: Path | |q| == level >= 1 && lo <= q[0]
      ensures PageRule(m0, u0, m2, f, q, a, n1 + n2, w)
    {
      assert PageRule(m0, u0, m1, f, q, a, n1, w);
      assert PageRule(m1, u1, m2, f, q, a + n1, n2, w);
      if a <= Num(q) < a + n1 {
        LeafFrame(m1, f, q, lo);
      }
    }
    forall g: Frame | g < |m0| && g !in Tables(m0, f, level, lo) && g !in u2 - u0
      ensures m2[g] == m0[g]
    {
      assert g !in Tables(m1, f, level, lo);
    }
  }

  /** A zeroed frame is an empty table. */
  lemma {:induction false} EmptyTable(m: Memory, c: Frame, level: nat, lo: nat)
    requires c < |m| && forall i: Index | lo <= i :: !m[c][i].present
    ensures TreeOk(m, c, level, lo) && Frames(m, c, level, lo) == {c} && Open(m, c, level, lo)
    ensures Tables(m, c, level, lo) == (if level == 0 then {} else {c}) && Owned(m, c, level, lo) == {}
    ensures forall q: Path | |q| >= 1 && lo <= q[0] :: Leaf(m, c, q) == None
  {
  }

  /** Entry `i` of table `f` made to point at `c`: its old child, or a fresh zeroed frame. */
  ghost predicate Prepared(m0: Memory, u0: set<Frame>, m1: Memory, u1: set<Frame>, f: Frame, i: Index, c: Frame, w: bool)
  {
    && f < |m0| && c < |m0|
    && var e := m0[f][i];
    if e.present then
      c == e.addr && u1 == u0 && m1 == m0[f := m0[f][i := e.(user := true, writable := w)]]
    else
      && c !in u0 && f != c && u1 == u0 + {c}
      && m1 == m0[c := ZeroTable()][f := m0[f][i := e.(present := true, addr := c, user := true, writable := w)]]
  }

  /** The writes that prepare an entry add up. */
  lemma {:induction false} Rewrites(m0: Memory, u0: set<Frame>, mc: Memory, m1: Memory, u1: set<Frame>, f: Frame, i: Index, c: Frame, w: bool)
    requires f < |m0| && c < |m0| && f in u0
    requires var e := m0[f][i];
             if e.present then c == e.addr && mc == m0 && u1 == u0
             else c !in u0 && u1 == u0 + {c} && mc == m0[c := ZeroTable()][f := m0[f][i := e.(present := true, addr := c)]]
    requires m1 == mc[f := mc[f][i := mc[f][i].(user := true, writable := w)]]
    ensures Prepared(m0, u0, m1, u1, f, i, c, w)
  {
    var e := m0[f][i];
    if !e.present {
      var e1 := e.(present := true, addr := c, user := true, writable := w);
      assert m1[f] == m0[f][i := e1];
      assert m1 == m0[c := ZeroTable()][f := m0[f][i := e1]];
    }
  }

  lemma {:induction false} PreparedChild(m0: Memory, u0: set<Frame>, m1: Memory, u1: set<Frame>,
                      f: Frame, level: nat, lo: nat, i: Index, c: Frame, w: bool)
    requires level >= 1 && lo <= i && Within(m0, u0, f, level, lo)
    requires Prepared(m0, u0, m1, u1, f, i, c, w)
    ensures Within(m1, u1, c, level - 1, 0) && f !in Frames(m1, c, level - 1, 0)
    ensures Frames(m1, c, level - 1, 0) == KidFrames(m0, f, level, lo, i) + (u1 - u0)
    ensures KidTables(m0, f, level, lo, i) <= Tables(m1, c, level - 1, 0) <= KidTables(m0, f, level, lo, i) + (u1 - u0)
    ensures forall j: Index | j != i :: KidFrames(m0, f, level, lo, j) !! Frames(m1, c, level - 1, 0)
    ensures m0[f][i].present ==> Open(m1, c, level - 1, 0) == Open(m0, c, level - 1, 0)
    ensures !m0[f][i].present ==> Open(m1, c, level - 1, 0)
    ensures forall q: Path | |q| == level - 1 >= 1 ::
              Leaf(m1, c, q) == if m0[f][i].present then Leaf(m0, c, q) else None
  {
    hide Frames, Tables, Leaf, Open, TreeOk;
    RootFacts(m0, u0, f, level, lo);
    KidFacts(m0, u0, f, level, lo, i);
    forall j: Index
      ensures KidFrames(m0, f, level, lo, j) <= u0
      ensures j != i ==> KidFrames(m0, f, level, lo, j) !! KidFrames(m0, f, level, lo, i)
    {
      KidFacts(m0, u0, f, level, lo, j);
      if j != i { KidsApart(m0, f, level, lo, i, j); }
    }
    if m0[f][i].present {
      KidOk(m0, f, level, lo, i);
      TablesInFrames(m0, c, level - 1, 0);
      Framing(m0, m1, c, level - 1, 0);
      forall q: Path | |q| == level - 1 >= 1
        ensures Leaf(m1, c, q) == Leaf(m0, c, q)
      {
        LeafFraming(m0, m1, c, q, 0);
      }
    } else {
      EmptyTable(m1, c, level - 1, 0);
    }
  }

  lemma {:induction false} KidOk(m: Memory, f: Frame, level: nat, lo: nat, i: Index)
    requires level >= 1 && lo <= i && TreeOk(m, f, level, lo) && Child(m, f, i).Some?
    ensures TreeOk(m, Child(m, f, i).value, level - 1, 0)
  {
  }

  lemma {:induction false} KidsApart(m: Memory, f: Frame, level: nat, lo: nat, i: Index, j: Index)
    requires level >= 1 && TreeOk(m, f, level, lo) && i != j
    ensures KidFrames(m, f, level, lo, i) !! KidFrames(m, f, level, lo, j)
  {
  }

  /** Mapping pages in the subtree of one prepared entry maps them in the whole tree. */
  lemma {:induction false} SetupInner(m0: Memory, u0: set<Frame>, m1: Memory, u1: set<Frame>, m2: Memory, u2: set<Frame>,
                   f: Frame, level: nat, lo: nat, i: Index, c: Frame, a: nat, n: nat, w: bool)
    requires level >= 2 && lo <= i && Within(m0, u0, f, level, lo)
    requires Prepared(m0, u0, m1, u1, f, i, c, true)
    requires Setup(m1, u1, m2, u2, c, level - 1, 0, a, n, w)
    requires a + n <= Pages(level - 1)
    ensures Setup(m0, u0, m2, u2, f, level, lo, i * Pages(level - 1) + a, n, w)
  {
    SetupTree(m0, u0, m1, u1, m2, u2, f, level, lo, i, c, a, n, w);
    SetupPagesRule(m0, u0, m1, u1, m2, u2, f, level, lo, i, c, a, n, w);
  }

  lemma {:induction false} SetupPagesRule(m0: Memory, u0: set<Frame>, m1: Memory, u1: set<Frame>, m2: Memory, u2: set<Frame>,
                       f: Frame, level: nat, lo: nat, i: Index, c: Frame, a: nat, n: nat, w: bool)
    requires level >= 2 && lo <= i && Within(m0, u0, f, level, lo)
    requires Prepared(m0, u0, m1, u1, f, i, c, true)
    requires Setup(m1, u1, m2, u2, c, level - 1, 0, a, n, w)
    requires a + n <= Pages(level - 1)
    ensures forall q: Path | |q| == level && lo <= q[0] :: PageRule(m0, u0, m2, f, q, i * Pages(level - 1) + a, n, w)
  {
    hide *;
    forall q: Path | |q| == level && lo <= q[0]
      ensures PageRule(m0, u0, m2, f, q, i * Pages(level - 1) + a, n, w)
    {
      SetupPage(m0, u0, m1, u1, m2, u2, f, level, lo, i, c, a, n, w, q);
    }
  }

  lemma {:induction false} SetupPage(m0: Memory, u0: set<Frame>, m1: Memory, u1: set<Frame>, m2: Memory, u2: set<Frame>,
                  f: Frame, level: nat, lo: nat, i: Index, c: Frame, a: nat, n: nat, w: bool, q: Path)
    requires level >= 2 && lo <= i && Within(m0, u0, f, level, lo)
    requires Prepared(m0, u0, m1, u1, f, i, c, true)
    requires Setup(m1, u1, m2, u2, c, level - 1, 0, a, n, w)
    requires a + n <= Pages(level - 1) && |q| == level && lo <= q[0]
    ensures PageRule(m0, u0, m2, f, q, i * Pages(level - 1) + a, n, w)
  {
    hide TreeOk, Frames, Tables, Open, KidFrames, KidTables;
    SetupGraft(m0, u0, m1, u1, m2, u2, f, level, lo, i, c, a, n, w);
    NumOrder(q, i);
    if q[0] == i {
      PreparedChild(m0, u0, m1, u1, f, level, lo, i, c, true);
      var t := q[1..];
      assert PageRule(m1, u1, m2, c, t, a, n, w);
      assert Leaf(m1, c, t) == Leaf(m0, f, q);
      assert Leaf(m2, c, t) == Leaf(m2, f, q);
      assert Num(q) == i * Pages(level - 1) + Num(t);
    }
  }

  lemma {:induction false} RootFacts(m: Memory, u: set<Frame>, f: Frame, level: nat, lo: nat)
    requires Within(m, u, f, level, lo)
    ensures f < |m| && f in u && (level >= 1 ==> f in Tables(m, f, level, lo))
  {
    assert f in Frames(m, f, level, lo);
  }

  lemma {:induction false} ChildInRange(m: Memory, u: set<Frame>, f: Frame, level: nat, lo: nat, i: Index)
    requires level >= 1 && lo <= i && Within(m, u, f, level, lo) && m[f][i].present
    ensures m[f][i].addr < |m| && TreeOk(m, m[f][i].addr, level - 1, 0)
  {
    assert Child(m, f, i) == Some(m[f][i].addr);
    KidOk(m, f, level, lo, i);
  }

  lemma {:induction false} KidFacts(m: Memory, u: set<Frame>, f: Frame, level: nat, lo: nat, j: Index)
    requires level >= 1 && Within(m, u, f, level, lo)
    ensures KidTables(m, f, level, lo, j) <= KidFrames(m, f, level, lo, j) <= u
    ensures f !in KidFrames(m, f, level, lo, j)
  {
    assert KidFrames(m, f, level, lo, j) <= Frames(m, f, level, lo);
    if lo <= j && Child(m, f, j).Some? { TablesInFrames(m, Child(m, f, j).value, level - 1, 0); }
  }

  lemma {:induction false} SetupGraft(m0: Memory, u0: set<Frame>, m1: Memory, u1: set<Frame>, m2: Memory, u2: set<Frame>,
                   f: Frame, level: nat, lo: nat, i: Index, c: Frame, a: nat, n: nat, w: bool)
    requires level >= 2 && lo <= i && Within(m0, u0, f, level, lo)
    requires Prepared(m0, u0, m1, u1, f, i, c, true)
    requires Setup(m1, u1, m2, u2, c, level - 1, 0, a, n, w)
    ensures m2[f] == m1[f]
    ensures TreeOk(m2, f, level, lo)
    ensures KidFrames(m2, f, level, lo, i) == Frames(m2, c, level - 1, 0)
    ensures KidTables(m2, f, level, lo, i) == Tables(m2, c, level - 1, 0)
    ensures forall j: Index | j != i :: KidFrames(m2, f, level, lo, j) == KidFrames(m0, f, level, lo, j)
    ensures forall j: Index | j != i :: KidTables(m2, f, level, lo, j) == KidTables(m0, f, level, lo, j)
    ensures forall j: Index | j != i && lo <= j && Child(m0, f, j).Some? ::
              Open(m2, Child(m0, f, j).value, level - 1, 0) == Open(m0, Child(m0, f, j).value, level - 1, 0)
    ensures forall q: Path | |q| == level && lo <= q[0] && q[0] != i :: Leaf(m2, f, q) == Leaf(m0, f, q)
    ensures forall q: Path | |q| == level && q[0] == i :: Leaf(m2, f, q) == Leaf(m2, c, q[1..])
  {
    hide TreeOk, Frames, Tables, Leaf, Open, PageRule;
    PreparedChild(m0, u0, m1, u1, f, level, lo, i, c, true);
    RootFacts(m0, u0, f, level, lo);
    TablesInFrames(m1, c, level - 1, 0);
    forall j: Index | j != i
      ensures SameOn(m0, m2, KidTables(m0, f, level, lo, j))
      ensures KidFrames(m0, f, level, lo, j) !! Frames(m2, c, level - 1, 0)
    {
      KidFacts(m0, u0, f, level, lo, j);
    }
    Graft(m0, m2, f, level, lo, i, c);
  }

  lemma {:induction false} FramesGrow(m0: Memory, m1: Memory, f: Frame, level: nat, lo: nat, i: Index, d: set<Frame>)
    requires level >= 1
    requires KidFrames(m1, f, level, lo, i) == KidFrames(m0, f, level, lo, i) + d
    requires forall j: Index | j != i :: KidFrames(m1, f, level, lo, j) == KidFrames(m0, f, level, lo, j)
    ensures Frames(m1, f, level, lo) == Frames(m0, f, level, lo) + d
  {
  }

  lemma {:induction false} TablesGrow(m0: Memory, m1: Memory, f: Frame, level: nat, lo: nat, i: Index, d: set<Frame>)
    requires level >= 1
    requires KidTables(m0, f, level, lo, i) <= KidTables(m1, f, level, lo, i) <= KidTables(m0, f, level, lo, i) + d
    requires forall j: Index | j != i :: KidTables(m1, f, level, lo, j) == KidTables(m0, f, level, lo, j)
    ensures Tables(m0, f, level, lo) <= Tables(m1, f, level, lo) <= Tables(m0, f, level, lo) + d
  {
  }

  lemma {:induction false} SetupFrames(m0: Memory, u0: set<Frame>, m1: Memory, u1: set<Frame>, m2: Memory, u2: set<Frame>,
                    f: Frame, level: nat, lo: nat, i: Index, c: Frame, a: nat, n: nat, w: bool)
    requires level >= 2 && lo <= i && Within(m0, u0, f, level, lo)
    requires Prepared(m0, u0, m1, u1, f, i, c, true)
    requires Setup(m1, u1, m2, u2, c, level - 1, 0, a, n, w)
    ensures Frames(m2, f, level, lo) == Frames(m0, f, level, lo) + (u2 - u0)
    ensures Tables(m0, f, level, lo) <= Tables(m2, f, level, lo) <= Tables(m0, f, level, lo) + (u2 - u0)
  {
    hide TreeOk, Frames, Tables, Leaf, Open, PageRule, Within;
    PreparedChild(m0, u0, m1, u1, f, level, lo, i, c, true);
    SetupGraft(m0, u0, m1, u1, m2, u2, f, level, lo, i, c, a, n, w);
    FramesGrow(m0, m2, f, level, lo, i, u2 - u0);
    TablesGrow(m0, m2, f, level, lo, i, u2 - u0);
  }

  lemma {:induction false} SetupTree(m0: Memory, u0: set<Frame>, m1: Memory, u1: set<Frame>, m2: Memory, u2: set<Frame>,
                  f: Frame, level: nat, lo: nat, i: Index, c: Frame, a: nat, n: nat, w: bool)
    requires level >= 2 && lo <= i && Within(m0, u0, f, level, lo)
    requires Prepared(m0, u0, m1, u1, f, i, c, true)
    requires Setup(m1, u1, m2, u2, c, level - 1, 0, a, n, w)
    ensures TreeOk(m2, f, level, lo)
    ensures Frames(m2, f, level, lo) == Frames(m0, f, level, lo) + (u2 - u0)
    ensures Tables(m0, f, level, lo) <= Tables(m2, f, level, lo) <= Tables(m0, f, level, lo) + (u2 - u0)
    ensures forall g: Frame | g < |m0| && g !in Tables(m0, f, level, lo) && g !in u2 - u0 :: m2[g] == m0[g]
    ensures forall j: Index | j < lo :: m2[f][j] == m0[f][j]
    ensures Open(m0, f, level, lo) ==> Open(m2, f, level, lo)
  {
    assert TreeOk(m2, f, level, lo) && m2[f] == m1[f] by {
      SetupGraft(m0, u0, m1, u1, m2, u2, f, level, lo, i, c, a, n, w);
    }
    SetupFrames(m0, u0, m1, u1, m2, u2, f, level, lo, i, c, a, n, w);
    SetupOthers(m0, u0, m1, u1, m2, u2, f, level, lo, i, c, a, n, w);
    if Open(m0, f, level, lo) { SetupOpen(m0, u0, m1, u1, m2, u2, f, level, lo, i, c, a, n, w); }
  }

  lemma {:induction false} SetupOthers(m0: Memory, u0: set<Frame>, m1: Memory, u1: set<Frame>, m2: Memory, u2: set<Frame>,
                    f: Frame, level: nat, lo: nat, i: Index, c: Frame, a: nat, n: nat, w: bool)
    requires level >= 2 && lo <= i && Within(m0, u0, f, level, lo)
    requires Prepared(m0, u0, m1, u1, f, i, c, true)
    requires Setup(m1, u1, m2, u2, c, level - 1, 0, a, n, w)
    ensures forall g: Frame | g < |m0| && g !in Tables(m0, f, level, lo) && g !in u2 - u0 :: m2[g] == m0[g]
  {
    hide TreeOk, Frames, Leaf, Open, PageRule, Tables;
    PreparedChild(m0, u0, m1, u1, f, level, lo, i, c, true);
    RootFacts(m0, u0, f, level, lo);
    assert KidTables(m0, f, level, lo, i) <= Tables(m0, f, level, lo) by { KidInTables(m0, f, level, lo, i); }
  }

  lemma {:induction false} KidInTables(m: Memory, f: Frame, level: nat, lo: nat, i: Index)
    requires level >= 1
    ensures KidTables(m, f, level, lo, i) <= Tables(m, f, level, lo)
  {
  }

  lemma {:induction false} SetupOpen(m0: Memory, u0: set<Frame>, m1: Memory, u1: set<Frame>, m2: Memory, u2: set<Frame>,
                  f: Frame, level: nat, lo: nat, i: Index, c: Frame, a: nat, n: nat, w: bool)
    requires level >= 2 && lo <= i && Within(m0, u0, f, level, lo) && Open(m0, f, level, lo)
    requires Prepared(m0, u0, m1, u1, f, i, c, true)
    requires Setup(m1, u1, m2, u2, c, level - 1, 0, a, n, w)
    ensures Open(m2, f, level, lo)
  {
    hide TreeOk, Frames, Leaf, PageRule, Tables;
    PreparedChild(m0, u0, m1, u1, f, level, lo, i, c, true);
    SetupGraft(m0, u0, m1, u1, m2, u2, f, level, lo, i, c, a, n, w);
    RootFacts(m0, u0, f, level, lo);
    forall j: Index | lo <= j && Child(m2, f, j).Some?
      ensures m2[f][j].user && m2[f][j].writable && Open(m2, m2[f][j].addr, level - 1, 0)
    {
      if j != i { assert Child(m0, f, j).Some?; } else if m0[f][i].present { assert Child(m0, f, i).Some?; }
    }
  }

  /** At level 1 the prepared entry is the page itself. */
  lemma {:induction false} SetupLeaf(m0: Memory, u0: set<Frame>, m1: Memory, u1: set<Frame>, f: Frame, lo: nat, i: Index, c: Frame, w: bool)
    requires lo <= i && Within(m0, u0, f, 1, lo)
    requires Prepared(m0, u0, m1, u1, f, i, c, w)
    ensures Setup(m0, u0, m1, u1, f, 1, lo, i, 1, w)
  {
    hide TreeOk, Frames, Leaf, Open, PageRule, KidFrames, KidTables, Tables;
    assert
      && TreeOk(m1, f, 1, lo)
      && Frames(m1, f, 1, lo) == Frames(m0, f, 1, lo) + (u1 - u0)
      && Tables(m0, f, 1, lo) <= Tables(m1, f, 1, lo) <= Tables(m0, f, 1, lo) + {}
    by {
      SetupLeafGraft(m0, u0, m1, u1, f, lo, i, c, w);
      FramesGrow(m0, m1, f, 1, lo, i, u1 - u0);
      TablesGrow(m0, m1, f, 1, lo, i, {});
    }
    RootFacts(m0, u0, f, 1, lo);
    SetupLeafRule(m0, u0, m1, u1, f, lo, i, c, w);
    SetupLeafOpen(m0, u0, m1, u1, f, lo, i, c, w);
  }

  lemma {:induction false} SetupLeafOpen(m0: Memory, u0: set<Frame>, m1: Memory, u1: set<Frame>, f: Frame, lo: nat, i: Index, c: Frame, w: bool)
    requires lo <= i && Within(m0, u0, f, 1, lo)
    requires Prepared(m0, u0, m1, u1, f, i, c, w)
    ensures Open(m0, f, 1, lo) ==> Open(m1, f, 1, lo)
  {
    hide TreeOk, Frames;
    RootFacts(m0, u0, f, 1, lo);
    if Open(m0, f, 1, lo) {
      forall j: Index | lo <= j && Child(m1, f, j).Some?
        ensures m1[f][j].user
      {
        if j != i { assert Child(m0, f, j).Some?; }
      }
    }
  }

  lemma {:induction false} SetupLeafRule(m0: Memory, u0: set<Frame>, m1: Memory, u1: set<Frame>, f: Frame, lo: nat, i: Index, c: Frame, w: bool)
    requires lo <= i && Within(m0, u0, f, 1, lo)
    requires Prepared(m0, u0, m1, u1, f, i, c, w)
    ensures forall q: Path | |q| == 1 && lo <= q[0] :: PageRule(m0, u0, m1, f, q, i, 1, w)
  {
    hide TreeOk, Frames;
    RootFacts(m0, u0, f, 1, lo);
    forall q: Path | |q| == 1 && lo <= q[0]
      ensures PageRule(m0, u0, m1, f, q, i, 1, w)
    {
      assert q[1..] == [];
      assert Num(q) == q[0] * Pages(0) + Num([]) == q[0];
    }
  }

  lemma {:induction false} SetupLeafGraft(m0: Memory, u0: set<Frame>, m1: Memory, u1: set<Frame>, f: Frame, lo: nat, i: Index, c: Frame, w: bool)
    requires lo <= i && Within(m0, u0, f, 1, lo)
    requires Prepared(m0, u0, m1, u1, f, i, c, w)
    ensures TreeOk(m1, f, 1, lo)
    ensures KidFrames(m1, f, 1, lo, i) == KidFrames(m0, f, 1, lo, i) + (u1 - u0)
    ensures forall j: Index | j != i :: KidFrames(m1, f, 1, lo, j) == KidFrames(m0, f, 1, lo, j)
    ensures forall j: Index :: KidTables(m1, f, 1, lo, j) == {} && KidTables(m0, f, 1, lo, j) == {}
    ensures forall q: Path | |q| == 1 && lo <= q[0] && q[0] != i :: Leaf(m1, f, q) == Leaf(m0, f, q)
    ensures forall q: Path | |q| == 1 && q[0] == i :: Leaf(m1, f, q) == Some(m1[f][i])
  {
    PreparedChild(m0, u0, m1, u1, f, 1, lo, i, c, w);
    forall j: Index
      ensures KidTables(m0, f, 1, lo, j) == {} && KidTables(m1, f, 1, lo, j) == {}
    {
    }
    Graft(m0, m1, f, 1, lo, i, c);
  }
}
