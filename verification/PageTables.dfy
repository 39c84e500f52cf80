/** What a four-level page map means (section 4.5 of the Intel SDM, volume 3A). */
module PageTables {
  import opened Basics
  import opened Division

  const ENTRIES: nat := 512

  /** One 64-bit PageMapEntry.  `low` and `high` are the bits the kernel never looks at. */
  datatype Entry = Entry(present: bool, writable: bool, user: bool, low: nat, addr: nat, high: nat)

  const ZERO_ENTRY := Entry(false, false, false, 0, 0, 0)

  type Index = i: nat | i < ENTRIES
  type Frame = nat
  type Table = t: seq<Entry> | |t| == ENTRIES witness seq(ENTRIES, _ => ZERO_ENTRY)
  type Memory = seq<Table>
  /** The table indices of a page, most significant level first. */
  type Path = seq<Index>

  function ZeroTable(): (t: Table)
    ensures forall i: Index :: t[i] == ZERO_ENTRY
  {
    seq(ENTRIES, _ => ZERO_ENTRY)
  }

  // ----- what a page map means -----

  function Child(m: Memory, f: Frame, i: Index): (c: Option<Frame>)
  {
    if f < |m| && m[f][i].present then Some(m[f][i].addr) else None
  }

  /** All frames of the tree rooted at `f`, leaf pages included; the root counts from entry `lo`. */
  ghost function Frames(m: Memory, f: Frame, level: nat, lo: nat): set<Frame>
    decreases level, 1
  {
    {f} + set i: Index, g | g in KidFrames(m, f, level, lo, i) :: g
  }

  ghost function KidFrames(m: Memory, f: Frame, level: nat, lo: nat, i: Index): set<Frame>
    decreases level, 0
  {
    if level > 0 && lo <= i && Child(m, f, i).Some? then Frames(m, Child(m, f, i).value, level - 1, 0) else {}
  }

  /** The frames used as tables, that is, the frames the processor reads when it translates. */
  function Tables(m: Memory, f: Frame, level: nat, lo: nat): set<Frame>
    decreases level, 1
  {
    if level == 0 then {} else {f} + set i: Index, g | g in KidTables(m, f, level, lo, i) :: g
  }

  function KidTables(m: Memory, f: Frame, level: nat, lo: nat, i: Index): set<Frame>
    decreases level, 0
  {
    if level > 0 && lo <= i && Child(m, f, i).Some? then Tables(m, Child(m, f, i).value, level - 1, 0) else {}
  }

  /** No frame occurs twice in the tree. */
  ghost predicate TreeOk(m: Memory, f: Frame, level: nat, lo: nat)
    decreases level
  {
    && f < |m|
    && (level > 0 ==>
          && (forall i: Index | lo <= i && Child(m, f, i).Some? :: TreeOk(m, Child(m, f, i).value, level - 1, 0))
          && (forall i: Index :: f !in KidFrames(m, f, level, lo, i))
          && (forall i: Index, j: Index, g | g in KidFrames(m, f, level, lo, i) && g in KidFrames(m, f, level, lo, j) :: i == j))
  }

  /** The leaf entry that translates page `q`, if every entry on the way is present. */
  ghost function Leaf(m: Memory, f: Frame, q: Path): (e: Option<Entry>)
    decreases |q|
  {
    if q == [] || f >= |m| || !m[f][q[0]].present then None
    else if |q| == 1 then Some(m[f][q[0]])
    else Leaf(m, m[f][q[0]].addr, q[1..])
  }

  /** The kernel keeps every entry reachable from user mode, and every inner entry writable. */
  ghost predicate Open(m: Memory, f: Frame, level: nat, lo: nat)
    decreases level
  {
    level > 0 && f < |m| ==>
      forall i: Index | lo <= i && Child(m, f, i).Some? ::
        m[f][i].user && (level > 1 ==> m[f][i].writable && Open(m, m[f][i].addr, level - 1, 0))
  }

  /** The frames CleanPageMap gives back: everything below `f` reached through a writable entry. */
  ghost function Owned(m: Memory, f: Frame, level: nat, lo: nat): set<Frame>
    decreases level, 1
  {
    set i: Index, g | g in KidOwned(m, f, level, lo, i) :: g
  }

  ghost function KidOwned(m: Memory, f: Frame, level: nat, lo: nat, i: Index): set<Frame>
    decreases level, 0
  {
    if level > 0 && lo <= i && Child(m, f, i).Some? then
      Owned(m, Child(m, f, i).value, level - 1, 0) + (if m[f][i].writable then {m[f][i].addr} else {})
    else {}
  }

  // ----- page numbers -----

  function Pages(level: nat): (n: nat)
    ensures n >= 1
  {
    if level == 0 then 1 else ENTRIES * Pages(level - 1)
  }

  function Num(q: Path): nat
  {
    if q == [] then 0 else q[0] * Pages(|q| - 1) + Num(q[1..])
  }

  lemma {:induction false} NumBound(q: Path)
    ensures Num(q) < Pages(|q|)
  {
    if q != [] {
      NumBound(q[1..]);
      var p := Pages(|q| - 1);
      assert q[0] * p + p <= ENTRIES * p by { Scale(q[0], ENTRIES, p); }
    }
  }

  lemma {:induction false} PagesAbove(level: nat, i: Index)
    requires level >= 1
    ensures (i + 1) * Pages(level - 1) <= Pages(level)
    ensures i == 511 ==> (i + 1) * Pages(level - 1) == Pages(level)
  {
    Scale(i, ENTRIES, Pages(level - 1));
  }

  /** Page numbers order pages first by the top index. */
  lemma {:induction false} NumOrder(q: Path, i: Index)
    requires |q| >= 1
    ensures q[0] < i ==> Num(q) < i * Pages(|q| - 1)
    ensures q[0] > i ==> Num(q) >= i * Pages(|q| - 1) + Pages(|q| - 1)
  {
    NumBound(q[1..]);
    if q[0] < i { Scale(q[0], i, Pages(|q| - 1)); }
    if q[0] > i { Scale(i, q[0], Pages(|q| - 1)); }
  }

  // ----- framing -----

  ghost predicate SameOn(m: Memory, m': Memory, s: set<Frame>)
  {
    |m| == |m'| && forall g: Frame | g in s && g < |m| :: m'[g] == m[g]
  }

  /** The two memories hold the same tree at `f`. */
  ghost predicate SameTree(m: Memory, m': Memory, f: Frame, level: nat, lo: nat)
  {
    && Frames(m', f, level, lo) == Frames(m, f, level, lo)
    && Tables(m', f, level, lo) == Tables(m, f, level, lo)
    && Owned(m', f, level, lo) == Owned(m, f, level, lo)
    && TreeOk(m', f, level, lo) == TreeOk(m, f, level, lo)
    && Open(m', f, level, lo) == Open(m, f, level, lo)
  }

  lemma {:induction false} SameKids(m: Memory, m': Memory, f: Frame, level: nat, lo: nat)
    requires level > 0 && |m| == |m'| && (f < |m| ==> m'[f] == m[f])
    requires forall i: Index | lo <= i && Child(m, f, i).Some? :: SameTree(m, m', Child(m, f, i).value, level - 1, 0)
    ensures SameTree(m, m', f, level, lo)
  {
    forall i: Index
      ensures Child(m', f, i) == Child(m, f, i)
      ensures KidFrames(m', f, level, lo, i) == KidFrames(m, f, level, lo, i)
      ensures KidTables(m', f, level, lo, i) == KidTables(m, f, level, lo, i)
      ensures KidOwned(m', f, level, lo, i) == KidOwned(m, f, level, lo, i)
    {
    }
  }

  /** Memory changes outside the table frames do not change the tree. */
  lemma {:induction false} Framing(m: Memory, m': Memory, f: Frame, level: nat, lo: nat)
    requires SameOn(m, m', Tables(m, f, level, lo))
    ensures SameTree(m, m', f, level, lo)
    decreases level
  {
    if level > 0 {
      assert f in Tables(m, f, level, lo);
      forall i: Index | lo <= i && Child(m, f, i).Some?
        ensures SameTree(m, m', Child(m, f, i).value, level - 1, 0)
      {
        assert forall g: Frame | g in KidTables(m, f, level, lo, i) :: g in Tables(m, f, level, lo);
        Framing(m, m', Child(m, f, i).value, level - 1, 0);
      }
      SameKids(m, m', f, level, lo);
    }
  }

  lemma {:induction false} LeafFraming(m: Memory, m': Memory, f: Frame, q: Path, lo: nat)
    requires |q| >= 1 && lo <= q[0]
    requires SameOn(m, m', Tables(m, f, |q|, lo))
    ensures Leaf(m', f, q) == Leaf(m, f, q)
    decreases |q|
  {
    assert f in Tables(m, f, |q|, lo);
    if f < |m| && m[f][q[0]].present && |q| > 1 {
      assert forall g: Frame | g in KidTables(m, f, |q|, lo, q[0]) :: g in Tables(m, f, |q|, lo);
      LeafFraming(m, m', Child(m, f, q[0]).value, q[1..], 0);
    }
  }

  lemma {:induction false} TablesInFrames(m: Memory, f: Frame, level: nat, lo: nat)
    ensures Tables(m, f, level, lo) <= Frames(m, f, level, lo)
    decreases level
  {
    if level > 0 {
      forall i: Index, g | g in KidTables(m, f, level, lo, i)
        ensures g in KidFrames(m, f, level, lo, i)
      {
        TablesInFrames(m, Child(m, f, i).value, level - 1, 0);
      }
    }
  }

  lemma {:induction false} WhichKid(m: Memory, f: Frame, level: nat, lo: nat, h: Frame) returns (j: Index)
    requires h in Frames(m, f, level, lo) && h != f
    ensures h in KidFrames(m, f, level, lo, j)
  {
    j :| h in KidFrames(m, f, level, lo, j);
  }

  lemma {:induction false} WhichOwner(m: Memory, f: Frame, level: nat, lo: nat, h: Frame) returns (j: Index)
    requires h in Owned(m, f, level, lo)
    ensures h in KidOwned(m, f, level, lo, j)
  {
    j :| h in KidOwned(m, f, level, lo, j);
  }

  lemma {:induction false} OwnedFrames(m: Memory, f: Frame, level: nat, lo: nat)
    requires TreeOk(m, f, level, lo)
    ensures forall i: Index :: KidOwned(m, f, level, lo, i) <= KidFrames(m, f, level, lo, i)
    ensures Owned(m, f, level, lo) <= Frames(m, f, level, lo) - {f}
    decreases level
  {
    forall i: Index
      ensures KidOwned(m, f, level, lo, i) <= KidFrames(m, f, level, lo, i)
    {
      if level > 0 && lo <= i && Child(m, f, i).Some? {
        var c := Child(m, f, i).value;
        OwnedFrames(m, c, level - 1, 0);
        assert c in Frames(m, c, level - 1, 0);
      }
    }
    forall g | g in Owned(m, f, level, lo)
      ensures g in Frames(m, f, level, lo) && g != f
    {
      var i: Index :| g in KidOwned(m, f, level, lo, i);
      assert g in KidFrames(m, f, level, lo, i);
    }
  }

  /** A page's frame belongs to the tree but is none of its tables. */
  lemma {:induction false} LeafFrame(m: Memory, f: Frame, q: Path, lo: nat)
    requires |q| >= 1 && lo <= q[0] && TreeOk(m, f, |q|, lo) && Leaf(m, f, q).Some?
    ensures Leaf(m, f, q).value.present
    ensures Leaf(m, f, q).value.addr in KidFrames(m, f, |q|, lo, q[0])
    ensures Leaf(m, f, q).value.addr in Frames(m, f, |q|, lo)
    ensures Leaf(m, f, q).value.addr !in Tables(m, f, |q|, lo)
    ensures Leaf(m, f, q).value.addr < |m|
    decreases |q|
  {
    var c := Child(m, f, q[0]).value;
    assert TreeOk(m, c, |q| - 1, 0);
    var g := Leaf(m, f, q).value.addr;
    if |q| > 1 { LeafFrame(m, c, q[1..], 0); }
    assert g in KidFrames(m, f, |q|, lo, q[0]);
    forall i: Index | g in KidTables(m, f, |q|, lo, i)
      ensures false
    {
      TablesInFrames(m, Child(m, f, i).value, |q| - 1, 0);
      assert g in KidFrames(m, f, |q|, lo, i);
    }
  }

  /** No two pages share a frame. */
  lemma {:induction false} LeafInjective(m: Memory, f: Frame, q: Path, r: Path, lo: nat)
    requires |q| == |r| >= 1 && lo <= q[0] && lo <= r[0] && TreeOk(m, f, |q|, lo)
    requires Leaf(m, f, q).Some? && Leaf(m, f, r).Some? && Leaf(m, f, q).value.addr == Leaf(m, f, r).value.addr
    ensures q == r
    decreases |q|
  {
    LeafFrame(m, f, q, lo);
    LeafFrame(m, f, r, lo);
    assert q[0] == r[0];
    if |q| > 1 {
      LeafInjective(m, Child(m, f, q[0]).value, q[1..], r[1..], 0);
    }
    assert q == [q[0]] + q[1..] && r == [r[0]] + r[1..];
  }

  /** Replacing the subtree under entry `i` by a tree made of frames of its own. */
  lemma {:induction false} Graft(m0: Memory, m1: Memory, f: Frame, level: nat, lo: nat, i: Index, c: Frame)
    requires level >= 1 && TreeOk(m0, f, level, lo) && lo <= i && |m1| == |m0|
    requires forall j: Index | j != i :: m1[f][j] == m0[f][j]
    requires Child(m1, f, i) == Some(c) && TreeOk(m1, c, level - 1, 0)
    requires forall j: Index | j != i :: SameOn(m0, m1, KidTables(m0, f, level, lo, j))
    requires f !in Frames(m1, c, level - 1, 0)
    requires forall j: Index | j != i :: KidFrames(m0, f, level, lo, j) !! Frames(m1, c, level - 1, 0)
    ensures TreeOk(m1, f, level, lo)
    ensures KidFrames(m1, f, level, lo, i) == Frames(m1, c, level - 1, 0)
    ensures KidTables(m1, f, level, lo, i) == Tables(m1, c, level - 1, 0)
    ensures forall j: Index | j != i :: KidFrames(m1, f, level, lo, j) == KidFrames(m0, f, level, lo, j)
    ensures forall j: Index | j != i :: KidTables(m1, f, level, lo, j) == KidTables(m0, f, level, lo, j)
    ensures forall j: Index | j != i :: KidOwned(m1, f, level, lo, j) == KidOwned(m0, f, level, lo, j)
    ensures forall j: Index | j != i && lo <= j && Child(m0, f, j).Some? ::
              Open(m1, Child(m0, f, j).value, level - 1, 0) == Open(m0, Child(m0, f, j).value, level - 1, 0)
    ensures forall q: Path | |q| == level && lo <= q[0] && q[0] != i :: Leaf(m1, f, q) == Leaf(m0, f, q)
    ensures forall q: Path | |q| == level && q[0] == i ::
              Leaf(m1, f, q) == if level == 1 then Some(m1[f][i]) else Leaf(m1, c, q[1..])
  {
    forall j: Index | j != i
      ensures Child(m1, f, j) == Child(m0, f, j)
      ensures lo <= j && Child(m0, f, j).Some? ==> SameTree(m0, m1, Child(m0, f, j).value, level - 1, 0)
    {
      if lo <= j && Child(m0, f, j).Some? {
        assert KidTables(m0, f, level, lo, j) == Tables(m0, Child(m0, f, j).value, level - 1, 0);
        Framing(m0, m1, Child(m0, f, j).value, level - 1, 0);
      }
    }
    assert KidFrames(m1, f, level, lo, i) == Frames(m1, c, level - 1, 0);
    forall j: Index
      ensures f !in KidFrames(m1, f, level, lo, j)
      ensures j != i ==> KidFrames(m1, f, level, lo, j) == KidFrames(m0, f, level, lo, j)
    {
      assert f !in KidFrames(m0, f, level, lo, j);
    }
    forall q: Path | |q| == level && lo <= q[0] && q[0] != i
      ensures Leaf(m1, f, q) == Leaf(m0, f, q)
    {
      if level > 1 && m0[f][q[0]].present {
        assert KidTables(m0, f, level, lo, q[0]) == Tables(m0, Child(m0, f, q[0]).value, |q[1..]|, 0);
        LeafFraming(m0, m1, Child(m0, f, q[0]).value, q[1..], 0);
      }
    }
  }
}
