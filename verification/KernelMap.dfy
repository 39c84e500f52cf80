/** The kernel's half of the page maps (kernel/paging.cpp), and what a write to it does. */
module KernelMap {
  import opened Basics
  import opened PageTables
  import opened PageMapping
  import opened PageSharing
  import opened PageOwnership
  import opened LinearAddresses
  import opened AppSpace
  import opened AppInvariant
  import opened ImageSharing

  const DIRECTORIES: nat := 64

  /** The bit that makes an entry map 2 MiB. */
  const HUGE: nat := 16

  function TableEntry(f: Frame): Entry
  {
    Entry(true, true, false, 0, f, 0)
  }

  /** What SetupIdentityPageTable sets up: the first 64 GiB mapped onto themselves by pages of 2 MiB, for the kernel only.
      `half` is the kernel's half of a top-level table.  What lies beyond the memory there is counts as memory too. */
  ghost predicate IsKernelMap(m: Memory, half: seq<Entry>)
  {
    && DIRECTORIES * ENTRIES * ENTRIES <= |m| && |half| == USER
    && half[0] == TableEntry(half[0].addr) && half[0].addr < |m|
    && (forall j | 0 < j < USER :: !half[j].present)
    && (forall j: Index | DIRECTORIES <= j :: !m[half[0].addr][j].present)
    && (forall j: Index | j < DIRECTORIES :: IsDirectory(m, m[half[0].addr][j], j))
  }

  ghost predicate IsDirectory(m: Memory, e: Entry, j: Index)
  {
    && e == TableEntry(e.addr) && e.addr < |m|
    && forall k: Index :: m[e.addr][k] == Entry(true, true, false, HUGE, BigFrame(j, k), 0)
  }

  /** The first frame of a page of 2 MiB. */
  function BigFrame(pdp: nat, dir: nat): nat
  {
    (pdp * ENTRIES + dir) * ENTRIES
  }

  function BigPage(a: LinearAddress): Frame
  {
    BigFrame(a.pdp, a.dir)
  }

  function KernelTables(m: Memory, half: seq<Entry>): set<Frame>
    requires |half| == USER
  {
    {half[0].addr} + set j: Index | j < DIRECTORIES && half[0].addr < |m| :: m[half[0].addr][j].addr
  }

  /** The processor's walk where a directory maps pages of 2 MiB. */
  function HugeWalk(m: Memory, f: Frame, q: Path): Option<(Frame, bool, bool)>
    decreases |q|
  {
    if |q| < 2 || f >= |m| || !m[f][q[0]].present then None
    else
      var e := m[f][q[0]];
      if |q| == 2 then Some((e.addr + q[1], e.writable, e.user))
      else match HugeWalk(m, e.addr, q[1..])
        case None => None
        case Some((g, w, u)) => Some((g, w && e.writable, u && e.user))
  }

  /** The processor's walk for any address. */
  function Translate(m: Memory, r: Frame, q: Path): Option<(Frame, bool, bool)>
  {
    if q != [] && q[0] < USER then HugeWalk(m, r, q) else Walk(m, r, q)
  }

  /** A frame cleared and then filled with the content of another one. */
  function Filled(m: Memory, p: Frame, g: Frame): Memory
    requires p < |m| && g < |m|
  {
    m[p := m[p := ZeroTable()][g]]
  }

  /** The walk does not depend on frames that are not in use. */
  lemma {:induction false} SameTranslation(m0: Memory, m1: Memory, u: set<Frame>, r: Frame, q: Path)
    requires |q| == TOP && OnTheWay(m0, u, r, q) && SameOn(m0, m1, u) && (q[0] < USER || LastTable(m0, r, q) in u)
    ensures Translate(m1, r, q) == Translate(m0, r, q)
  {
    if q[0] < USER { SameHugeWalk(m0, m1, u, r, q); } else { SameWalk(m0, m1, u, r, q); }
  }

  lemma {:induction false} SameHugeWalk(m0: Memory, m1: Memory, u: set<Frame>, f: Frame, q: Path)
    requires OnTheWay(m0, u, f, q) && SameOn(m0, m1, u)
    ensures HugeWalk(m1, f, q) == HugeWalk(m0, f, q)
    decreases |q|
  {
    if |q| > 2 { SameHugeWalk(m0, m1, u, m0[f][q[0]].addr, q[1..]); }
  }

  lemma {:induction false} SameWalk(m0: Memory, m1: Memory, u: set<Frame>, f: Frame, q: Path)
    requires |q| >= 1 && OnTheWay(m0, u, f, q) && SameOn(m0, m1, u) && LastTable(m0, f, q) in u
    ensures Walk(m1, f, q) == Walk(m0, f, q)
    decreases |q|
  {
    if |q| > 1 { SameWalk(m0, m1, u, m0[f][q[0]].addr, q[1..]); }
  }

  ghost predicate HasHalf(m: Memory, r: Frame, half: seq<Entry>)
  {
    r < |m| && m[r][..USER] == half
  }

  /** In the kernel's half exactly the first 64 GiB are mapped, onto themselves, writable, and not for user mode. */
  lemma {:induction false} KernelWalk(m: Memory, r: Frame, half: seq<Entry>, a: LinearAddress)
    requires IsKernelMap(m, half) && HasHalf(m, r, half) && KernelHalf(a)
    ensures HugeWalk(m, r, PathOf(a, 4)) == if KernelMapped(a) then Some((BigPage(a) + a.page, true, false)) else None
    ensures KernelMapped(a) ==> BigPage(a) + a.page < |m|
  {
    var q4, q3, q2, q1 := PathOf(a, 4), PathOf(a, 3), PathOf(a, 2), PathOf(a, 1);
    assert q4[1..] == q3 && q3[1..] == q2 && q2[0] == a.dir && q2[1] == a.page;
    assert m[r][a.pml4] == half[a.pml4];
    if KernelMapped(a) {
      var d := half[0].addr;
      assert IsDirectory(m, m[d][a.pdp], a.pdp);
      var e := m[d][a.pdp].addr;
      assert m[e][a.dir] == Entry(true, true, false, HUGE, BigPage(a), 0);
      assert HugeWalk(m, e, q2) == Some((BigPage(a) + a.page, true, false));
      assert HugeWalk(m, d, q3) == Some((BigPage(a) + a.page, true, false));
    }
  }

  /** Where SetPageContent writes for such an address: into the first frame of the 2 MiB page, as if it were a table. */
  lemma {:induction false} KernelWay(m: Memory, r: Frame, half: seq<Entry>, a: LinearAddress)
    requires IsKernelMap(m, half) && HasHalf(m, r, half) && KernelMapped(a)
    ensures OnTheWay(m, {r} + KernelTables(m, half), r, PathOf(a, 4)) && LastTable(m, r, PathOf(a, 4)) == BigPage(a) < |m|
    ensures PathOf(a, 4)[3] == a.page
  {
    var q4, q3, q2, q1 := PathOf(a, 4), PathOf(a, 3), PathOf(a, 2), PathOf(a, 1);
    var u := {r} + KernelTables(m, half);
    assert q4[1..] == q3 && q3[1..] == q2 && q2[1..] == q1;
    assert m[r][a.pml4] == half[a.pml4];
    var d := half[0].addr;
    assert IsDirectory(m, m[d][a.pdp], a.pdp);
    var e := m[d][a.pdp].addr;
    assert e in KernelTables(m, half);
    assert OnTheWay(m, u, BigPage(a), q1) && OnTheWay(m, u, e, q2) && OnTheWay(m, u, d, q3);
    assert LastTable(m, e, q2) == LastTable(m, BigPage(a), q1) == BigPage(a);
    assert LastTable(m, d, q3) == LastTable(m, e, q2);
  }

  // ----- it stays -----

  /** The kernel's half is as `half` says in the memory `bm` of the rest of the system, whose image does not use its tables. */
  ghost predicate KernelKept(m: Memory, r: Frame, half: seq<Entry>, base: set<Frame>, bm: Memory, image: Frame)
  {
    && HasHalf(m, r, half) && IsKernelMap(bm, half)
    && KernelTables(bm, half) <= base && KernelTables(bm, half) !! Frames(bm, image, TOP, USER)
  }

  lemma {:induction false} SameKernelMap(m0: Memory, m1: Memory, half: seq<Entry>)
    requires IsKernelMap(m0, half) && SameOn(m0, m1, KernelTables(m0, half))
    ensures IsKernelMap(m1, half) && KernelTables(m1, half) == KernelTables(m0, half)
  {
    var d := half[0].addr;
    assert m1[d] == m0[d];
    forall j: Index | j < DIRECTORIES
      ensures IsDirectory(m1, m1[d][j], j) && m0[d][j].addr in KernelTables(m0, half)
    {
      assert IsDirectory(m0, m0[d][j], j);
    }
  }

  /** The map in use is the kernel's. */
  lemma {:induction false} KernelThere(m: Memory, u: set<Frame>, r: Frame, half: seq<Entry>, base: set<Frame>, bm: Memory, image: Frame)
    requires AppOk(m, u, r, base, bm) && KernelKept(m, r, half, base, bm, image)
    ensures IsKernelMap(m, half) && HasHalf(m, r, half) && KernelTables(m, half) == KernelTables(bm, half) <= base <= u
  {
    hide TreeOk, Frames, Tables, Owned, Open, IsKernelMap, KernelTables;
    SameKernelMap(bm, m, half);
  }

  lemma {:induction false} SameHalf(m0: Memory, m1: Memory, r: Frame, half: seq<Entry>, base: set<Frame>, bm: Memory, image: Frame)
    requires KernelKept(m0, r, half, base, bm, image) && |m1| == |m0|
    requires forall j: Index | j < USER :: m1[r][j] == m0[r][j]
    ensures KernelKept(m1, r, half, base, bm, image)
  {
    hide IsKernelMap, KernelTables, Frames;
    assert m1[r][..USER] == m0[r][..USER];
  }

  /** The kernel's tables are those there were when the application was started. */
  lemma {:induction false} SameTables(m: Memory, r: Frame, half: seq<Entry>, base: set<Frame>, bm: Memory, image: Frame, sm: Memory)
    requires KernelKept(m, r, half, base, bm, image) && OnlyImage(sm, bm, base, image) && ImageOk(bm, base, image)
    ensures KernelTables(sm, half) == KernelTables(bm, half)
  {
    hide IsKernelMap, KernelTables, TreeOk, Frames, Tables, Owned, Open, Leaf;
    forall g: Frame | g in KernelTables(bm, half) && g < |sm|
      ensures sm[g] == bm[g]
    {
      if q: Path :| |q| == TOP && USER <= q[0] && Leaf(sm, image, q).Some? && Leaf(sm, image, q).value.addr == g {
        assert Leaf(bm, image, q) == Leaf(sm, image, q);
        LeafFrame(bm, image, q, USER);
      }
    }
    SameKernelMap(bm, sm, half);
  }

  /** A store into a page of the image. */
  lemma {:induction false} StoreKeepsKernel(m0: Memory, m1: Memory, r: Frame, half: seq<Entry>, base: set<Frame>, bm: Memory, image: Frame,
                                            q: Path, t: Table)
    requires KernelKept(m0, r, half, base, bm, image) && |m1| == |m0| && m1[r] == m0[r]
    requires ImageOk(bm, base, image) && |q| == TOP && USER <= q[0] && Leaf(bm, image, q).Some? && Leaf(bm, image, q).value.addr < |bm|
    ensures KernelKept(m1, r, half, base, bm[Leaf(bm, image, q).value.addr := t], image)
  {
    hide IsKernelMap, KernelTables, TreeOk, Frames, Tables, Owned, Open, Leaf;
    var g := Leaf(bm, image, q).value.addr;
    LeafFrame(bm, image, q, USER);
    Framing(bm, bm[g := t], image, TOP, USER);
    SameKernelMap(bm, bm[g := t], half);
  }

  // ----- an application writes to it -----

  /** One futile copy: frame `p` is taken, and the first frame of the 2 MiB page, which is no table, may change.
      The page map stays; `p` is the application's no longer, nor anyone's. */
  lemma {:induction false} FutileCopy(m: Memory, u: set<Frame>, r: Frame, half: seq<Entry>, base: set<Frame>, f: Frame, p: Frame, m1: Memory)
    requires AppOk(m, u, r, base, m) && HasHalf(m, r, half) && IsKernelMap(m, half) && KernelTables(m, half) <= base
    requires f !in Tables(m, r, TOP, USER) + KernelTables(m, half) && p !in u && p < |m| && |m1| == |m|
    requires forall g: Frame | g < |m| && g != p && g != f :: m1[g] == m[g]
    ensures AppOk(m1, u + {p}, r, base + {p}, m1) && HasHalf(m1, r, half) && IsKernelMap(m1, half)
    ensures KernelTables(m1, half) == KernelTables(m, half) && Tables(m1, r, TOP, USER) == Tables(m, r, TOP, USER)
  {
    hide TreeOk, Frames, Tables, Owned, Open, IsKernelMap, KernelTables;
    TablesInFrames(m, r, TOP, USER);
    OwnedFrames(m, r, TOP, USER);
    RootFacts(m, u, r, TOP, USER);
    RootIsTable(m, r);
    Framing(m, m1, r, TOP, USER);
    SameKernelMap(m, m1, half);
  }

  lemma {:induction false} RootIsTable(m: Memory, r: Frame)
    requires TreeOk(m, r, TOP, USER)
    ensures r < |m| && r in Tables(m, r, TOP, USER)
  {
  }

  /** The table found for such an address is none that a free frame could be. */
  lemma {:induction false} FutileRedirect(m: Memory, m1: Memory, m2: Memory, u: set<Frame>, r: Frame, half: seq<Entry>, a: LinearAddress, p: Frame)
    requires IsKernelMap(m, half) && HasHalf(m, r, half) && KernelMapped(a) && {r} + KernelTables(m, half) <= u && p !in u
    requires p < |m| == |m1| && m1 == m[p := m1[p]] && Redirected(m1, m2, r, PathOf(a, TOP), p)
    ensures BigPage(a) < |m| && m2 == m1[BigPage(a) := m1[BigPage(a)][a.page := m1[BigPage(a)][a.page].(addr := p, writable := true)]]
  {
    hide IsKernelMap, KernelTables, OnTheWay, LastTable;
    KernelWay(m, r, half, a);
    SameWay(m, m1, {r} + KernelTables(m, half), r, PathOf(a, TOP));
  }

  /** What writing to the kernel's half leaves of the frames in `u`: if `free` frames were left they are all gone, and one
      entry of the first frame of the 2 MiB page points at the highest of them. */
  ghost predicate Overrun(m0: Memory, m1: Memory, u: set<Frame>, free: set<Frame>, a: LinearAddress)
  {
    && |m1| == |m0|
    && (forall g: Frame | g in u && g < |m0| && (g != BigPage(a) || free == {}) :: m1[g] == m0[g])
    && (free != {} && BigPage(a) in u && BigPage(a) < |m0| ==> Pointed(m0[BigPage(a)], m1[BigPage(a)], a.page, free))
  }

  ghost predicate Pointed(t0: Table, t1: Table, i: Index, free: set<Frame>)
  {
    exists last: Frame :: last in free && (forall g | g in free :: g <= last) && t1 == t0[i := t0[i].(addr := last, writable := true)]
  }

  /** One copy more. */
  lemma {:induction false} OverrunStep(m0: Memory, m: Memory, m2: Memory, u0: set<Frame>, taken: set<Frame>, a: LinearAddress, p: Frame)
    requires Overrun(m0, m, u0, taken, a) && p !in u0 && p < |m| && BigPage(a) < |m| && (forall g | g in taken :: g < p)
    requires |m2| == |m| && (forall g: Frame | g < |m| && g != p && g != BigPage(a) :: m2[g] == m[g])
    requires BigPage(a) != p ==> m2[BigPage(a)] == m[BigPage(a)][a.page := m[BigPage(a)][a.page].(addr := p, writable := true)]
    ensures Overrun(m0, m2, u0, taken + {p}, a)
  {
    var f, i := BigPage(a), a.page;
    if f in u0 {
      assert m2[f] == m0[f][i := m0[f][i].(addr := p, writable := true)] by {
        if taken != {} {
          var last: Frame :| last in taken && m[f] == m0[f][i := m0[f][i].(addr := last, writable := true)];
          assert m[f][i := m[f][i].(addr := p, writable := true)] == m0[f][i := m0[f][i].(addr := p, writable := true)];
        }
      }
      assert p in taken + {p} && forall g | g in taken + {p} :: g <= p;
    }
  }
}
