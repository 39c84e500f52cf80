/** The flat memory an application sees; AppMemory proves that the kernel's page maps behave like it. */
module AppSpace {
  import opened Basics
  import opened PageTables
  import opened LinearAddresses

  /** Pages `begin` up to `end` show file `fd` from its first byte on. */
  datatype FileMapping = FileMapping(fd: nat, begin: nat, end: nat)

  /** The 4 KiB of a file from a byte offset on, zero past its end. */
  type Files = (nat, nat) -> Table

  /** Pages fill on demand; `shared` are those still shared with the cached image the application was started from, and
      `image` is what that image shows. */
  datatype Space = Space(pages: imap<Path, Table>, shared: iset<Path>, image: imap<Path, Table>,
                         dpBegin: nat, dpEnd: nat, mapEnd: nat, maps: seq<FileMapping>)

  const TWO64: nat := 0x1_0000_0000_0000_0000

  predicate Covers(m: FileMapping, v: nat)
  {
    m.begin <= v < m.end
  }

  /** The first mapping that covers an address. */
  function FirstMapping(maps: seq<FileMapping>, v: nat): (r: Option<FileMapping>)
    ensures r.None? <==> forall k | 0 <= k < |maps| :: !Covers(maps[k], v)
    ensures r.Some? ==> r.value in maps && Covers(r.value, v)
  {
    if maps == [] then None else if Covers(maps[0], v) then Some(maps[0]) else FirstMapping(maps[1..], v)
  }

  function PageBase(a: LinearAddress): nat
  {
    a.(offset := 0).Value()
  }

  function FilePage(files: Files, m: FileMapping, a: LinearAddress): Table
  {
    if PageBase(a) < m.begin then ZeroTable() else files(m.fd, PageBase(a) - m.begin)
  }

  /** What the page at an address holds once it is touched, if it may be touched at all. */
  ghost function Touched(sp: Space, files: Files, a: LinearAddress): Option<Table>
  {
    var q := PathOf(a, 4);
    if q in sp.pages then Some(sp.pages[q])
    else if sp.dpBegin <= a.Value() < sp.dpEnd then Some(ZeroTable())
    else match FirstMapping(sp.maps, a.Value())
      case Some(m) => Some(FilePage(files, m, a))
      case None => None
  }

  /** The processor uses no address whose upper bits are not those of bit 47. */
  predicate Canonical(a: LinearAddress)
  {
    a.high == if a.pml4 < 256 then 0 else 0xffff
  }

  /** The kernel's half of the address space, the same in every page map. */
  predicate KernelHalf(a: LinearAddress)
  {
    a.pml4 < 256
  }

  /** Its first 64 GiB are mapped, for the kernel only. */
  predicate KernelMapped(a: LinearAddress)
  {
    a.pml4 == 0 && a.pdp < 64
  }

  ghost function Reached(sp: Space, files: Files, a: LinearAddress): Option<Table>
  {
    if Canonical(a) && !KernelHalf(a) then Touched(sp, files, a) else None
  }

  /** The address is one that faults in: demand paging or a mapped file covers it. */
  ghost predicate Ranged(sp: Space, a: LinearAddress)
  {
    sp.dpBegin <= a.Value() < sp.dpEnd || FirstMapping(sp.maps, a.Value()).Some?
  }

  /** `size` is what Size() says of the file, if `fd` is an open file; it is stored at address `a`. */
  datatype Op =
    | Write(a: LinearAddress, value: Entry)
    | Read(a: LinearAddress)
    | DemandPages(count: nat)
    | MapFile(fd: nat, size: Option<nat>, a: LinearAddress)

  /** A fault the kernel cannot serve ends the application, or stops the machine if the kernel itself raised it. */
  datatype Outcome = Value(value: Entry) | Address(start: nat) | BadFile | Killed | Halted | Stray

  predicate Stops(out: Outcome)
  {
    out.Killed? || out.Halted? || out.Stray?
  }

  /** The flat memory says nothing of a write to what is mapped of the kernel's half, nor of a page that faults in there. */
  ghost predicate Strays(sp: Space, op: Op)
  {
    match op
    case Write(a, _) => Canonical(a) && KernelHalf(a) && (KernelMapped(a) || Ranged(sp, a))
    case Read(a) => Canonical(a) && KernelHalf(a) && !KernelMapped(a) && Ranged(sp, a)
    case MapFile(_, Some(_), a) => Canonical(a) && KernelHalf(a) && (KernelMapped(a) || Ranged(sp, a))
    case _ => false
  }

  /** A 64-bit number as a word of memory. */
  function WordOf(v: nat): Entry
  {
    Entry(v % 2 == 1, v / 2 % 2 == 1, v / 4 % 2 == 1, v / 8 % 512, v / 4096 % 0x100_0000_0000, v / 0x10_0000_0000_0000 % 4096)
  }

  function WordIndex(a: LinearAddress): Index
  {
    a.offset / 8
  }

  /** The address a new mapping of `size` bytes starts at: just below the last one, rounded down to a
      page, in 64-bit arithmetic. */
  function MapBegin(end: nat, size: nat): nat
  {
    (end - size) % TWO64 / 4096 * 4096
  }

  /** One step of the application on its flat memory. */
  ghost function Step(sp: Space, files: Files, op: Op): (Space, Outcome)
  {
    if Strays(sp, op) then (sp, Stray)
    else match op
    case Write(a, v) =>
      (match Reached(sp, files, a)
       case None => (sp, Killed)
       case Some(t) => (Written(sp, PathOf(a, 4), t[WordIndex(a) := v]), Value(v)))
    case Read(a) =>
      (match Reached(sp, files, a)
       case None => (sp, Killed)
       case Some(t) => (sp.(pages := sp.pages[PathOf(a, 4) := t]), Value(t[WordIndex(a)])))
    case DemandPages(n) =>
      (sp.(dpEnd := (sp.dpEnd + 4096 * n) % TWO64), Address(sp.dpEnd))
    case MapFile(fd, None, _) => (sp, BadFile)
    case MapFile(fd, Some(size), a) =>
      (match Stored(sp, files, a, WordOf(size))
       case None => (sp, Halted)
       case Some(next) =>
         var begin := MapBegin(sp.mapEnd, size);
         (next.(mapEnd := begin, maps := sp.maps + [FileMapping(fd, begin, sp.mapEnd)]), Address(begin)))
  }

  lemma {:induction false} StepStray(sp: Space, files: Files, op: Op)
    ensures Step(sp, files, op).1 == Stray <==> Strays(sp, op)
    ensures Strays(sp, op) ==> Step(sp, files, op).0 == sp
  {
  }

  /** User mode writes page `q`, which is private from then on. */
  ghost function Written(sp: Space, q: Path, t: Table): Space
  {
    sp.(pages := sp.pages[q := t], shared := sp.shared - iset{q})
  }

  /** The kernel writes page `q`: a page that is still shared changes for the image too. */
  ghost function Overwritten(sp: Space, q: Path, t: Table): Space
  {
    sp.(pages := sp.pages[q := t], image := if q in sp.shared then sp.image[q := t] else sp.image)
  }

  /** The kernel stores a word at an address of the application, if it can. */
  ghost function Stored(sp: Space, files: Files, a: LinearAddress, v: Entry): Option<Space>
  {
    match Reached(sp, files, a)
    case None => None
    case Some(t) => Some(Overwritten(sp, PathOf(a, 4), t[WordIndex(a) := v]))
  }

  /** A whole run; nothing follows once the application is killed or the machine has stopped. */
  ghost function Run(sp: Space, files: Files, ops: seq<Op>): (outs: seq<Outcome>)
    decreases |ops|
  {
    if ops == [] then []
    else
      var (next, out) := Step(sp, files, ops[0]);
      if Stops(out) then [out] else [out] + Run(next, files, ops[1..])
  }

  /** The memory after a run. */
  ghost function After(sp: Space, files: Files, ops: seq<Op>): Space
    decreases |ops|
  {
    if ops == [] then sp
    else
      var (next, out) := Step(sp, files, ops[0]);
      if Stops(out) then next else After(next, files, ops[1..])
  }

  lemma {:induction false} NoStep(sp: Space, files: Files, ops: seq<Op>)
    ensures Run(sp, files, ops[..0]) == [] && After(sp, files, ops[..0]) == sp
  {
    assert ops[..0] == [];
  }

  /** A run that has not stopped goes on from the memory it has come to. */
  lemma {:induction false} RunSplit(sp: Space, files: Files, xs: seq<Op>, ys: seq<Op>)
    requires |Run(sp, files, xs)| == |xs| && forall i | 0 <= i < |xs| :: !Stops(Run(sp, files, xs)[i])
    ensures Run(sp, files, xs + ys) == Run(sp, files, xs) + Run(After(sp, files, xs), files, ys)
    ensures After(sp, files, xs + ys) == After(After(sp, files, xs), files, ys)
    decreases |xs|
  {
    hide Step;
    if xs == [] {
      assert xs + ys == ys;
    } else {
      var u := Step(sp, files, xs[0]).0;
      assert (xs + ys)[1..] == xs[1..] + ys;
      assert !Stops(Run(sp, files, xs)[0]);
      assert Run(u, files, xs[1..]) == Run(sp, files, xs)[1..];
      assert forall i | 0 <= i < |xs| - 1 :: Run(u, files, xs[1..])[i] == Run(sp, files, xs)[i + 1];
      RunSplit(u, files, xs[1..], ys);
    }
  }

  /** One more step of a run that has not stopped. */
  lemma {:induction false} OneMore(sp: Space, files: Files, ops: seq<Op>, k: nat)
    requires k < |ops| && |Run(sp, files, ops[..k])| == k && forall i | 0 <= i < k :: !Stops(Run(sp, files, ops[..k])[i])
    ensures var (next, out) := Step(After(sp, files, ops[..k]), files, ops[k]);
            && Run(sp, files, ops[..k + 1]) == Run(sp, files, ops[..k]) + [out] && After(sp, files, ops[..k + 1]) == next
            && Run(sp, files, ops[..k]) <= Run(sp, files, ops)
            && (Stops(out) ==> Run(sp, files, ops) == Run(sp, files, ops[..k]) + [out] && After(sp, files, ops) == next)
  {
    hide Step;
    var u := After(sp, files, ops[..k]);
    RunSplit(sp, files, ops[..k], [ops[k]]);
    RunSplit(sp, files, ops[..k], ops[k..]);
    assert ops[..k] + [ops[k]] == ops[..k + 1] && ops[..k] + ops[k..] == ops;
    assert [ops[k]][1..] == [];
    NoStep(Step(u, files, ops[k]).0, files, ops);
    assert Run(u, files, [ops[k]]) == [Step(u, files, ops[k]).1] && After(u, files, [ops[k]]) == Step(u, files, ops[k]).0;
  }

  /** The memory an application leaves after `n` outcomes; its last step is not done if memory ran out in it. */
  ghost function Final(sp: Space, files: Files, ops: seq<Op>, n: nat, outOfMemory: bool): Space
  {
    if outOfMemory && 0 < n <= |ops| then After(sp, files, ops[..n - 1]) else After(sp, files, ops)
  }

  // ----- demand paging -----

  /** The pages that a DemandPages hands out, from address `b` up to `e`, can be used. */
  ghost predicate Usable(sp: Space, files: Files, b: nat, e: nat)
  {
    forall a: LinearAddress | Canonical(a) && !KernelHalf(a) && b <= a.Value() < e :: Reached(sp, files, a).Some?
  }

  /** The range for demand paging has not wrapped. */
  ghost predicate Ordered(sp: Space)
  {
    sp.dpBegin <= sp.dpEnd < TWO64
  }

  /** DemandPages answers with the first address of `n` pages, right behind those of the call before; each page can be used
      from then on, and reads as zero if it was not touched before. */
  lemma {:induction false} DemandPagesGives(sp: Space, files: Files, n: nat, a: LinearAddress)
    requires Ordered(sp) && sp.dpEnd + 4096 * n < TWO64
    ensures var (u, out) := Step(sp, files, DemandPages(n));
            && out == Address(sp.dpEnd) && u.dpEnd == sp.dpEnd + 4096 * n && Ordered(u)
            && Usable(u, files, out.start, out.start + 4096 * n)
            && (Canonical(a) && !KernelHalf(a) && out.start <= a.Value() < out.start + 4096 * n && PathOf(a, 4) !in sp.pages ==>
                  Reached(u, files, a) == Some(ZeroTable()))
  {
    var (u, out) := Step(sp, files, DemandPages(n));
    forall b: LinearAddress | Canonical(b) && !KernelHalf(b) && out.start <= b.Value() < out.start + 4096 * n
      ensures Reached(u, files, b).Some?
    {
    }
  }

  /** No DemandPages wraps the range around. */
  ghost predicate NoWrap(sp: Space, files: Files, ops: seq<Op>)
    decreases |ops|
  {
    if ops == [] then true
    else
      var (next, out) := Step(sp, files, ops[0]);
      (ops[0].DemandPages? ==> sp.dpEnd + 4096 * ops[0].count < TWO64) && (Stops(out) || NoWrap(next, files, ops[1..]))
  }

  /** The rest of a run leaves them usable, and moves the end of the range up only. */
  lemma {:induction false} StaysUsable(sp: Space, files: Files, ops: seq<Op>, b: nat, e: nat)
    requires Ordered(sp) && Usable(sp, files, b, e) && NoWrap(sp, files, ops)
    ensures var u := After(sp, files, ops); Ordered(u) && Usable(u, files, b, e) && u.dpBegin == sp.dpBegin && u.dpEnd >= sp.dpEnd
    decreases |ops|
  {
    hide Step, Usable;
    if ops != [] {
      StepUsable(sp, files, ops[0], b, e);
      if !Stops(Step(sp, files, ops[0]).1) { StaysUsable(Step(sp, files, ops[0]).0, files, ops[1..], b, e); }
    }
  }

  lemma {:induction false} StepUsable(sp: Space, files: Files, op: Op, b: nat, e: nat)
    requires Ordered(sp) && Usable(sp, files, b, e) && (op.DemandPages? ==> sp.dpEnd + 4096 * op.count < TWO64)
    ensures var u := Step(sp, files, op).0; Ordered(u) && Usable(u, files, b, e) && u.dpBegin == sp.dpBegin && u.dpEnd >= sp.dpEnd
  {
    var u := Step(sp, files, op).0;
    forall a: LinearAddress | Canonical(a) && !KernelHalf(a) && b <= a.Value() < e
      ensures Reached(u, files, a).Some?
    {
      assert Reached(sp, files, a).Some?;
      if FirstMapping(sp.maps, a.Value()).Some? { MoreMappings(sp.maps, u.maps, a.Value()); }
    }
  }

  lemma {:induction false} MoreMappings(maps: seq<FileMapping>, more: seq<FileMapping>, v: nat)
    requires maps <= more && FirstMapping(maps, v).Some?
    ensures FirstMapping(more, v).Some?
  {
    var k :| 0 <= k < |maps| && Covers(maps[k], v);
    assert more[k] == maps[k];
  }

  /** Two calls of DemandPages in a run hand out ranges that do not overlap, and adjoin if no call came between. */
  lemma {:induction false} RangesApart(sp: Space, files: Files, n: nat, ops: seq<Op>, m: nat)
    requires Ordered(sp) && sp.dpEnd + 4096 * n < TWO64 && NoWrap(Step(sp, files, DemandPages(n)).0, files, ops)
    ensures var first := Step(sp, files, DemandPages(n));
            var u := After(first.0, files, ops);
            var second := Step(u, files, DemandPages(m)).1;
            && first.1.start + 4096 * n <= second.start && Usable(u, files, first.1.start, first.1.start + 4096 * n)
            && ((forall i | 0 <= i < |ops| :: !ops[i].DemandPages?) ==> second.start == first.1.start + 4096 * n)
  {
    var first := Step(sp, files, DemandPages(n));
    DemandPagesGives(sp, files, n, FromValue(0));
    StaysUsable(first.0, files, ops, first.1.start, first.1.start + 4096 * n);
    if forall i | 0 <= i < |ops| :: !ops[i].DemandPages? { SameEnd(first.0, files, ops); }
  }

  lemma {:induction false} SameEnd(sp: Space, files: Files, ops: seq<Op>)
    requires forall i | 0 <= i < |ops| :: !ops[i].DemandPages?
    ensures After(sp, files, ops).dpEnd == sp.dpEnd
    decreases |ops|
  {
    if ops != [] && !Stops(Step(sp, files, ops[0]).1) { SameEnd(Step(sp, files, ops[0]).0, files, ops[1..]); }
  }

  /** What can be used is neither refused nor fatal. */
  lemma {:induction false} UsableMeans(sp: Space, files: Files, b: nat, e: nat, a: LinearAddress, v: Entry)
    requires Usable(sp, files, b, e) && Canonical(a) && !KernelHalf(a) && b <= a.Value() < e
    ensures Step(sp, files, Write(a, v)).1 == Value(v) && Step(sp, files, Read(a)).1.Value?
    ensures Step(Step(sp, files, Write(a, v)).0, files, Read(a)).1 == Value(v)
  {
    assert Reached(sp, files, a).Some?;
  }

  /** A word written is read back until the next store to it, and no other word changes. */
  lemma {:induction false} ReadsBack(sp: Space, files: Files, a: LinearAddress, v: Entry, b: LinearAddress)
    requires Reached(sp, files, a).Some? && Reached(sp, files, b).Some?
    ensures var u := Step(sp, files, Write(a, v)).0;
            Step(u, files, Read(b)).1 ==
            if PathOf(a, 4) == PathOf(b, 4) && WordIndex(a) == WordIndex(b) then Value(v)
            else if PathOf(a, 4) == PathOf(b, 4) then Value(Reached(sp, files, a).value[WordIndex(b)])
            else Step(sp, files, Read(b)).1
  {
  }

  // ----- what happens to the image -----

  /** The image shows the pages that are still shared. */
  ghost predicate Coherent(sp: Space)
  {
    forall q | q in sp.shared :: |q| == 4 && 256 <= q[0] && q in sp.pages && q in sp.image && sp.pages[q] == sp.image[q]
  }

  lemma {:induction false} StepCoherent(sp: Space, files: Files, op: Op)
    requires Coherent(sp)
    ensures Coherent(Step(sp, files, op).0) && Step(sp, files, op).0.image.Keys == sp.image.Keys
  {
  }

  /** A word the kernel stores at `a` changes a page still shared. */
  ghost predicate ChangesShared(sp: Space, files: Files, a: LinearAddress, v: Entry)
  {
    Reached(sp, files, a).Some? && PathOf(a, 4) in sp.shared && Reached(sp, files, a).value[WordIndex(a)] != v
  }

  /** The step changes no page still shared. */
  ghost predicate Careful(sp: Space, files: Files, op: Op)
  {
    op.MapFile? && op.size.Some? ==> !ChangesShared(sp, files, op.a, WordOf(op.size.value))
  }

  /** A step keeps the image iff it is careful. */
  lemma {:induction false} ImageKeptIff(sp: Space, files: Files, op: Op)
    requires Coherent(sp)
    ensures Step(sp, files, op).0.image == sp.image <==> Careful(sp, files, op)
  {
    if op.MapFile? && op.size.Some? && Reached(sp, files, op.a).Some? && PathOf(op.a, 4) in sp.shared {
      var q, i, w := PathOf(op.a, 4), WordIndex(op.a), WordOf(op.size.value);
      assert sp.image[q := sp.image[q][i := w]][q] == sp.image[q][i := w];
      assert sp.image[q][i := w][i] == w;
      if sp.image[q][i] == w { assert sp.image[q][i := w] == sp.image[q]; }
    }
  }

  ghost predicate CarefulRun(sp: Space, files: Files, ops: seq<Op>)
    decreases |ops|
  {
    if ops == [] then true
    else
      var (next, out) := Step(sp, files, ops[0]);
      Careful(sp, files, ops[0]) && (Stops(out) || CarefulRun(next, files, ops[1..]))
  }

  lemma {:induction false} AfterCoherent(sp: Space, files: Files, ops: seq<Op>)
    requires Coherent(sp)
    ensures Coherent(After(sp, files, ops)) && After(sp, files, ops).image.Keys == sp.image.Keys
    decreases |ops|
  {
    hide Step, Coherent;
    if ops != [] {
      StepCoherent(sp, files, ops[0]);
      AfterCoherent(Step(sp, files, ops[0]).0, files, ops[1..]);
    }
  }

  /** The image is the same all through a run iff every step of the run is careful. */
  lemma {:induction false} CarefulIff(sp: Space, files: Files, ops: seq<Op>)
    requires Coherent(sp)
    ensures CarefulRun(sp, files, ops) <==> forall k | 0 <= k <= |ops| :: After(sp, files, ops[..k]).image == sp.image
    decreases |ops|
  {
    hide Step, Coherent, Careful;
    if ops == [] {
      assert ops[..0] == [];
    } else {
      var (next, out) := Step(sp, files, ops[0]);
      StepCoherent(sp, files, ops[0]);
      ImageKeptIff(sp, files, ops[0]);
      forall k | 0 < k <= |ops|
        ensures After(sp, files, ops[..k]) == if Stops(out) then next else After(next, files, ops[1..][..k - 1])
      {
        assert ops[..k][0] == ops[0] && ops[..k][1..] == ops[1..][..k - 1];
      }
      assert ops[1..][..0] == [];
      CarefulIff(next, files, ops[1..]);
      if forall k | 0 <= k <= |ops| :: After(sp, files, ops[..k]).image == sp.image {
        assert After(sp, files, ops[..1]).image == sp.image;
        forall k | 0 <= k <= |ops[1..]|
          ensures !Stops(out) ==> After(next, files, ops[1..][..k]).image == next.image
        {
          assert After(sp, files, ops[..k + 1]).image == sp.image;
        }
      }
    }
  }

  /** A system call that is handed a pointer into a page not written yet changes the image for every application
      started from it later. */
  lemma {:induction false} SharedStoreExample(sp: Space, files: Files, fd: nat, size: nat, a: LinearAddress)
    requires Coherent(sp) && Canonical(a) && PathOf(a, 4) in sp.shared
    requires sp.image[PathOf(a, 4)][WordIndex(a)] != WordOf(size)
    ensures var ops := [MapFile(fd, Some(size), a), Read(a)];
            && Run(sp, files, ops) == [Address(MapBegin(sp.mapEnd, size)), Value(WordOf(size))]
            && After(sp, files, ops).image != sp.image
  {
    var op, get := MapFile(fd, Some(size), a), Read(a);
    var u := Step(sp, files, op).0;
    ImageKeptIff(sp, files, op);
    StepCoherent(sp, files, op);
    assert [op, get][1..] == [get] && [get][1..] == [];
    assert Run(Step(u, files, get).0, files, []) == [];
    assert Run(u, files, [get]) == [Value(WordOf(size))];
    assert After(u, files, [get]) == Step(u, files, get).0;
    assert Step(u, files, get).0.image == u.image;
  }

  // ----- the kernel's half -----

  /** A write through a null pointer, in user mode or by a system call, is such a write. */
  lemma {:induction false} NullWriteStrays(sp: Space, files: Files, v: Entry, fd: nat, size: nat)
    ensures Step(sp, files, Write(FromValue(0), v)) == (sp, Stray) && Strays(sp, Write(FromValue(0), v))
    ensures Run(sp, files, [Write(FromValue(0), v)]) == [Stray]
    ensures Step(sp, files, MapFile(fd, Some(size), FromValue(0))) == (sp, Stray)
  {
  }

  /** A read of the kernel's half, and an access to what is not mapped there, is refused and changes nothing. */
  lemma {:induction false} KernelHalfRefused(sp: Space, files: Files, a: LinearAddress, v: Entry, fd: nat, size: nat)
    requires Canonical(a) && KernelHalf(a) && !Ranged(sp, a)
    ensures Step(sp, files, Read(a)) == (sp, Killed)
    ensures !KernelMapped(a) ==> Step(sp, files, Write(a, v)) == (sp, Killed)
    ensures !KernelMapped(a) ==> Step(sp, files, MapFile(fd, Some(size), a)) == (sp, Halted)
  {
  }

  /** Pages that fault in are above `low`. */
  ghost predicate Above(sp: Space, low: nat)
  {
    sp.dpBegin >= low && low <= sp.mapEnd < TWO64 && forall m | m in sp.maps :: m.begin >= low
  }

  const HALF: nat := 0x8000_0000_0000
  const TWO32: nat := 0x1_0000_0000

  /** A file is smaller than 4 GiB. */
  ghost predicate FilesFit(ops: seq<Op>)
  {
    forall k | 0 <= k < |ops| && ops[k].MapFile? && ops[k].size.Some? :: ops[k].size.value < TWO32
  }

  /** A file mapped moves the end of the mappings down by 4 GiB at most. */
  lemma {:induction false} StepAbove(sp: Space, files: Files, op: Op, low: nat)
    requires FilesFit([op]) && Above(sp, low + TWO32) && low % 4096 == 0
    ensures Above(Step(sp, files, op).0, low)
  {
    hide Touched, MapBegin, FirstMapping, Canonical, KernelHalf;
    assert [op][0] == op;
    if op.MapFile? && op.size.Some? { BeginAbove(sp.mapEnd, op.size.value, low); }
  }

  lemma {:induction false} BeginAbove(end: nat, size: nat, low: nat)
    requires low + TWO32 <= end < TWO64 && size < TWO32 && low % 4096 == 0
    ensures low <= MapBegin(end, size) <= end
  {
    assert (end - size) % TWO64 == end - size;
  }

  /** With no more than 2^31 steps nothing ever faults in in the kernel's half: only what is mapped there is strayed into. */
  lemma {:induction false} NothingRanged(sp: Space, files: Files, ops: seq<Op>, low: nat, a: LinearAddress)
    requires Above(sp, low + |ops| * TWO32) && FilesFit(ops) && low % 4096 == 0 && low >= HALF
    requires Canonical(a) && KernelHalf(a)
    ensures !Ranged(After(sp, files, ops), a)
    decreases |ops|
  {
    hide Step, Touched;
    if ops == [] {
      ValueBelow(a);
    } else {
      var next := Step(sp, files, ops[0]).0;
      var rest := low + (|ops| - 1) * TWO32;
      assert [ops[0]][0] == ops[0];
      StepAbove(sp, files, ops[0], rest);
      if Stops(Step(sp, files, ops[0]).1) {
        NothingRanged(next, files, [], low, a);
      } else {
        NothingRanged(next, files, ops[1..], low, a);
      }
    }
  }

  /** The step writes to what is mapped of the kernel's half. */
  predicate Trespasses(op: Op)
  {
    (op.Write? || (op.MapFile? && op.size.Some?)) && Canonical(op.a) && KernelMapped(op.a)
  }

  /** So such a run strays iff it trespasses. */
  lemma {:induction false} StraysIff(sp: Space, files: Files, ops: seq<Op>, low: nat, op: Op)
    requires Above(sp, low + |ops| * TWO32) && FilesFit(ops) && low % 4096 == 0 && low >= HALF
    ensures Strays(After(sp, files, ops), op) <==> Trespasses(op)
  {
    hide Above, FilesFit;
    if !op.DemandPages? {
      if Canonical(op.a) && KernelHalf(op.a) { NothingRanged(sp, files, ops, low, op.a); }
    }
  }

  lemma {:induction false} ValueBelow(a: LinearAddress)
    requires Canonical(a) && KernelHalf(a)
    ensures a.Value() < HALF
  {
  }

  // ----- where an application starts -----

  const STACK_PAGES: nat := 16
  const ARGS_VALUE: nat := 0xffff_ffff_ffff_f000
  const STACK_VALUE: nat := ARGS_VALUE - STACK_PAGES * 4096
  const CLEAN_VALUE: nat := 0xffff_8000_0000_0000

  function ArgsAddress(): (a: LinearAddress)
    ensures a == LinearAddress(0, 511, 511, 511, 511, 0xffff)
  {
    FromValue(ARGS_VALUE)
  }

  function StackAddress(): (a: LinearAddress)
    ensures a == LinearAddress(0, 495, 511, 511, 511, 0xffff)
  {
    FromValue(STACK_VALUE)
  }

  function CleanAddress(): (a: LinearAddress)
    ensures a == LinearAddress(0, 0, 0, 0, 256, 0xffff)
  {
    FromValue(CLEAN_VALUE)
  }

  lemma {:induction false} StartNumbers()
    ensures Pages(4) == 0x10_0000_0000
    ensures Num(PathOf(ArgsAddress(), 4)) == 0xf_ffff_ffff
    ensures Num(PathOf(StackAddress(), 4)) == 0xf_ffff_ffef
  {
    PathNumber(ArgsAddress());
    PathNumber(StackAddress());
    assert Pages(0) == 1 && Pages(1) == 512 && Pages(2) == 262144 && Pages(3) == 134217728;
  }

  /** A page of the stack or the page of the arguments. */
  ghost predicate StartPageNumber(n: nat)
  {
    0xf_ffff_ffef <= n
  }
}
