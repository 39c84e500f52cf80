/** One application from LoadApp to FreePML4 (kernel/terminal.cpp, kernel/paging.cpp, kernel/syscall.cpp): the
    kernel serves page faults and system calls while the processor runs the application.  What the application
    sees is proved to be the flat memory of AppSpace, and what the run leaves behind is proved to be what was
    there before: the same frames in use, with the same contents, but for what the kernel stored into pages of
    the image, and unless the application wrote to the kernel's half.  The processor is modelled by its walk through
    the tables and the faults it raises. */
module AppMemory {
  import opened Basics
  import opened PageTables
  import opened PageMapping
  import opened PageReclaim
  import opened PageSharing
  import opened PageOwnership
  import opened LinearAddresses
  import opened Paging
  import opened AppSpace
  import opened AppInvariant
  import opened ImageSharing
  import opened KernelMap

  /** How far a run is followed: until the application has ended and its frames are given back, with the last step a
      write to the kernel's half or not; until the kernel has halted or stored into its half of the address space; or
      until a step beyond that. */
  datatype End = CleanedUp | Overran | MachineStopped | StoredAway | Unfollowed

  class App {
    const pager: Pager
    const files: Files
    /** The page map in use, CR3. */
    var cr3: Frame
    var dpBegin: nat
    var dpEnd: nat
    var fileMapEnd: nat
    var fileMaps: seq<FileMapping>
    /** The frames in use by the rest of the system, and the memory they had when the application came. */
    ghost var base: set<Frame>
    ghost var baseMem: Memory
    /** The cached image the application was started from, and the memory at that time; `baseMem` differs from it
        where the kernel has stored into pages of the image. */
    ghost var image: Frame
    ghost var startMem: Memory
    /** The kernel's half of the top-level table. */
    ghost var half: seq<Entry>

    constructor (pager: Pager, files: Files, kernelMap: Frame)
      ensures this.pager == pager && this.files == files && cr3 == kernelMap
    {
      this.pager, this.files := pager, files;
      cr3 := kernelMap;
      dpBegin, dpEnd, fileMapEnd, fileMaps := 0, 0, 0, [];
    }

    ghost predicate Loaded()
      reads this, pager
    {
      pager.rangeEnd <= |pager.mem| && AppOk(pager.mem, pager.used, cr3, base, baseMem)
    }

    ghost predicate Valid()
      reads this, pager
    {
      && Loaded() && Linked(pager.mem, cr3, base, baseMem, image, startMem)
      && KernelKept(pager.mem, cr3, half, base, baseMem, image)
    }

    /** The kernel's page maps show exactly the pages of the flat memory, share with the image exactly the pages it says,
        and the image shows what it says. */
    ghost predicate Shows(sp: Space)
      reads this, pager
    {
      && sp.dpBegin == dpBegin && sp.dpEnd == dpEnd && sp.mapEnd == fileMapEnd && sp.maps == fileMaps
      && ShowsPages(pager.mem, cr3, sp.pages) && ShowsShared(pager.mem, cr3, sp.shared) && ShowsPages(baseMem, image, sp.image)
    }

    method FindFileMapping(v: nat) returns (m: Option<FileMapping>)
      ensures m == FirstMapping(fileMaps, v)
    {
      var i := 0;
      while i < |fileMaps|
        invariant i <= |fileMaps|
        invariant FirstMapping(fileMaps, v) == FirstMapping(fileMaps[i..], v)
      {
        assert fileMaps[i..][1..] == fileMaps[i + 1..];
        if fileMaps[i].begin <= v && v < fileMaps[i].end {
          return Some(fileMaps[i]);
        }
        i := i + 1;
      }
      assert fileMaps[i..] == [];
      return None;
    }

    /** SetupPageMaps for pages that are not mapped read-only. */
    method SetupPageMaps(a: LinearAddress, num: nat) returns (err: Error, ghost done: nat)
      requires Valid() && USER <= a.Part(TOP)
      requires forall g: Frame :: !Exposed(pager.mem, cr3, TOP, USER, Num(PathOf(a, TOP)), num, g)
      modifies pager`mem, pager`used
      ensures Valid()
      ensures err == Success && num > 0 ==> done > 0
      ensures err == Success && Num(PathOf(a, TOP)) + num <= Pages(TOP) ==> done == num
      ensures err != Success ==> err == NoEnoughMemory && pager.Full()
      ensures done <= num && Grown(old(pager.mem), pager.mem, cr3, Num(PathOf(a, TOP)), done)
      ensures pager.used >= old(pager.used)
    {
      hide AppOk, Linked, Setup, TreeOk, Frames, Tables, Owned, Open, Leaf, Exposed;
      ghost var m0, u0 := pager.mem, pager.used;
      AppWithin(m0, u0, cr3, base, baseMem);
      var remain;
      remain, err, done := pager.SetupPageMap(cr3, TOP, a, num, true, USER);
      FewerExposed(m0, cr3, Num(PathOf(a, TOP)), done, num);
      SetupKeepsApp(m0, u0, pager.mem, pager.used, cr3, base, baseMem, Num(PathOf(a, TOP)), done);
      SetupGrown(m0, u0, pager.mem, pager.used, cr3, Num(PathOf(a, TOP)), done);
      GrownFewer(m0, pager.mem, cr3, Num(PathOf(a, TOP)), done);
      FewerLinked(m0, pager.mem, cr3, base, baseMem, image, startMem);
      SetupHalf(m0, u0, pager.mem, pager.used, cr3, Num(PathOf(a, TOP)), done);
      SameHalf(m0, pager.mem, cr3, half, base, baseMem, image);
    }

    /** The processor finds a page at `a`, and SetPageContent an entry. */
    ghost predicate Copyable(a: LinearAddress)
      reads this, pager
    {
      var q := PathOf(a, TOP);
      && pager.rangeEnd <= |pager.mem| && OnTheWay(pager.mem, pager.used, cr3, q)
      && (KernelHalf(a) || LastTable(pager.mem, cr3, q) in pager.used)
      && Translate(pager.mem, cr3, q).Some? && Translate(pager.mem, cr3, q).value.0 < |pager.mem|
    }

    /** Copies the page at `a` to the lowest free frame and points the entry SetPageContent finds at it. */
    method CopyOnePage(a: LinearAddress) returns (err: Error, ghost p: Frame)
      requires Copyable(a)
      modifies pager`mem, pager`used
      ensures err == Success ==>
                && p in old(pager.Free()) && pager.used == old(pager.used) + {p} && (forall g | g in pager.Free() :: p < g)
                && CopiedTo(old(pager.mem), pager.mem, cr3, PathOf(a, TOP), p)
      ensures err != Success ==>
                err == NoEnoughMemory && pager.Full() && pager.mem == old(pager.mem) && pager.used == old(pager.used)
    {
      hide Translate, OnTheWay, LastTable, Redirected, Replaced, CanReplace;
      ghost var m0, u0, q := pager.mem, pager.used, PathOf(a, TOP);
      var f;
      f, err := pager.NewPageMap();
      p := f;
      if err != Success {
        return;
      }
      SamePath(a);
      SameTranslation(m0, pager.mem, u0, cr3, q);
      var page := Translate(pager.mem, cr3, PathOf(a, TOP)).value.0;
      pager.mem := pager.mem[f := pager.mem[page]];
      assert pager.mem == Filled(m0, p, page);
      SameWay(m0, pager.mem, u0, cr3, q);
      pager.SetPageContent(cr3, TOP, a, f, u0, USER);
    }

    /** CopyOnePage for a page shared with the image: it becomes private and writable. */
    method CopyShared(a: LinearAddress, ghost sp: Space) returns (err: Error)
      requires Valid() && Shows(sp) && !KernelHalf(a)
      requires Leaf(pager.mem, cr3, PathOf(a, TOP)).Some? && !Leaf(pager.mem, cr3, PathOf(a, TOP)).value.writable
      modifies pager`mem, pager`used
      ensures Valid() && pager.used >= old(pager.used)
      ensures err == Success ==>
                && PathOf(a, TOP) in sp.pages && Shows(Written(sp, PathOf(a, TOP), sp.pages[PathOf(a, TOP)]))
                && Leaf(pager.mem, cr3, PathOf(a, TOP)).Some? && Leaf(pager.mem, cr3, PathOf(a, TOP)).value.writable
      ensures err != Success ==> err == NoEnoughMemory && pager.mem == old(pager.mem) && pager.used == old(pager.used)
    {
      hide AppOk, Linked, KernelKept, TreeOk, Frames, Tables, Owned, Open, Leaf, Replaced, Redirected, OnTheWay, LastTable, Walk;
      ghost var m0, u0, q := pager.mem, pager.used, PathOf(a, TOP);
      SamePath(a);
      AppWithin(m0, u0, cr3, base, baseMem);
      LeafFrame(m0, cr3, q, USER);
      WalkIsLeaf(m0, cr3, q, USER);
      TreeWay(m0, cr3, q, USER);
      MoreOnTheWay(m0, Frames(m0, cr3, TOP, USER), u0, cr3, q);
      LastInTree(m0, cr3, q, USER);
      ghost var p;
      err, p := CopyOnePage(a);
      if err != Success {
        return;
      }
      ghost var m2 := Filled(m0, p, Leaf(m0, cr3, q).value.addr);
      assert m2 == m0[p := m0[Leaf(m0, cr3, q).value.addr]];
      FreshKept(m0, u0, m2, cr3, p, q);
      CopyKeepsApp(m0, u0, m2, pager.mem, cr3, base, baseMem, q, p);
      OnlyLeafFewer(m0, pager.mem, cr3, q);
      FewerLinked(m0, pager.mem, cr3, base, baseMem, image, startMem);
      ReplacedHalf(m0, m2, pager.mem, cr3, q, p);
      SameHalf(m0, pager.mem, cr3, half, base, baseMem, image);
      PageShown(m0, cr3, q, sp.pages);
    }

    /** Reads the page of a mapped file into a fresh page. */
    method PreparePageCache(m: FileMapping, a: LinearAddress) returns (err: Error)
      requires Valid() && USER <= a.Part(TOP)
      requires Leaf(pager.mem, cr3, PathOf(a, TOP)).None?
      modifies pager`mem, pager`used
      ensures Valid() && pager.used >= old(pager.used)
      ensures err == Success ==> OneView(old(pager.mem), pager.mem, cr3, PathOf(a, TOP), FilePage(files, m, a))
      ensures err == Success ==> OnlyLeaf(old(pager.mem), pager.mem, cr3, PathOf(a, TOP))
      ensures err != Success ==> err == NoEnoughMemory
    {
      hide AppOk, Linked, TreeOk, Frames, Tables, Owned, Open, Leaf, Exposed, View, Num;
      ghost var m0, q := pager.mem, PathOf(a, TOP);
      var page := a.(offset := 0);
      SamePath(a);
      NothingExposed(m0, cr3, q);
      ghost var done;
      err, done := SetupPageMaps(page, 1);
      if err != Success {
        return;
      }
      GrownOne(m0, pager.mem, cr3, q);
      AppWithin(pager.mem, pager.used, cr3, base, baseMem);
      LeafFrame(pager.mem, cr3, q, USER);
      WalkIsLeaf(pager.mem, cr3, q, USER);
      ghost var m1 := pager.mem;
      WriteKeepsApp(m1, pager.used, cr3, base, baseMem, q, FilePage(files, m, a));
      var frame := Walk(pager.mem, cr3, PathOf(page, TOP)).value.0;
      pager.mem := pager.mem[frame := FilePage(files, m, a)];
      WriteKeepsLeaf(m1, cr3, q, FilePage(files, m, a));
      SameFewer(m1, pager.mem, cr3, base, baseMem, image, startMem);
      PageNotRoot(m1, cr3, q);
      SameHalf(m1, pager.mem, cr3, half, base, baseMem, image);
    }

    /** The fault of a user-mode write to what is mapped of the kernel's half. */
    predicate Futile(present: bool, rw: bool, user: bool, a: LinearAddress)
    {
      KernelHalf(a) && present && rw && user
    }

    /** The other faults. */
    ghost predicate Served(present: bool, rw: bool, user: bool, a: LinearAddress, sp: Space)
      reads this, pager
    {
      && Valid() && Shows(sp)
      && (present <==> if KernelHalf(a) then KernelMapped(a) else Leaf(pager.mem, cr3, PathOf(a, TOP)).Some?)
      && (present && rw && user ==> !KernelHalf(a) && !Leaf(pager.mem, cr3, PathOf(a, TOP)).value.writable)
      && (KernelHalf(a) && !present ==> !Ranged(sp, a))
    }

    /** Serves a page fault; the processor raises one only for an access the page map does not allow. */
    method HandlePageFault(present: bool, rw: bool, user: bool, a: LinearAddress, ghost sp: Space) returns (err: Error, ghost p: Frame)
      requires if Futile(present, rw, user, a) then Copyable(a) else Served(present, rw, user, a, sp)
      modifies pager`mem, pager`used
      ensures !Futile(present, rw, user, a) ==> Valid() && pager.used >= old(pager.used)
      ensures Futile(present, rw, user, a) && err == Success ==>
                && p in old(pager.Free()) && pager.used == old(pager.used) + {p} && (forall g | g in pager.Free() :: p < g)
                && CopiedTo(old(pager.mem), pager.mem, cr3, PathOf(a, TOP), p)
      ensures Futile(present, rw, user, a) && err != Success ==>
                err == NoEnoughMemory && pager.Full() && pager.mem == old(pager.mem) && pager.used == old(pager.used)
      ensures !Futile(present, rw, user, a) && err == Success ==>
                && !KernelHalf(a) && Touched(sp, files, a).Some?
                && Shows(Written(sp, PathOf(a, TOP), Touched(sp, files, a).value))
                && Leaf(pager.mem, cr3, PathOf(a, TOP)).Some?
                && (rw ==> Leaf(pager.mem, cr3, PathOf(a, TOP)).value.writable)
      ensures err != ArgumentsFull && (err == AlreadyAllocated ==> present && !(rw && user))
      ensures err == IndexOutOfRange ==> Reached(sp, files, a).None?
      ensures err == AlreadyAllocated || err == IndexOutOfRange ==> pager.mem == old(pager.mem) && pager.used == old(pager.used)
      ensures !Futile(present, rw, user, a) && KernelHalf(a) ==> err == if present then AlreadyAllocated else IndexOutOfRange
    {
      hide AppOk, Linked, KernelKept, TreeOk, Frames, Tables, Owned, Open, Leaf, Exposed, Num, OnTheWay, Translate, LastTable, CopiedTo;
      ghost var m0, q := pager.mem, PathOf(a, TOP);
      SamePath(a);
      p := 0;
      if present {
        if rw && user {
          if KernelHalf(a) { err, p := CopyOnePage(a); } else { err := CopyShared(a, sp); }
          return;
        }
        return AlreadyAllocated, 0;
      }
      if dpBegin <= a.Value() < dpEnd {
        NothingExposed(m0, cr3, q);
        ghost var done;
        err, done := SetupPageMaps(a, 1);
        if err == Success { GrownOne(m0, pager.mem, cr3, q); }
        return;
      }
      var m := FindFileMapping(a.Value());
      if m.Some? {
        err := PreparePageCache(m.value, a);
        return;
      }
      return IndexOutOfRange, 0;
    }

    /** What the processor's walk finds at any address. */
    lemma {:induction false} Translated(a: LinearAddress)
      requires Valid()
      ensures var t := Translate(pager.mem, cr3, PathOf(a, TOP));
              if KernelHalf(a) then t == if KernelMapped(a) then Some((BigPage(a) + a.page, true, false)) else None
              else match Leaf(pager.mem, cr3, PathOf(a, TOP))
                   case None => t == None
                   case Some(e) => t == Some((e.addr, e.writable, true)) && e.addr < |pager.mem|
      ensures PathOf(a, TOP)[0] == a.Part(TOP)
    {
      hide AppOk, Linked, KernelKept, TreeOk, Frames, Tables, Owned, Open, Leaf, Walk, HugeWalk, IsKernelMap;
      var q := PathOf(a, TOP);
      SamePath(a);
      AppWithin(pager.mem, pager.used, cr3, base, baseMem);
      if KernelHalf(a) {
        KernelThere(pager.mem, pager.used, cr3, half, base, baseMem, image);
        KernelWalk(pager.mem, cr3, half, a);
      } else {
        WalkIsLeaf(pager.mem, cr3, q, USER);
        if Leaf(pager.mem, cr3, q).Some? { LeafFrame(pager.mem, cr3, q, USER); }
      }
    }

    /** A store into a page that is present. */
    method StoreWord(a: LinearAddress, v: Entry, ghost sp: Space)
      requires Valid() && Shows(sp) && !KernelHalf(a)
      requires Leaf(pager.mem, cr3, PathOf(a, TOP)).Some? && PathOf(a, TOP) in sp.pages
      modifies this`baseMem, pager`mem
      ensures Valid()
      ensures PathOf(a, TOP) !in sp.shared ==> baseMem == old(baseMem)
      ensures SameOn(old(baseMem), baseMem, base) <==> (PathOf(a, TOP) in sp.shared ==> sp.pages[PathOf(a, TOP)][WordIndex(a)] == v)
      ensures Shows(Overwritten(sp, PathOf(a, TOP), sp.pages[PathOf(a, TOP)][WordIndex(a) := v]))
    {
      hide AppOk, Linked, KernelKept, TreeOk, Frames, Tables, Owned, Open, Leaf, Walk;
      ghost var q, m, bm := PathOf(a, TOP), pager.mem, baseMem;
      SamePath(a);
      AppWithin(m, pager.used, cr3, base, baseMem);
      WalkIsLeaf(m, cr3, q, USER);
      LeafFrame(m, cr3, q, USER);
      var frame := Walk(pager.mem, cr3, PathOf(a, TOP)).value.0;
      ghost var page := m[frame][WordIndex(a) := v];
      if Leaf(m, cr3, q).value.writable {
        WriteKeepsApp(m, pager.used, cr3, base, baseMem, q, page);
      } else {
        StoreShared(m, pager.used, cr3, base, baseMem, image, startMem, q, page);
        AppBase(m, pager.used, cr3, base, baseMem, frame);
        SameIff(baseMem, base, frame, WordIndex(a), v);
        baseMem := baseMem[frame := page];
      }
      pager.mem := pager.mem[frame := pager.mem[frame][WordIndex(a) := v]];
      PageNotRoot(m, cr3, q);
      if Leaf(m, cr3, q).value.writable {
        SameFewer(m, pager.mem, cr3, base, baseMem, image, startMem);
        SameHalf(m, pager.mem, cr3, half, base, baseMem, image);
      } else {
        SharedStoreKeepsKernel(m, pager.mem, cr3, half, base, bm, image, startMem, q, page);
      }
    }

    /** The processor's user-mode write: one fault is enough to make the page writable. */
    method UserWrite(a: LinearAddress, v: Entry, ghost sp: Space) returns (err: Error)
      requires Valid() && Shows(sp) && !Strays(sp, Write(a, v))
      modifies this`baseMem, pager`mem, pager`used
      ensures Valid() && pager.used >= old(pager.used)
      ensures err == Success ==> Reached(sp, files, a).Some? && Shows(Step(sp, files, Write(a, v)).0)
      ensures err != Success && err != NoEnoughMemory ==> Reached(sp, files, a).None? && Shows(sp)
      ensures baseMem == old(baseMem)
    {
      hide AppOk, Linked, KernelKept, TreeOk, Frames, Tables, Owned, Open, Leaf, Translate, View, Overwritten, ShowsPages, ShowsShared;
      if !Canonical(a) {
        return IndexOutOfRange;
      }
      ghost var q := PathOf(a, TOP);
      Translated(a);
      ghost var sp1 := sp;
      var t := Translate(pager.mem, cr3, PathOf(a, TOP));
      if t.None? || !t.value.1 || !t.value.2 {
        ghost var p;
        err, p := HandlePageFault(t.Some?, true, true, a, sp);
        if err != Success {
          return;
        }
        sp1 := Written(sp, q, Touched(sp, files, a).value);
      }
      Translated(a);
      PageShown(pager.mem, cr3, q, sp1.pages);
      PrivateShown(pager.mem, cr3, q, sp1.shared);
      err := Success;
      StoreWord(a, v, sp1);
      WrittenAlike(sp, sp1, q, Reached(sp, files, a).value[WordIndex(a) := v]);
    }

    method UserRead(a: LinearAddress, ghost sp: Space) returns (err: Error, v: Entry)
      requires Valid() && Shows(sp) && !Strays(sp, Read(a))
      modifies pager`mem, pager`used
      ensures Valid() && pager.used >= old(pager.used)
      ensures err == Success ==>
                Reached(sp, files, a).Some? && Shows(Step(sp, files, Read(a)).0) && Step(sp, files, Read(a)).1 == Value(v)
      ensures err != Success && err != NoEnoughMemory ==> Reached(sp, files, a).None? && Shows(sp)
    {
      hide AppOk, Linked, KernelKept, TreeOk, Frames, Tables, Owned, Open, Leaf, Translate;
      ghost var q := PathOf(a, TOP);
      v := ZERO_ENTRY;
      if !Canonical(a) {
        return IndexOutOfRange, v;
      }
      Translated(a);
      var t := Translate(pager.mem, cr3, PathOf(a, TOP));
      if t.None? || !t.value.2 {
        ghost var p;
        err, p := HandlePageFault(t.Some?, false, true, a, sp);
        if err != Success {
          return;
        }
        Translated(a);
        t := Translate(pager.mem, cr3, PathOf(a, TOP));
      }
      v := pager.mem[t.value.0][WordIndex(a)];
      err := Success;
    }

    /** The kernel stores a word through a pointer of the application.  A page that is present is written as it is,
        read-only or not; an absent one faults in first. */
    method KernelStore(a: LinearAddress, v: Entry, ghost sp: Space) returns (err: Error)
      requires Valid() && Shows(sp) && (Canonical(a) && KernelHalf(a) ==> !KernelMapped(a) && !Ranged(sp, a))
      modifies this`baseMem, pager`mem, pager`used
      ensures Valid() && pager.used >= old(pager.used)
      ensures err == Success ==>
                && Stored(sp, files, a, v).Some? && Shows(Stored(sp, files, a, v).value)
                && (SameOn(old(baseMem), baseMem, base) <==> !ChangesShared(sp, files, a, v))
      ensures err != Success && err != NoEnoughMemory ==> Reached(sp, files, a).None? && Shows(sp)
      ensures err != Success ==> baseMem == old(baseMem)
    {
      hide AppOk, Linked, KernelKept, TreeOk, Frames, Tables, Owned, Open, Leaf, Translate, View, Overwritten, ShowsPages;
      if !Canonical(a) {
        return IndexOutOfRange;
      }
      ghost var q := PathOf(a, TOP);
      Translated(a);
      ghost var sp1 := sp;
      var t := Translate(pager.mem, cr3, PathOf(a, TOP));
      if t.None? {
        assert !KernelHalf(a) ==> q !in sp.shared;
        ghost var p;
        err, p := HandlePageFault(false, true, false, a, sp);
        if err != Success {
          return;
        }
        sp1 := Written(sp, q, Touched(sp, files, a).value);
      }
      Translated(a);
      PageShown(pager.mem, cr3, q, sp1.pages);
      err := Success;
      StoreWord(a, v, sp1);
      OverwrittenAlike(sp, sp1, q, Reached(sp, files, a).value[WordIndex(a) := v]);
    }

    /** Whether a step leaves what the flat memory speaks of. */
    method Straying(op: Op, ghost sp: Space) returns (b: bool)
      requires Shows(sp)
      ensures b == Strays(sp, op)
    {
      if op.DemandPages? || (op.MapFile? && op.size.None?) || !Canonical(op.a) || !KernelHalf(op.a) {
        return false;
      }
      if KernelMapped(op.a) {
        return !op.Read?;
      }
      var m := FindFileMapping(op.a.Value());
      return dpBegin <= op.a.Value() < dpEnd || m.Some?;
    }

    /** One step of the application: a memory access, or one of the two system calls that shape its
        address space. */
    method Perform(op: Op, ghost sp: Space) returns (out: Outcome, err: Error)
      requires Valid() && Shows(sp)
      modifies this`dpEnd, this`fileMapEnd, this`fileMaps, this`baseMem, pager`mem, pager`used
      ensures Valid() && pager.used >= old(pager.used)
      ensures err != Success ==> err == NoEnoughMemory && Stops(out) && out != Stray && !Strays(sp, op)
      ensures err == Success ==> Step(sp, files, op).1 == out && Shows(Step(sp, files, op).0)
      ensures err == Success ==> (SameOn(old(baseMem), baseMem, base) <==> Careful(sp, files, op))
      ensures err != Success ==> baseMem == old(baseMem)
    {
      hide AppOk, Linked, KernelKept, ShowsPages, ShowsShared, Touched, Ranged, Overwritten, Written, View, Leaf;
      err := Success;
      var stray := Straying(op, sp);
      if stray {
        return Stray, Success;
      }
      match op
      case Write(a, v) =>
        err := UserWrite(a, v, sp);
        out := if err == Success then Value(v) else Killed;
        if err != NoEnoughMemory { err := Success; }
      case Read(a) =>
        var v;
        err, v := UserRead(a, sp);
        out := if err == Success then Value(v) else Killed;
        if err != NoEnoughMemory { err := Success; }
      case DemandPages(n) =>
        out := Address(dpEnd);
        dpEnd := (dpEnd + 4096 * n) % TWO64;
      case MapFile(fd, size, a) =>
        if size.None? {
          return BadFile, Success;
        }
        err := KernelStore(a, WordOf(size.value), sp);
        if err != Success {
          out := Halted;
          if err != NoEnoughMemory { err := Success; }
          return;
        }
        var end := fileMapEnd;
        var begin := MapBegin(end, size.value);
        fileMapEnd := begin;
        fileMaps := fileMaps + [FileMapping(fd, begin, end)];
        out := Address(begin);
    }

    /** The application runs until it ends, is killed, the machine stops, or there is no memory left. */
    method CallApp(ops: seq<Op>, ghost start: Space) returns (outs: seq<Outcome>, err: Error, ghost last: Space)
      requires Valid() && Shows(start)
      modifies this`dpEnd, this`fileMapEnd, this`fileMaps, this`baseMem, pager`mem, pager`used
      ensures Valid() && pager.used >= old(pager.used) && |outs| <= |ops|
      ensures err == Success ==> outs == Run(start, files, ops) && last == After(start, files, ops) && Shows(last)
      ensures outs != [] && outs[|outs| - 1] == Stray ==> err == Success && Strays(last, ops[|outs| - 1])
      ensures err != Success ==> err == NoEnoughMemory && outs != [] && Stops(outs[|outs| - 1]) && !Strays(last, ops[|outs| - 1])
      ensures err != Success ==>
                && outs[..|outs| - 1] <= Run(start, files, ops)
                && last == After(start, files, ops[..|outs| - 1]) && ShowsPages(baseMem, image, last.image)
    {
      hide AppOk, Linked, KernelKept, ShowsPages, ShowsShared, Step, Run, After, Strays;
      outs, err := [], Success;
      var k := 0;
      last := start;
      NoStep(start, files, ops);
      while k < |ops|
        invariant k == |outs| <= |ops| && Valid() && Shows(last) && err == Success && pager.used >= old(pager.used)
        invariant outs == Run(start, files, ops[..k]) && last == After(start, files, ops[..k])
        invariant forall i | 0 <= i < k :: !Stops(outs[i])
      {
        OneMore(start, files, ops, k);
        StepStray(last, files, ops[k]);
        var out;
        out, err := Perform(ops[k], last);
        if err != Success {
          outs := outs + [out];
          return;
        }
        last := Step(last, files, ops[k]).0;
        outs := outs + [out];
        k := k + 1;
        if Stops(out) {
          return;
        }
      }
      assert ops[..k] == ops;
    }

    /** A fresh top-level table with the kernel's half of the current one. */
    method SetupPML4() returns (err: Error)
      requires pager.rangeEnd <= |pager.mem| && cr3 < |pager.mem| && cr3 in pager.used
      modifies this`cr3, pager`mem, pager`used
      ensures err != Success ==>
                err == NoEnoughMemory && pager.Full() && cr3 == old(cr3) && pager.mem == old(pager.mem) && pager.used == old(pager.used)
      ensures err == Success ==>
                && cr3 !in old(pager.used) && cr3 < |old(pager.mem)| && pager.rangeBegin <= cr3 < pager.rangeEnd
                && pager.used == old(pager.used) + {cr3}
                && |pager.mem| == |old(pager.mem)| && pager.mem == old(pager.mem)[cr3 := pager.mem[cr3]]
                && EmptyFrom(pager.mem, cr3, USER)
                && (forall j: Index | j < USER :: pager.mem[cr3][j] == old(pager.mem)[old(cr3)][j])
    {
      var pml4;
      pml4, err := pager.NewPageMap();
      if err != Success {
        return;
      }
      pager.mem := pager.mem[pml4 := pager.mem[cr3][..USER] + pager.mem[pml4][USER..]];
      cr3 := pml4;
    }

    /** Back to the kernel's own page map; the application's top-level table is given back. */
    method FreePML4(kernelMap: Frame)
      modifies this`cr3, pager`used, pager`freed
      ensures cr3 == kernelMap
      ensures pager.used == old(pager.used) - {old(cr3)} && pager.freed == old(pager.freed) + multiset{old(cr3)}
    {
      var pml4 := cr3;
      cr3 := kernelMap;
      pager.FreeFrame(pml4);
    }

    /** The kernel's page map is in use, and `image` is a cached image apart from its tables. */
    ghost predicate Ready(image: Frame)
      reads this, pager
    {
      && pager.rangeEnd <= |pager.mem| && cr3 < |pager.mem| && cr3 in pager.used && ImageOk(pager.mem, pager.used, image)
      && KernelKept(pager.mem, cr3, pager.mem[cr3][..USER], pager.used, pager.mem, image)
    }

    /** Starts an application whose image is in the cache: its tree is a read-only copy of the image. */
    method LoadApp(image: Frame) returns (err: Error)
      requires Ready(image)
      modifies this`cr3, this`base, this`baseMem, this`image, this`startMem, this`half, pager`mem, pager`used
      ensures base == old(pager.used) && baseMem == startMem == old(pager.mem) && this.image == image
      ensures half == old(pager.mem[cr3][..USER])
      ensures err == Success ==>
                && Valid() && LooksLike(old(pager.mem), pager.mem, image, cr3)
                && pager.rangeBegin <= cr3 < pager.rangeEnd && cr3 !in base
      ensures err != Success ==> err == NoEnoughMemory && base <= pager.used && SameOn(baseMem, pager.mem, base)
      ensures err != Success ==>
                (pager.used == base <==> forall g: Frame | pager.rangeBegin <= g < pager.rangeEnd :: g in base)
    {
      hide AppOk, Linked, TreeOk, Frames, Tables, Owned, Open, Leaf, Within, View;
      base, baseMem, this.image, startMem, half := pager.used, pager.mem, image, pager.mem, pager.mem[cr3][..USER];
      err := SetupPML4();
      if err != Success {
        return;
      }
      ghost var m1, u1 := pager.mem, pager.used;
      ImageKept(baseMem, base, m1, u1, image, cr3);
      ghost var n;
      err, n := pager.CopyPageMaps(cr3, image, TOP, USER);
      if err != Success {
        return;
      }
      CopyStartsApp(m1, u1, pager.mem, pager.used, cr3, image, base, baseMem);
      StartLinked(baseMem, pager.mem, cr3, base, image);
      CopiedHalf(m1, u1, pager.mem, pager.used, cr3, image);
      assert pager.mem[cr3][..USER] == half;
    }

    /** SetupPageMaps for the page of the arguments of an application that was just loaded. */
    method SetupArgs() returns (err: Error)
      requires Valid() && LeavesRoom(pager.mem, cr3)
      modifies pager`mem, pager`used
      ensures Valid() && pager.used >= old(pager.used)
      ensures err != Success ==> err == NoEnoughMemory
      ensures err == Success ==> Grown(old(pager.mem), pager.mem, cr3, 0xf_ffff_ffff, 1)
    {
      hide AppOk, Linked, TreeOk, Frames, Tables, Owned, Open, Leaf, Exposed, View, Num, LeavesRoom, Grown;
      StartNumbers();
      RoomForArgs(pager.mem, cr3);
      ghost var done;
      err, done := SetupPageMaps(ArgsAddress(), 1);
    }

    /** SetupPageMaps for the stack. */
    method SetupStack() returns (err: Error)
      requires Valid() && forall g: Frame :: !Exposed(pager.mem, cr3, TOP, USER, 0xf_ffff_ffef, STACK_PAGES, g)
      modifies pager`mem, pager`used
      ensures Valid() && pager.used >= old(pager.used)
      ensures err != Success ==> err == NoEnoughMemory
      ensures err == Success ==> Grown(old(pager.mem), pager.mem, cr3, 0xf_ffff_ffef, STACK_PAGES)
    {
      hide AppOk, Linked, TreeOk, Frames, Tables, Owned, Open, Leaf, Exposed, View, Num, LeavesRoom, Grown;
      StartNumbers();
      ghost var done;
      err, done := SetupPageMaps(StackAddress(), STACK_PAGES);
    }

    /** MakeArgVector fills the page of the arguments, or finds that they do not fit. */
    method MakeArgVector(argPage: Table, fits: bool) returns (err: Error)
      requires Valid() && Leaf(pager.mem, cr3, PathOf(ArgsAddress(), TOP)).Some?
      requires Leaf(pager.mem, cr3, PathOf(ArgsAddress(), TOP)).value.writable
      modifies pager`mem
      ensures Valid()
      ensures err == if fits then Success else ArgumentsFull
      ensures err == Success ==>
                OneView(old(pager.mem), pager.mem, cr3, PathOf(ArgsAddress(), TOP), argPage) && SameLeaves(old(pager.mem), pager.mem, cr3)
    {
      hide AppOk, Linked, TreeOk, Frames, Tables, Owned, Open, Leaf, Walk, View, PathOf;
      if !fits {
        return ArgumentsFull;
      }
      ghost var q := PathOf(ArgsAddress(), TOP);
      SamePath(ArgsAddress());
      AppWithin(pager.mem, pager.used, cr3, base, baseMem);
      WalkIsLeaf(pager.mem, cr3, q, USER);
      WriteKeepsApp(pager.mem, pager.used, cr3, base, baseMem, q, argPage);
      ghost var m := pager.mem;
      pager.mem := pager.mem[Walk(pager.mem, cr3, PathOf(ArgsAddress(), TOP)).value.0 := argPage];
      SameFewer(m, pager.mem, cr3, base, baseMem, image, startMem);
      PageNotRoot(m, cr3, q);
      SameHalf(m, pager.mem, cr3, half, base, baseMem, image);
      err := Success;
    }

    /** CleanPageMaps and FreePML4: everything the application held is given back, each frame once. */
    method Finish(kernelMap: Frame)
      requires Loaded()
      modifies this`cr3, this`fileMaps, pager`mem, pager`used, pager`freed
      ensures cr3 == kernelMap && pager.used == base && SameOn(baseMem, pager.mem, base)
      ensures pager.freed == old(pager.freed) + multiset(old(pager.used) - base)
    {
      hide AppOk, Linked, TreeOk, Frames, Tables, Owned, Open, Leaf, Cleaned;
      ghost var m0, u0 := pager.mem, pager.used;
      fileMaps := [];
      AppWithin(m0, u0, cr3, base, baseMem);
      SweepIsOwned(m0, u0, cr3, base, baseMem);
      pager.CleanPageMap(cr3, TOP, CleanAddress());
      forall g: Frame | g in base && g < |baseMem|
        ensures pager.mem[g] == baseMem[g]
      {
        AppBase(m0, u0, cr3, base, baseMem, g);
      }
      FreePML4(kernelMap);
    }

    /** So far the copies were in vain: `m0` and `u0` are memory and frames in use before the first, `base0` the frames of
        the rest of the system then. */
    ghost predicate Vain(m0: Memory, u0: set<Frame>, base0: set<Frame>, a: LinearAddress)
      reads this, pager
    {
      var m, taken := pager.mem, pager.used - u0;
      && Loaded() && baseMem == m && |m| == |m0| && u0 <= pager.used && base == base0 + taken
      && HasHalf(m, cr3, half) && IsKernelMap(m, half) && KernelTables(m, half) <= base0 && cr3 in u0 && base0 <= u0
      && KernelMapped(a) && BigPage(a) !in Tables(m, cr3, TOP, USER) + KernelTables(m, half)
      && Overrun(m0, m, u0, taken, a)
      && (forall g | g in taken :: pager.rangeBegin <= g < pager.rangeEnd)
      && (forall g, h | g in taken && h in pager.Free() :: g < h)
    }

    /** One more of them. */
    method CopyInVain(a: LinearAddress, ghost sp: Space, ghost m0: Memory, ghost u0: set<Frame>, ghost base0: set<Frame>) returns (err: Error)
      requires Vain(m0, u0, base0, a)
      modifies this`base, this`baseMem, pager`mem, pager`used
      ensures Vain(m0, u0, base0, a)
      ensures if err == Success then pager.Free() < old(pager.Free()) else pager.Full()
    {
      hide AppOk, Linked, TreeOk, Frames, Tables, Owned, Open, Leaf, Translate, HugeWalk, OnTheWay, LastTable,
           IsKernelMap, KernelTables, KernelKept, Replaced, CanReplace, Redirected, Overrun;
      ghost var m, u, taken, free := pager.mem, pager.used, pager.used - u0, pager.Free();
      KernelWalk(m, cr3, half, a);
      KernelWay(m, cr3, half, a);
      MoreOnTheWay(m, {cr3} + KernelTables(m, half), u, cr3, PathOf(a, TOP));
      HalfTranslation(m, cr3, a);
      ghost var p;
      err, p := HandlePageFault(true, true, true, a, sp);
      if err != Success {
        return;
      }
      ghost var m1 := Filled(m, p, BigPage(a) + a.page);
      FutileRedirect(m, m1, pager.mem, u, cr3, half, a, p);
      FutileCopy(m, u, cr3, half, base, BigPage(a), p, pager.mem);
      OverrunStep(m0, m, pager.mem, u0, taken, a, p);
      assert pager.used - u0 == taken + {p};
      assert p in free && pager.Free() == free - {p};
      base, baseMem := base + {p}, pager.mem;
    }

    /** A user-mode write to what is mapped of the kernel's half: the handler reports success, the processor tries again,
        and so on until no frame is left. */
    method WriteKernelHalf(a: LinearAddress, ghost sp: Space)
      requires Valid() && KernelMapped(a)
      requires BigPage(a) !in Tables(pager.mem, cr3, TOP, USER) + KernelTables(pager.mem, half)
      modifies this`base, this`baseMem, pager`mem, pager`used
      ensures Loaded() && baseMem == pager.mem
      ensures pager.used == old(pager.used + pager.Free()) && base == old(base + pager.Free())
      ensures Overrun(old(pager.mem), pager.mem, old(pager.used), old(pager.Free()), a)
    {
      hide AppOk, Linked, Tables, IsKernelMap, KernelTables, KernelKept;
      ghost var m0, u0, base0 := pager.mem, pager.used, base;
      KernelThere(m0, u0, cr3, half, base, baseMem, image);
      AppRoot(m0, u0, cr3, base, baseMem);
      Relabelled(m0, u0, cr3, base, baseMem);
      baseMem := pager.mem;
      var err := Success;
      while err == Success
        invariant Vain(m0, u0, base0, a) && (err != Success ==> pager.Full())
        decreases |pager.Free()| + if err == Success then 1 else 0
      {
        ghost var free := pager.Free();
        err := CopyInVain(a, sp, m0, u0, base0);
        if err == Success { FewerLeft(pager.Free(), free); }
      }
      assert pager.used - u0 == old(pager.Free());
    }

    /** A system call stores through a pointer into what is mapped of the kernel's half: whatever lies there changes. */
    method StoreKernelHalf(a: LinearAddress, v: Entry)
      requires Valid() && KernelMapped(a)
      modifies pager`mem
      ensures var g := BigPage(a) + a.page;
              && g < |old(pager.mem)| && pager.mem == old(pager.mem)[g := old(pager.mem)[g][WordIndex(a) := v]]
              && (SameOn(old(pager.mem), pager.mem, base) <==> (g in base ==> old(pager.mem)[g][WordIndex(a)] == v))
    {
      hide AppOk, Linked, KernelKept, Translate, IsKernelMap, HugeWalk;
      Translated(a);
      KernelThere(pager.mem, pager.used, cr3, half, base, baseMem, image);
      KernelWalk(pager.mem, cr3, half, a);
      var g := Translate(pager.mem, cr3, PathOf(a, TOP)).value.0;
      if g in base { SameIff(pager.mem, base, g, WordIndex(a), v); }
      pager.mem := pager.mem[g := pager.mem[g][WordIndex(a) := v]];
    }

    /** The first half of ExecuteFile: loads an application whose image is in the cache and gives it its
        arguments and its stack. */
    method StartApp(image: Frame, vaddrEnd: nat, argPage: Table, argsFit: bool) returns (err: Error)
      requires Ready(image) && LeavesRoom(pager.mem, image)
      modifies this, pager`mem, pager`used
      ensures base == old(pager.used) && baseMem == startMem == old(pager.mem) && this.image == image && half == old(pager.mem[cr3][..USER])
      ensures pager.freed == old(pager.freed)
      ensures err == Success ==> Valid() && Shows(StartSpace(old(pager.mem), image, argPage, vaddrEnd))
      ensures err != Success ==>
                && base <= pager.used && SameOn(baseMem, pager.mem, base)
                && (pager.used == base <==> forall g: Frame | pager.rangeBegin <= g < pager.rangeEnd :: g in base)
    {
      hide AppOk, Linked, KernelKept, TreeOk, Frames, Tables, Owned, Open, Leaf, View, StartSpace, ImageOk, Grown, OneView,
           SameLeaves, Exposed, LooksLike, LeavesRoom, Num, PathOf, ShowsPages, ShowsShared, ElfNextPage;
      ghost var m0 := pager.mem;
      err := LoadApp(image);
      if err != Success {
        return;
      }
      ghost var m1 := pager.mem;
      RoomKept(m0, m1, image, cr3);
      err := SetupArgs();
      AppRoot(pager.mem, pager.used, cr3, base, baseMem);
      if err != Success {
        return;
      }
      ghost var m2 := pager.mem;
      ArgsMapped(m1, m2, cr3);
      err := MakeArgVector(argPage, argsFit);
      AppRoot(pager.mem, pager.used, cr3, base, baseMem);
      if err != Success {
        return;
      }
      ghost var m3 := pager.mem;
      RoomForStack(m1, m2, m3, cr3);
      err := SetupStack();
      AppRoot(pager.mem, pager.used, cr3, base, baseMem);
      if err != Success {
        return;
      }
      dpBegin := ElfNextPage(vaddrEnd);
      dpEnd := ElfNextPage(vaddrEnd);
      fileMapEnd := STACK_VALUE;
      fileMaps := [];
      ShowsStart(m0, m1, m2, m3, pager.mem, image, cr3, argPage, vaddrEnd);
      SharesStart(m0, base, m1, m2, m3, pager.mem, image, cr3, argPage, vaddrEnd);
      StartFields(m0, image, argPage, vaddrEnd);
    }

    /** After such a write the application is killed for want of memory, and what it held is given back. */
    method WriteAndFinish(a: LinearAddress, kernelMap: Frame, ghost sp: Space)
      requires Valid() && KernelMapped(a)
      requires BigPage(a) !in Tables(pager.mem, cr3, TOP, USER) + KernelTables(pager.mem, half)
      modifies this, pager
      ensures cr3 == kernelMap && pager.freed == old(pager.freed) + multiset(old(pager.used) - old(base))
      ensures pager.used == old(base + pager.Free()) && (pager.used == old(base) <==> old(pager.Free()) == {})
      ensures Overrun(old(pager.mem), pager.mem, old(base), old(pager.Free()), a)
    {
      hide AppOk, Linked, KernelKept, Tables, KernelTables, Overrun, KernelMapped, BigPage;
      ghost var m, u, base0, free := pager.mem, pager.used, base, pager.Free();
      AppRoot(m, u, cr3, base, baseMem);
      WriteKernelHalf(a, sp);
      ghost var m1 := pager.mem;
      Finish(kernelMap);
      OverrunOn(m, m1, pager.mem, u, base0, free, a);
      assert u + free - (base0 + free) == u - base0;
    }

    /** What follows the last step of a run; `op` is that step if it strays. */
    method WindUp(op: Option<Op>, kernelMap: Frame, ghost sp: Space) returns (end: End)
      requires Valid() && (op.Some? ==> StraysAway(op.value))
      modifies this, pager
      ensures if op.None? then end.CleanedUp? else end in {Overran, StoredAway, Unfollowed}
      ensures Ending(end, op, old(base), old(pager.Free()), old(pager.used) - old(base), old(pager.mem), pager.mem, pager.used)
      ensures end in {CleanedUp, Overran} ==> cr3 == kernelMap && pager.freed == old(pager.freed) + multiset(old(pager.used) - old(base))
      ensures end.CleanedUp? ==> SameOn(old(baseMem), pager.mem, old(base))
      ensures end.Unfollowed? ==>
                !Trespasses(op.value) || BigPage(op.value.a) in old(pager.used) - old(base) + KernelTables(old(startMem), old(half))
    {
      hide AppOk, Linked, KernelKept, Tables, KernelTables, Overrun, BigPage, KernelMapped;
      ghost var m, u := pager.mem, pager.used;
      AppRoot(m, u, cr3, base, baseMem);
      if op.None? {
        Finish(kernelMap);
        return CleanedUp;
      }
      if op.value.Read? || !KernelMapped(op.value.a) {
        return Unfollowed;
      }
      if op.value.MapFile? {
        StoreKernelHalf(op.value.a, WordOf(op.value.size.value));
        return StoredAway;
      }
      TablesHeld(m, u, cr3, base, baseMem, half, image);
      LinkedImage(m, cr3, base, baseMem, image, startMem);
      SameTables(m, cr3, half, base, baseMem, image, startMem);
      if BigPage(op.value.a) in Tables(pager.mem, cr3, TOP, USER) + KernelTables(pager.mem, pager.mem[cr3][..USER]) {
        return Unfollowed;
      }
      WriteAndFinish(op.value.a, kernelMap, sp);
      end := Overran;
    }

    /** The second half of ExecuteFile, on the memory `start`.  `held` are the frames the application had, and `before` is
        the memory, when its run came to an end. */
    method RunApp(kernelMap: Frame, ops: seq<Op>, ghost start: Space)
      returns (outs: seq<Outcome>, outOfMemory: bool, end: End, ghost held: set<Frame>, ghost before: Memory)
      requires Valid() && Shows(start) && Coherent(start) && ImageOk(startMem, base, image) && ShowsPages(startMem, image, start.image)
      requires forall q | q in start.image :: |q| == TOP && USER <= q[0]
      modifies this, pager
      ensures Told(start, files, ops, outs, outOfMemory, end)
      ensures LeftAt(end, LastStray(ops, outs), old(startMem), old(base), FreeIn(pager.rangeBegin, pager.rangeEnd, old(base) + held),
                     old(image), start, Final(start, files, ops, |outs|, outOfMemory), held, before, pager.mem, pager.used)
      ensures end in {CleanedUp, Overran} ==> cr3 == kernelMap && pager.freed == old(pager.freed) + multiset(held)
      ensures end.Unfollowed? ==>
                !Trespasses(ops[|outs| - 1]) || BigPage(ops[|outs| - 1].a) in held + KernelTables(old(startMem), old(half))
    {
      hide AppOk, Coherent, Linked, KernelKept, Tables, Run, After, ImageOk, OnlyImage, ShowsPages, ShowsShared, KernelTables,
           Strays, Ending, LeftBehind, Trespasses, BigPage, FreeIn, StraysAway;
      ghost var sm, u0, im := startMem, base, image;
      var oom;
      ghost var last;
      outs, oom, last := CallApp(ops, start);
      outOfMemory := oom != Success;
      ghost var r, bm := cr3, baseMem;
      held, before := pager.used - base, pager.mem;
      assert base <= pager.used ==> pager.used == u0 + held;
      AppRoot(before, pager.used, cr3, base, baseMem);
      AfterCoherent(start, files, if outOfMemory then ops[..|outs| - 1] else ops);
      ImageLeft(sm, u0, before, r, bm, before, im, start, last);
      if outs != [] && outs[|outs| - 1].Halted? {
        StoppedThere(LastStray(ops, outs), u0, pager.Free(), held, before);
        end := MachineStopped;
        return;
      }
      var stray := LastStray(ops, outs);
      if stray.Some? { StraysWhere(last, stray.value); }
      end := WindUp(stray, kernelMap, last);
      if end.CleanedUp? { ImageLeft(sm, u0, before, r, bm, pager.mem, im, start, last); }
    }

    /** Runs an application whose image is in the cache, from LoadApp to FreePML4. */
    method ExecuteFile(image: Frame, vaddrEnd: nat, argPage: Table, argsFit: bool, kernelMap: Frame, ops: seq<Op>)
      returns (outs: seq<Outcome>, outOfMemory: bool, end: End, err: Error, ghost held: set<Frame>, ghost before: Memory)
      requires Ready(image) && LeavesRoom(pager.mem, image)
      modifies this, pager
      ensures err == Success ==>
                var start := StartSpace(old(pager.mem), image, argPage, vaddrEnd);
                && Told(start, files, ops, outs, outOfMemory, end)
                && LeftAt(end, LastStray(ops, outs), old(pager.mem), old(pager.used),
                          FreeIn(pager.rangeBegin, pager.rangeEnd, old(pager.used) + held), image, start,
                          Final(start, files, ops, |outs|, outOfMemory), held, before, pager.mem, pager.used)
                && (end in {CleanedUp, Overran} ==> cr3 == kernelMap && pager.freed == old(pager.freed) + multiset(held))
                && (end.Unfollowed? ==>
                      !Trespasses(ops[|outs| - 1])
                      || BigPage(ops[|outs| - 1].a) in held + KernelTables(old(pager.mem), old(pager.mem[cr3][..USER])))
      ensures err != Success ==>
                && old(pager.used) <= pager.used
                && SameOn(old(pager.mem), pager.mem, old(pager.used))
                && (pager.used == old(pager.used) <==>
                    forall g: Frame | pager.rangeBegin <= g < pager.rangeEnd :: g in old(pager.used))
    {
      hide AppOk, Coherent, Linked, TreeOk, Frames, Tables, Owned, Open, Leaf, View, Run, After, StartSpace,
           ImageOk, LeavesRoom, ShowsPages, ShowsShared, KernelTables, Told, LeftAt;
      ghost var m0, u0 := pager.mem, pager.used;
      outs, outOfMemory, end, held, before := [], false, CleanedUp, {}, pager.mem;
      ghost var start := StartSpace(pager.mem, image, argPage, vaddrEnd);
      err := StartApp(image, vaddrEnd, argPage, argsFit);
      if err != Success {
        return;
      }
      StartCoherent(m0, u0, image, argPage, vaddrEnd);
      outs, outOfMemory, end, held, before := RunApp(kernelMap, ops, start);
    }
  }

  /** A null pointer is written through: whatever frames were left are lost for good. */
  method NullWriteExample(app: App, image: Frame, vaddrEnd: nat, argPage: Table, kernelMap: Frame, v: Entry)
    returns (end: End, err: Error, ghost held: set<Frame>)
    requires app.Ready(image) && LeavesRoom(app.pager.mem, image)
    requires 0 in app.pager.used && 0 !in KernelTables(app.pager.mem, app.pager.mem[app.cr3][..USER])
    modifies app, app.pager
    ensures err == Success ==>
              var free := FreeIn(app.pager.rangeBegin, app.pager.rangeEnd, old(app.pager.used) + held);
              end.Overran? && app.pager.used == old(app.pager.used) + free && (app.pager.used == old(app.pager.used) <==> free == {})
  {
    hide Overrun, LeftBehind, StartSpace, KernelTables, Step, IsKernelMap, ImageOk, LeavesRoom;
    ghost var start, m0, half := StartSpace(app.pager.mem, image, argPage, vaddrEnd), app.pager.mem, app.pager.mem[app.cr3][..USER];
    var ops := [Write(FromValue(0), v)];
    var outs, outOfMemory;
    ghost var before;
    outs, outOfMemory, end, err, held, before := app.ExecuteFile(image, vaddrEnd, argPage, true, kernelMap, ops);
    NullWriteStrays(start, app.files, v, 0, 0);
    NoStep(start, app.files, ops);
    assert BigPage(FromValue(0)) == 0;
  }

  ghost predicate ShowsPages(m: Memory, r: Frame, pages: imap<Path, Table>)
  {
    forall q: Path | |q| == TOP && USER <= q[0] ::
      View(m, r, q) == if q in pages then Some(pages[q]) else None
  }

  /** The view after `n` pages from `a` on were mapped writable. */
  ghost predicate Grown(m0: Memory, m1: Memory, r: Frame, a: nat, n: nat)
  {
    forall p: Path | |p| == TOP && USER <= p[0] ::
      && View(m1, r, p) == (if a <= Num(p) < a + n && View(m0, r, p).None? then Some(ZeroTable()) else View(m0, r, p))
      && (if a <= Num(p) < a + n then Leaf(m1, r, p).Some? && Leaf(m1, r, p).value.writable
          else Leaf(m1, r, p) == Leaf(m0, r, p))
  }

  /** Exactly the pages in `shared` are mapped read-only. */
  ghost predicate ShowsShared(m: Memory, r: Frame, shared: iset<Path>)
  {
    forall q: Path | |q| == TOP && USER <= q[0] :: ReadOnly(m, r, q) <==> q in shared
  }

  lemma {:induction false} PageShown(m: Memory, r: Frame, q: Path, pages: imap<Path, Table>)
    requires ShowsPages(m, r, pages) && |q| == TOP && USER <= q[0] && Leaf(m, r, q).Some? && Leaf(m, r, q).value.addr < |m|
    ensures q in pages && pages[q] == m[Leaf(m, r, q).value.addr]
  {
    hide Leaf;
    assert View(m, r, q) == Some(m[Leaf(m, r, q).value.addr]);
  }

  lemma {:induction false} SameIff(m: Memory, s: set<Frame>, g: Frame, i: Index, v: Entry)
    requires g in s && g < |m|
    ensures SameOn(m, m[g := m[g][i := v]], s) <==> m[g][i] == v
  {
    assert m[g := m[g][i := v]][g][i] == v;
    if m[g][i] == v { assert m[g][i := v] == m[g]; }
  }

  /** A page that is private in any case may have been made so first. */
  lemma {:induction false} OverwrittenAlike(sp: Space, sp1: Space, q: Path, t: Table)
    requires sp1 == sp || (q !in sp.shared && q in sp1.pages && sp1 == Written(sp, q, sp1.pages[q]))
    ensures Overwritten(sp1, q, t) == Overwritten(sp, q, t)
  {
    if sp1 != sp {
      assert sp.shared - iset{q} == sp.shared;
      assert sp.pages[q := sp1.pages[q]][q := t] == sp.pages[q := t];
    }
  }

  lemma {:induction false} WrittenAlike(sp: Space, sp1: Space, q: Path, t: Table)
    requires q !in sp1.shared && (sp1 == sp || (q in sp1.pages && sp1 == Written(sp, q, sp1.pages[q])))
    ensures Overwritten(sp1, q, t) == Written(sp, q, t)
  {
    if sp1 == sp {
      assert sp.shared - iset{q} == sp.shared;
    } else {
      assert sp.pages[q := sp1.pages[q]][q := t] == sp.pages[q := t];
    }
  }

  lemma {:induction false} PrivateShown(m: Memory, r: Frame, q: Path, shared: iset<Path>)
    requires ShowsShared(m, r, shared) && |q| == TOP && USER <= q[0]
    ensures ReadOnly(m, r, q) <==> q in shared
  {
    hide Leaf;
  }

  lemma {:induction false} HalfTranslation(m: Memory, r: Frame, a: LinearAddress)
    requires KernelHalf(a)
    ensures Translate(m, r, PathOf(a, TOP)) == HugeWalk(m, r, PathOf(a, TOP))
  {
    hide HugeWalk, Walk;
    SamePath(a);
  }

  /** The rest of the system may be looked at in the memory there is. */
  lemma {:induction false} Relabelled(m: Memory, u: set<Frame>, r: Frame, base: set<Frame>, bm: Memory)
    requires AppOk(m, u, r, base, bm)
    ensures AppOk(m, u, r, base, m)
  {
    hide TreeOk, Frames, Tables, Owned, Open;
  }

  /** Frame `p` has got the content of page `q`, and the entry SetPageContent finds points at it; in a page map that
      moves the page. */
  ghost predicate CopiedTo(m0: Memory, m1: Memory, r: Frame, q: Path, p: Frame)
    requires |q| >= 1
  {
    var t := Translate(m0, r, q);
    && t.Some? && t.value.0 < |m0| && p < |m0|
    && var m2 := Filled(m0, p, t.value.0);
    && Redirected(m2, m1, r, q, p) && (CanReplace(m2, r, q, USER, p) ==> Replaced(m2, m1, r, q, USER, p))
  }

  /** A step that strays, by its kind. */
  predicate StraysAway(op: Op)
  {
    op.Read? || (op.Write? && Canonical(op.a)) || (op.MapFile? && op.size.Some? && Canonical(op.a))
  }

  lemma {:induction false} StraysWhere(sp: Space, op: Op)
    requires Strays(sp, op)
    ensures StraysAway(op)
  {
  }

  ghost predicate StoredAt(m0: Memory, m1: Memory, a: LinearAddress, v: Entry)
  {
    var g := BigPage(a) + a.page;
    g < |m0| && m1 == m0[g := m0[g][WordIndex(a) := v]]
  }

  /** The word at an address of the kernel's half lies in `u` and is another one. */
  ghost predicate ChangesFrame(m: Memory, u: set<Frame>, a: LinearAddress, v: Entry)
  {
    var g := BigPage(a) + a.page;
    g in u && g < |m| && m[g][WordIndex(a)] != v
  }

  /** What a run leaves of the frames in `u`: nothing but pages of the image may have changed, the image shows what the
      flat memory says, and all is as it was iff that is what it showed before. */
  ghost predicate LeftBehind(m0: Memory, u: set<Frame>, image: Frame, start: Space, final: Space, m1: Memory)
  {
    && OnlyImage(m0, m1, u, image) && ShowsPages(m1, image, final.image)
    && (SameOn(m0, m1, u) <==> final.image == start.image)
  }

  /** What a run tells: the outcomes of the flat memory, and how it ended. */
  ghost predicate Told(start: Space, files: Files, ops: seq<Op>, outs: seq<Outcome>, outOfMemory: bool, end: End)
  {
    && |outs| <= |ops|
    && (if outOfMemory then
          outs != [] && outs[..|outs| - 1] <= Run(start, files, ops) && !Strays(After(start, files, ops[..|outs| - 1]), ops[|outs| - 1])
        else outs == Run(start, files, ops))
    && (end.MachineStopped? <==> outs != [] && outs[|outs| - 1].Halted?)
    && (end in {Overran, StoredAway, Unfollowed} <==> outs != [] && outs[|outs| - 1].Stray?)
  }

  /** What an end does to the frames `u0` of the rest of the system, with the application holding `held`, `free` free
      and memory `before`: memory `m1` with `u1` in use.  `op` is the last step if it strays. */
  ghost predicate Ending(end: End, op: Option<Op>, u0: set<Frame>, free: set<Frame>, held: set<Frame>, before: Memory, m1: Memory, u1: set<Frame>)
  {
    match end
    case CleanedUp => u1 == u0 && SameOn(before, m1, u0)
    case Overran =>
      && op.Some? && op.value.Write? && KernelMapped(op.value.a) && u1 == u0 + free && (u1 == u0 <==> free == {})
      && Overrun(before, m1, u0, free, op.value.a)
    case StoredAway =>
      && op.Some? && op.value.MapFile? && op.value.size.Some? && KernelMapped(op.value.a) && u1 == u0 + held
      && StoredAt(before, m1, op.value.a, WordOf(op.value.size.value))
      && (SameOn(before, m1, u0) <==> !ChangesFrame(before, u0, op.value.a, WordOf(op.value.size.value)))
    case _ => m1 == before && u1 == u0 + held
  }

  /** What a run leaves of memory `m0` with frames `u0` in use. */
  ghost predicate LeftAt(end: End, op: Option<Op>, m0: Memory, u0: set<Frame>, free: set<Frame>, image: Frame, start: Space, final: Space,
                         held: set<Frame>, before: Memory, m1: Memory, u1: set<Frame>)
  {
    && held !! u0 && LeftBehind(m0, u0, image, start, final, before)
    && Ending(end, op, u0, free, held, before, m1, u1)
    && (end.CleanedUp? ==> LeftBehind(m0, u0, image, start, final, m1))
  }

  /** Frames and memory of the rest of the system are conserved iff the image is as it was and, if the application wrote to
      the kernel's half, no frame was free. */
  lemma {:induction false} ConservedIff(end: End, op: Option<Op>, m0: Memory, u0: set<Frame>, free: set<Frame>, image: Frame, start: Space,
                                        final: Space, held: set<Frame>, before: Memory, m1: Memory, u1: set<Frame>)
    requires end in {CleanedUp, Overran} && LeftAt(end, op, m0, u0, free, image, start, final, held, before, m1, u1)
    ensures u1 == u0 && SameOn(m0, m1, u0) <==> final.image == start.image && (end.Overran? ==> free == {})
  {
    hide ShowsPages, BigPage;
    if end.Overran? && free == {} {
      assert SameOn(before, m1, u0);
      assert SameOn(m0, m1, u0) <==> SameOn(m0, before, u0);
    }
  }

  /** With at most 2^31 steps, files below 4 GiB and an image in the upper half, as LoadELF demands, a run strays iff it
      writes to what is mapped of the kernel's half. */
  lemma {:induction false} StartStraysIff(m: Memory, image: Frame, argPage: Table, vaddrEnd: nat, files: Files, ops: seq<Op>, op: Op)
    requires CLEAN_VALUE <= vaddrEnd && vaddrEnd + 4095 < TWO64 && |ops| <= 0x8000_0000 && FilesFit(ops)
    ensures Strays(After(StartSpace(m, image, argPage, vaddrEnd), files, ops), op) <==> Trespasses(op)
  {
    hide StartPage, View, Strays, Trespasses, Num, FilesFit;
    StartFields(m, image, argPage, vaddrEnd);
    assert Above(StartSpace(m, image, argPage, vaddrEnd), HALF + |ops| * TWO32);
    StraysIff(StartSpace(m, image, argPage, vaddrEnd), files, ops, HALF, op);
  }

  lemma {:induction false} StoppedThere(op: Option<Op>, u0: set<Frame>, free: set<Frame>, held: set<Frame>, m: Memory)
    ensures Ending(MachineStopped, op, u0, free, held, m, m, u0 + held)
  {
  }

  /** The last step of a run, if it strays. */
  function LastStray(ops: seq<Op>, outs: seq<Outcome>): Option<Op>
  {
    if 0 < |outs| <= |ops| && outs[|outs| - 1].Stray? then Some(ops[|outs| - 1]) else None
  }

  /** The tables of the page map in use are the application's or the kernel's. */
  lemma {:induction false} TablesHeld(m: Memory, u: set<Frame>, r: Frame, base: set<Frame>, bm: Memory, half: seq<Entry>, image: Frame)
    requires AppOk(m, u, r, base, bm) && KernelKept(m, r, half, base, bm, image)
    ensures Tables(m, r, TOP, USER) <= u - base
    ensures r < |m| && m[r][..USER] == half && |half| == USER && KernelTables(m, half) == KernelTables(bm, half)
  {
    hide TreeOk, Frames, Tables, Owned, Open, IsKernelMap, KernelTables;
    KernelThere(m, u, r, half, base, bm, image);
    forall g | g in Tables(m, r, TOP, USER)
      ensures g in u - base
    {
      if g != r { TablesOwned(m, r, TOP, USER, g); }
    }
  }

  lemma {:induction false} LinkedImage(m: Memory, r: Frame, base: set<Frame>, bm: Memory, image: Frame, sm: Memory)
    requires Linked(m, r, base, bm, image, sm)
    ensures OnlyImage(sm, bm, base, image) && ImageOk(bm, base, image)
  {
  }

  lemma {:induction false} OverrunOn(m: Memory, m1: Memory, m2: Memory, u: set<Frame>, base: set<Frame>, free: set<Frame>, a: LinearAddress)
    requires Overrun(m, m1, u, free, a) && base <= u && SameOn(m1, m2, base + free)
    ensures Overrun(m, m2, base, free, a)
  {
  }

  lemma {:induction false} FewerLeft(s: set<Frame>, t: set<Frame>)
    requires s < t
    ensures |s| < |t|
  {
    var r := t - s;
    assert t == s + r && r != {};
  }

  lemma {:induction false} SetupHalf(m0: Memory, u0: set<Frame>, m1: Memory, u1: set<Frame>, r: Frame, a: nat, n: nat)
    requires Setup(m0, u0, m1, u1, r, TOP, USER, a, n, true)
    ensures |m1| == |m0| && r < |m0| && forall j: Index | j < USER :: m1[r][j] == m0[r][j]
  {
    hide TreeOk, Frames, Tables, Owned, Open, Leaf;
  }

  lemma {:induction false} CopiedHalf(m0: Memory, u0: set<Frame>, m1: Memory, u1: set<Frame>, r: Frame, image: Frame)
    requires Copied(m0, u0, m1, u1, r, image, TOP, USER, ENTRIES)
    ensures |m1| == |m0| && r < |m0| && forall j: Index | j < USER :: m1[r][j] == m0[r][j]
  {
    hide TreeOk, Frames, Tables, Owned, Open, Leaf;
  }

  lemma {:induction false} ReplacedHalf(m0: Memory, m2: Memory, m1: Memory, r: Frame, q: Path, p: Frame)
    requires |q| == TOP && Leaf(m2, r, q).Some? && Replaced(m2, m1, r, q, USER, p)
    requires r < |m0| == |m2| && m2[r] == m0[r]
    ensures |m1| == |m0| && forall j: Index | j < USER :: m1[r][j] == m0[r][j]
  {
    hide TreeOk, Frames, Tables, Owned, Open, Leaf;
  }

  lemma {:induction false} PageNotRoot(m: Memory, r: Frame, q: Path)
    requires TreeOk(m, r, TOP, USER) && |q| == TOP && USER <= q[0] && Leaf(m, r, q).Some?
    ensures r < |m| && Leaf(m, r, q).value.addr != r
  {
    hide TreeOk, Leaf, Frames;
    LeafFrame(m, r, q, USER);
    RootInTree(m, r, TOP, USER);
  }

  lemma {:induction false} LastInTree(m: Memory, f: Frame, q: Path, lo: nat)
    requires |q| >= 1 && lo <= q[0] && TreeOk(m, f, |q|, lo) && Leaf(m, f, q).Some?
    ensures LastTable(m, f, q) in Frames(m, f, |q|, lo)
    decreases |q|
  {
    if |q| > 1 {
      assert Child(m, f, q[0]) == Some(m[f][q[0]].addr);
      LastInTree(m, m[f][q[0]].addr, q[1..], 0);
      KidInFrames(m, f, |q|, lo, q[0]);
    }
  }

  lemma {:induction false} SharedStoreKeepsKernel(m0: Memory, m1: Memory, r: Frame, half: seq<Entry>, base: set<Frame>, bm: Memory,
                                                  image: Frame, sm: Memory, q: Path, t: Table)
    requires KernelKept(m0, r, half, base, bm, image) && Linked(m0, r, base, bm, image, sm) && |m1| == |m0| && m1[r] == m0[r]
    requires |q| == TOP && USER <= q[0] && ReadOnly(m0, r, q) && Leaf(m0, r, q).value.addr < |bm|
    ensures KernelKept(m1, r, half, base, bm[Leaf(m0, r, q).value.addr := t], image)
  {
    hide KernelKept, OnlyImage, ImageOk, Leaf;
    StoreKeepsKernel(m0, m1, r, half, base, bm, image, q, t);
  }

  lemma {:induction false} GrownFewer(m0: Memory, m1: Memory, r: Frame, a: nat, n: nat)
    requires Grown(m0, m1, r, a, n)
    ensures FewerReadOnly(m0, m1, r)
  {
    hide Leaf, View, Num;
  }

  lemma {:induction false} SameFewer(m0: Memory, m1: Memory, r: Frame, base: set<Frame>, bm: Memory, image: Frame, sm: Memory)
    requires Linked(m0, r, base, bm, image, sm) && SameLeaves(m0, m1, r)
    ensures Linked(m1, r, base, bm, image, sm)
  {
    hide Linked, Leaf;
    FewerLinked(m0, m1, r, base, bm, image, sm);
  }

  lemma {:induction false} AppWithin(m: Memory, u: set<Frame>, r: Frame, base: set<Frame>, bm: Memory)
    requires AppOk(m, u, r, base, bm)
    ensures Within(m, u, r, TOP, USER) && Open(m, r, TOP, USER)
  {
  }

  lemma {:induction false} FewerExposed(m: Memory, r: Frame, a: nat, done: nat, num: nat)
    requires done <= num && forall g: Frame :: !Exposed(m, r, TOP, USER, a, num, g)
    ensures forall g: Frame :: !Exposed(m, r, TOP, USER, a, done, g)
  {
    hide Leaf, Num;
    forall g: Frame
      ensures !Exposed(m, r, TOP, USER, a, done, g)
    {
      assert !Exposed(m, r, TOP, USER, a, num, g);
    }
  }

  lemma {:induction false} SetupGrown(m0: Memory, u0: set<Frame>, m1: Memory, u1: set<Frame>, r: Frame, a: nat, n: nat)
    requires Within(m0, u0, r, TOP, USER) && Setup(m0, u0, m1, u1, r, TOP, USER, a, n, true)
    ensures Grown(m0, m1, r, a, n) && u0 <= u1 && |m1| == |m0|
  {
    hide TreeOk, Frames, Tables, Owned, Open, Leaf, View, Num;
    forall p: Path | |p| == TOP && USER <= p[0]
      ensures && View(m1, r, p) == (if a <= Num(p) < a + n && View(m0, r, p).None? then Some(ZeroTable()) else View(m0, r, p))
              && (if a <= Num(p) < a + n then Leaf(m1, r, p).Some? && Leaf(m1, r, p).value.writable
                  else Leaf(m1, r, p) == Leaf(m0, r, p))
    {
      SetupView(m0, u0, m1, u1, r, a, n, p);
    }
  }

  /** Only page `q` changed, to `t`. */
  ghost predicate OneView(m0: Memory, m1: Memory, r: Frame, q: Path, t: Table)
  {
    forall p: Path | |p| == TOP && USER <= p[0] :: View(m1, r, p) == if p == q then Some(t) else View(m0, r, p)
  }

  lemma {:induction false} FreshKept(m0: Memory, u0: set<Frame>, m1: Memory, r: Frame, p: Frame, q: Path)
    requires Within(m0, u0, r, TOP, USER) && Open(m0, r, TOP, USER) && p !in u0 && p < |m0|
    requires |m1| == |m0| && forall g: Frame | g < |m0| && g != p :: m1[g] == m0[g]
    requires |q| == TOP && USER <= q[0] && Leaf(m0, r, q).Some?
    ensures Leaf(m1, r, q) == Leaf(m0, r, q) && Leaf(m0, r, q).value.addr < |m0| && Leaf(m0, r, q).value.addr != p
    ensures Walk(m1, r, q) == Some((Leaf(m0, r, q).value.addr, Leaf(m0, r, q).value.writable, true))
    ensures CanReplace(m1, r, q, USER, p)
  {
    hide TreeOk, Frames, Tables, Owned, Open, Leaf, Walk;
    FreshFraming(m0, u0, m1, r, p);
    LeafFraming(m0, m1, r, q, USER);
    LeafFrame(m0, r, q, USER);
    WalkIsLeaf(m1, r, q, USER);
  }

  lemma {:induction false} SamePath(a: LinearAddress)
    ensures PathOf(a.(offset := 0), TOP) == PathOf(a, TOP)
    ensures PathOf(a, TOP)[0] == a.Part(TOP)
  {
    var b := a.(offset := 0);
    assert PathOf(a, 1) == PathOf(b, 1);
    assert PathOf(a, 2) == PathOf(b, 2);
    assert PathOf(a, 3) == PathOf(b, 3);
  }

  lemma {:induction false} NumInjective(p: Path, q: Path)
    requires |p| == |q| && Num(p) == Num(q)
    ensures p == q
    decreases |p|
  {
    if p != [] {
      NumOrder(p, q[0]);
      NumBound(q[1..]);
      assert p[0] == q[0];
      NumInjective(p[1..], q[1..]);
      assert p == [p[0]] + p[1..] && q == [q[0]] + q[1..];
    }
  }

  lemma {:induction false} NothingExposed(m: Memory, r: Frame, q: Path)
    requires |q| == TOP && Leaf(m, r, q).None?
    ensures forall g: Frame :: !Exposed(m, r, TOP, USER, Num(q), 1, g)
  {
    hide Leaf, Num;
    forall p: Path | |p| == TOP && Num(q) <= Num(p) < Num(q) + 1
      ensures p == q
    {
      NumInjective(p, q);
    }
  }

  lemma {:induction false} GrownOne(m0: Memory, m1: Memory, r: Frame, q: Path)
    requires |q| == TOP && USER <= q[0] && Leaf(m0, r, q).None? && Grown(m0, m1, r, Num(q), 1)
    ensures OneView(m0, m1, r, q, ZeroTable()) && OnlyLeaf(m0, m1, r, q)
  {
    hide Leaf, Num;
    forall p: Path | |p| == TOP && USER <= p[0]
      ensures View(m1, r, p) == if p == q then Some(ZeroTable()) else View(m0, r, p)
      ensures p != q ==> Leaf(m1, r, p) == Leaf(m0, r, p)
    {
      if Num(p) == Num(q) { NumInjective(p, q); }
    }
  }

  lemma {:induction false} WriteKeepsLeaf(m: Memory, r: Frame, q: Path, t: Table)
    requires TreeOk(m, r, TOP, USER) && |q| == TOP && USER <= q[0] && Leaf(m, r, q).Some?
    ensures Leaf(m, r, q).value.addr < |m|
    ensures Leaf(m[Leaf(m, r, q).value.addr := t], r, q) == Leaf(m, r, q)
  {
    hide TreeOk, Frames, Tables, Leaf;
    LeafFrame(m, r, q, USER);
    LeafFraming(m, m[Leaf(m, r, q).value.addr := t], r, q, USER);
  }

  /** Both trees show the same pages, the second one read-only. */
  ghost predicate LooksLike(m0: Memory, m1: Memory, image: Frame, r: Frame)
  {
    forall q: Path | |q| == TOP && USER <= q[0] ::
      && View(m1, r, q) == View(m0, image, q)
      && (Leaf(m1, r, q).Some? <==> Leaf(m0, image, q).Some?)
      && (Leaf(m1, r, q).Some? ==> !Leaf(m1, r, q).value.writable && Leaf(m1, r, q).value.addr == Leaf(m0, image, q).value.addr)
  }

  /** The tree does not map the pages of the stack and the arguments. */
  ghost predicate LeavesRoom(m: Memory, r: Frame)
  {
    forall q: Path | |q| == TOP && USER <= q[0] && StartPageNumber(Num(q)) :: Leaf(m, r, q).None?
  }

  lemma {:induction false} ImageKept(m0: Memory, u0: set<Frame>, m1: Memory, u1: set<Frame>, image: Frame, r: Frame)
    requires ImageOk(m0, u0, image) && r !in u0 && r < |m0| && u1 == u0 + {r}
    requires |m1| == |m0| && m1 == m0[r := m1[r]]
    ensures CopyReady(m1, u1, r, image, TOP, USER) && Open(m1, image, TOP, USER)
    ensures forall q: Path | |q| == TOP && USER <= q[0] ::
              View(m1, image, q) == View(m0, image, q) && Leaf(m1, image, q) == Leaf(m0, image, q)
  {
    hide TreeOk, Frames, Tables, Owned, Open, Leaf;
    TablesInFrames(m0, image, TOP, USER);
    Framing(m0, m1, image, TOP, USER);
    forall q: Path | |q| == TOP && USER <= q[0]
      ensures View(m1, image, q) == View(m0, image, q) && Leaf(m1, image, q) == Leaf(m0, image, q)
    {
      LeafFraming(m0, m1, image, q, USER);
      if Leaf(m0, image, q).Some? { LeafFrame(m0, image, q, USER); }
    }
  }

  lemma {:induction false} RoomForArgs(m: Memory, r: Frame)
    requires LeavesRoom(m, r)
    ensures forall g: Frame :: !Exposed(m, r, TOP, USER, 0xf_ffff_ffff, 1, g)
  {
    hide Leaf, Num;
  }

  lemma {:induction false} RoomForStack(m1: Memory, m2: Memory, m3: Memory, r: Frame)
    requires LeavesRoom(m1, r) && Grown(m1, m2, r, 0xf_ffff_ffff, 1) && SameLeaves(m2, m3, r)
    ensures forall g: Frame :: !Exposed(m3, r, TOP, USER, 0xf_ffff_ffef, STACK_PAGES, g)
  {
    hide Leaf, Num, View;
    forall q: Path | |q| == TOP && USER <= q[0] && 0xf_ffff_ffef <= Num(q) < 0xf_ffff_ffff
      ensures Leaf(m3, r, q).None?
    {
      assert Leaf(m2, r, q) == Leaf(m1, r, q);
    }
  }

  lemma {:induction false} SweepIsOwned(m: Memory, u: set<Frame>, r: Frame, base: set<Frame>, bm: Memory)
    requires AppOk(m, u, r, base, bm)
    ensures var c := Cleaned(m, r, TOP, CleanAddress());
            u == base + {r} + c && r !in base && r !in c && base !! c && SameOn(bm, m, base)
  {
    hide TreeOk, Frames, Tables, Open, Cleaned;
    ZeroPartsSkipNothing(m, r, TOP, CleanAddress());
    CleanComplete(m, r, TOP, CleanAddress());
    OwnedFrames(m, r, TOP, USER);
  }

  lemma {:induction false} AppBase(m: Memory, u: set<Frame>, r: Frame, base: set<Frame>, bm: Memory, g: Frame)
    requires AppOk(m, u, r, base, bm) && g in base && g < |bm|
    ensures g !in Tables(m, r, TOP, USER) && g < |m| && m[g] == bm[g]
  {
    hide TreeOk, Frames, Tables, Owned, Open;
    BaseNoTable(m, u, r, base, bm, g);
  }

  /** While an application is loaded, at least its root is in use. */
  lemma {:induction false} AppRoot(m: Memory, u: set<Frame>, r: Frame, base: set<Frame>, bm: Memory)
    requires AppOk(m, u, r, base, bm)
    ensures base <= u && u != base && r in u - base && SameOn(bm, m, base)
  {
    hide TreeOk, Frames, Tables, Owned, Open;
  }

  lemma {:induction false} RoomKept(m0: Memory, m1: Memory, image: Frame, r: Frame)
    requires LeavesRoom(m0, image) && LooksLike(m0, m1, image, r)
    ensures LeavesRoom(m1, r)
  {
    hide Leaf, Num;
    forall q: Path | |q| == TOP && USER <= q[0] && StartPageNumber(Num(q))
      ensures Leaf(m1, r, q).None?
    {
      assert Leaf(m1, r, q).Some? <==> Leaf(m0, image, q).Some?;
    }
  }

  function ElfNextPage(vaddrEnd: nat): nat
  {
    (vaddrEnd + 4095) % TWO64 / 4096 * 4096
  }

  /** What a page holds when the application starts. */
  ghost function StartPage(m: Memory, image: Frame, argPage: Table, q: Path): Option<Table>
  {
    if q == PathOf(ArgsAddress(), TOP) then Some(argPage)
    else if StartPageNumber(Num(q)) then Some(ZeroTable())
    else View(m, image, q)
  }

  /** The flat memory an application starts with: its image, its arguments and a zeroed stack. */
  ghost function StartSpace(m: Memory, image: Frame, argPage: Table, vaddrEnd: nat): Space
  {
    Space(imap q: Path | |q| == TOP && USER <= q[0] && StartPage(m, image, argPage, q).Some? :: StartPage(m, image, argPage, q).value,
          iset q: Path | |q| == TOP && USER <= q[0] && View(m, image, q).Some? && !StartPageNumber(Num(q)),
          imap q: Path | |q| == TOP && USER <= q[0] && View(m, image, q).Some? :: View(m, image, q).value,
          ElfNextPage(vaddrEnd), ElfNextPage(vaddrEnd), STACK_VALUE, [])
  }

  lemma {:induction false} StartFields(m: Memory, image: Frame, argPage: Table, vaddrEnd: nat)
    ensures var sp := StartSpace(m, image, argPage, vaddrEnd);
            && sp.dpBegin == ElfNextPage(vaddrEnd) && sp.dpEnd == ElfNextPage(vaddrEnd)
            && sp.mapEnd == STACK_VALUE && sp.maps == [] && Ordered(sp)
  {
  }

  lemma {:induction false} ArgsMapped(m1: Memory, m2: Memory, r: Frame)
    requires Grown(m1, m2, r, 0xf_ffff_ffff, 1)
    ensures Leaf(m2, r, PathOf(ArgsAddress(), TOP)).Some? && Leaf(m2, r, PathOf(ArgsAddress(), TOP)).value.writable
  {
    hide Leaf, View, Num;
    StartNumbers();
    SamePath(ArgsAddress());
  }

  /** The image, then the page of the arguments, its content, and the stack. */
  lemma {:induction false} ShowsStart(m0: Memory, m1: Memory, m2: Memory, m3: Memory, m4: Memory, image: Frame, r: Frame,
                                      argPage: Table, vaddrEnd: nat)
    requires LooksLike(m0, m1, image, r) && LeavesRoom(m1, r) && Grown(m1, m2, r, 0xf_ffff_ffff, 1)
    requires OneView(m2, m3, r, PathOf(ArgsAddress(), TOP), argPage) && Grown(m3, m4, r, 0xf_ffff_ffef, STACK_PAGES)
    ensures ShowsPages(m4, r, StartSpace(m0, image, argPage, vaddrEnd).pages)
  {
    hide Leaf, Num, PathOf;
    StartNumbers();
    forall q: Path | |q| == TOP && USER <= q[0]
      ensures View(m4, r, q) == StartPage(m0, image, argPage, q)
    {
      hide View;
      assert View(m1, r, q) == View(m0, image, q);
      NumBound(q);
      if Num(q) == 0xf_ffff_ffff { NumInjective(q, PathOf(ArgsAddress(), TOP)); }
    }
  }

  lemma {:induction false} ImageViews(m: Memory, u: set<Frame>, image: Frame, q: Path)
    requires ImageOk(m, u, image) && |q| == TOP && USER <= q[0]
    ensures View(m, image, q).Some? <==> Leaf(m, image, q).Some?
  {
    hide TreeOk, Frames, Tables, Owned, Open, Leaf;
    if Leaf(m, image, q).Some? { LeafFrame(m, image, q, USER); }
  }

  /** At the start exactly the pages of the image are shared, and the image is what it is. */
  lemma {:induction false} SharesStart(m0: Memory, u: set<Frame>, m1: Memory, m2: Memory, m3: Memory, m4: Memory, image: Frame, r: Frame,
                                       argPage: Table, vaddrEnd: nat)
    requires ImageOk(m0, u, image) && LeavesRoom(m0, image)
    requires LooksLike(m0, m1, image, r) && Grown(m1, m2, r, 0xf_ffff_ffff, 1)
    requires SameLeaves(m2, m3, r) && Grown(m3, m4, r, 0xf_ffff_ffef, STACK_PAGES)
    ensures ShowsShared(m4, r, StartSpace(m0, image, argPage, vaddrEnd).shared)
    ensures ShowsPages(m0, image, StartSpace(m0, image, argPage, vaddrEnd).image)
  {
    hide Leaf, View, Num, PathOf, ImageOk;
    StartNumbers();
    forall q: Path | |q| == TOP && USER <= q[0]
      ensures ReadOnly(m4, r, q) <==> View(m0, image, q).Some? && !StartPageNumber(Num(q))
    {
      NumBound(q);
      ImageViews(m0, u, image, q);
      assert Leaf(m3, r, q) == Leaf(m2, r, q);
    }
  }

  lemma {:induction false} StartCoherent(m: Memory, u: set<Frame>, image: Frame, argPage: Table, vaddrEnd: nat)
    ensures var sp := StartSpace(m, image, argPage, vaddrEnd);
            && Coherent(sp) && ShowsPages(m, image, sp.image)
            && (forall q | q in sp.image :: |q| == TOP && USER <= q[0])
  {
    hide View, Num, PathOf;
    StartNumbers();
  }

  /** Once the application is gone, all frames are as they were iff the image it leaves is the one it found. */
  lemma {:induction false} ImageLeft(sm: Memory, u: set<Frame>, m: Memory, r: Frame, bm: Memory, m1: Memory, image: Frame, start: Space, final: Space)
    requires ImageOk(sm, u, image) && Linked(m, r, u, bm, image, sm) && SameOn(bm, m1, u)
    requires ShowsPages(sm, image, start.image) && ShowsPages(bm, image, final.image) && final.image.Keys == start.image.Keys
    requires forall q | q in start.image :: |q| == TOP && USER <= q[0]
    ensures LeftBehind(sm, u, image, start, final, m1)
  {
    hide Leaf, View, ImageOk;
    SameImage(bm, m1, u, image);
    KeptIff(sm, m1, u, image);
    forall q: Path | |q| == TOP && USER <= q[0]
      ensures View(m1, image, q) == (if q in final.image then Some(final.image[q]) else None)
      ensures View(sm, image, q) == (if q in start.image then Some(start.image[q]) else None)
      ensures Leaf(m1, image, q) == Leaf(sm, image, q)
    {
      assert View(m1, image, q) == View(bm, image, q);
      assert Leaf(m1, image, q) == Leaf(bm, image, q);
      assert Leaf(bm, image, q) == Leaf(sm, image, q);
    }
    if forall q: Path | |q| == TOP && USER <= q[0] :: View(m1, image, q) == View(sm, image, q) {
      forall q | q in start.image
        ensures final.image[q] == start.image[q]
      {
        assert View(m1, image, q) == View(sm, image, q);
      }
    }
  }
}
