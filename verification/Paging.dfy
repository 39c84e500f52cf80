/** kernel/paging.cpp over physical memory: mapping, sharing, copying and giving back pages.  Memory is a sequence
    of frames that the methods write entry by entry, as the kernel does; the frame allocator is the set of frames
    in use, from which the lowest free frame is taken.  Each method is proved to establish the relation that
    the modules PageMapping, PageSharing and PageReclaim define. */
module Paging {
  import opened Basics
  import opened PageTables
  import opened PageMapping
  import opened LinearAddresses
  import opened PageReclaim
  import opened PageSharing

  datatype Error = Success | NoEnoughMemory | AlreadyAllocated | IndexOutOfRange | ArgumentsFull

  /** The page number at which entry `a.Part(level)` ends. */
  ghost predicate EndsEntry(a: LinearAddress, level: nat, n: nat)
    requires 1 <= level <= 4
  {
    Num(PathOf(a, level)) + n ==
    if a.Part(level) == 511 then Pages(level) else Num(PathOf(NextEntry(a, level), level))
  }

  lemma {:induction false} EntryEnd(a: LinearAddress, level: nat, n: nat)
    requires 1 <= level <= 4
    requires Num(PathOf(a, level - 1)) + n <= Pages(level - 1)
    ensures Num(PathOf(a, level)) + n <= Pages(level)
    ensures Num(PathOf(a, level - 1)) + n == Pages(level - 1) ==> EndsEntry(a, level, n)
  {
    var i := a.Part(level);
    PagesAbove(level, i);
    if i < 511 { NextEntryPath(a, level); }
  }

  /** Mapping pages below one entry, in terms of addresses. */
  lemma {:induction false} AdvanceInner(m0: Memory, u0: set<Frame>, m1: Memory, u1: set<Frame>, m2: Memory, u2: set<Frame>,
                     f: Frame, level: nat, lo: nat, a: LinearAddress, c: Frame, n: nat, w: bool)
    requires 2 <= level <= 4 && lo <= a.Part(level) && Within(m0, u0, f, level, lo)
    requires Prepared(m0, u0, m1, u1, f, a.Part(level), c, true)
    requires Setup(m1, u1, m2, u2, c, level - 1, 0, Num(PathOf(a, level - 1)), n, w)
    requires Num(PathOf(a, level - 1)) + n <= Pages(level - 1)
    ensures Setup(m0, u0, m2, u2, f, level, lo, Num(PathOf(a, level)), n, w)
  {
    hide Setup, Within, Prepared;
    SetupInner(m0, u0, m1, u1, m2, u2, f, level, lo, a.Part(level), c, Num(PathOf(a, level - 1)), n, w);
  }

  lemma {:induction false} RootInTree(m: Memory, f: Frame, level: nat, lo: nat)
    requires level >= 1 && TreeOk(m, f, level, lo)
    ensures f < |m| && f in Tables(m, f, level, lo)
  {
  }

  /** The next subtree is still as it was when the sweep began. */
  lemma {:induction false} SweepFrames(m0: Memory, m1: Memory, f: Frame, level: nat, a: LinearAddress, i: Index)
    requires 2 <= level <= 4 && TreeOk(m0, f, level, a.Part(level)) && a.Part(level) <= i && m0[f][i].present
    requires SameOn(m0, m1, KidTables(m0, f, level, a.Part(level), i))
    ensures var c := m0[f][i].addr;
            && TreeOk(m1, c, level - 1, a.Part(level - 1))
            && Cleaned(m1, c, level - 1, a) == Cleaned(m0, c, level - 1, a)
            && Tables(m1, c, level - 1, a.Part(level - 1)) == Tables(m0, c, level - 1, a.Part(level - 1))
  {
    hide Frames, Tables, TreeOk, Cleaned, KidCleaned, Owned, Open;
    RootInTree(m0, f, level, a.Part(level));
    CleanedChild(m0, f, level, a, i);
    var c := m0[f][i].addr;
    Framing(m0, m1, c, level - 1, a.Part(level - 1));
    CleanedFraming(m0, m1, c, level - 1, a, a.Part(level - 1));
  }

  /** Sweeping one subtree leaves the table above and the later subtrees alone. */
  lemma {:induction false} SweepStep(m0: Memory, m1: Memory, m2: Memory, f: Frame, level: nat, a: LinearAddress, i: Index)
    requires 2 <= level <= 4 && TreeOk(m0, f, level, a.Part(level)) && a.Part(level) <= i && m0[f][i].present
    requires |m1| == |m2| == |m0|
    requires forall j: Index | i <= j :: SameOn(m0, m1, KidTables(m0, f, level, a.Part(level), j))
    requires forall g: Frame | g < |m2| && g !in Tables(m0, m0[f][i].addr, level - 1, a.Part(level - 1)) :: m2[g] == m1[g]
    ensures m2[f] == m1[f]
    ensures forall j: Index | i < j :: SameOn(m0, m2, KidTables(m0, f, level, a.Part(level), j))
    ensures forall g: Frame | g < |m2| && g !in Tables(m0, f, level, a.Part(level)) :: m2[g] == m1[g]
  {
    hide TreeOk, Frames, Tables;
    var lo := a.Part(level);
    CleanedChild(m0, f, level, a, i);
    KidInTables(m0, f, level, lo, i);
    KidTablesApart(m0, f, level, lo, i, i);
    forall j: Index | i < j
      ensures SameOn(m0, m2, KidTables(m0, f, level, lo, j))
    {
      KidTablesApart(m0, f, level, lo, i, j);
    }
  }

  lemma {:induction false} CopiedKeeps(m0: Memory, u0: set<Frame>, m1: Memory, u1: set<Frame>, d: Frame, s: Frame, level: nat, lo: nat, n: nat)
    requires CopyReady(m0, u0, d, s, level, lo) && Copied(m0, u0, m1, u1, d, s, level, lo, n)
    ensures |m1| == |m0| && u0 <= u1 && m1[s] == m0[s]
  {
    RootFacts(m0, u0, s, level, lo);
    assert s in Frames(m0, s, level, lo);
  }

  lemma {:induction false} ReplaceDescent(m: Memory, f: Frame, q: Path, lo: nat, g: Frame)
    requires |q| >= 2 && CanReplace(m, f, q, lo, g)
    ensures f < |m| && m[f][q[0]].present && CanReplace(m, m[f][q[0]].addr, q[1..], 0, g)
  {
    assert Child(m, f, q[0]) == Some(m[f][q[0]].addr);
    KidInFrames(m, f, |q|, lo, q[0]);
  }

  lemma {:induction false} NothingBelow(m: Memory, f: Frame, a: LinearAddress)
    ensures Cleaned(m, f, 0, a) == {}
  {
  }

  lemma {:induction false} ClearedEntry(m0: Memory, m1: Memory, f: Frame, level: nat, lo: nat, i: Index)
    requires level >= 1 && TreeOk(m0, f, level, lo) && |m1| == |m0| && f < |m0|
    requires forall j: Index | i < j :: SameOn(m0, m1, KidTables(m0, f, level, lo, j))
    ensures forall j: Index | i < j :: SameOn(m0, m1[f := m1[f][i := ZERO_ENTRY]], KidTables(m0, f, level, lo, j))
  {
    hide TreeOk, Tables, Frames;
    forall j: Index | i < j
      ensures SameOn(m0, m1[f := m1[f][i := ZERO_ENTRY]], KidTables(m0, f, level, lo, j))
    {
      KidTablesApart(m0, f, level, lo, i, j);
    }
  }

  lemma {:induction false} KidTablesApart(m: Memory, f: Frame, level: nat, lo: nat, i: Index, j: Index)
    requires level >= 1 && TreeOk(m, f, level, lo)
    ensures f < |m| && f !in KidTables(m, f, level, lo, i) && f !in KidTables(m, f, level, lo, j)
    ensures i != j ==> KidTables(m, f, level, lo, i) !! KidTables(m, f, level, lo, j)
  {
    KidFacts(m, Frames(m, f, level, lo), f, level, lo, i);
    KidFacts(m, Frames(m, f, level, lo), f, level, lo, j);
    if i != j { KidsApart(m, f, level, lo, i, j); }
  }

  /** The frames of a range that are not in use. */
  ghost function FreeIn(begin: nat, end: nat, used: set<Frame>): (free: set<Frame>)
    ensures forall g: Frame :: g in free <==> begin <= g < end && g !in used
  {
    set g: Frame | begin <= g < end && g !in used
  }

  class Pager {
    var mem: Memory
    /** The allocated frames, as the frame allocator keeps them. */
    var used: set<Frame>
    /** Every frame given back so far, as often as it was given back. */
    ghost var freed: multiset<Frame>
    const rangeBegin: nat
    const rangeEnd: nat

    constructor (mem: Memory, used: set<Frame>, rangeBegin: nat, rangeEnd: nat)
      ensures this.mem == mem && this.used == used && this.rangeBegin == rangeBegin && this.rangeEnd == rangeEnd
    {
      this.mem, this.used, this.rangeBegin, this.rangeEnd := mem, used, rangeBegin, rangeEnd;
      freed := multiset{};
    }

    ghost predicate Full()
      reads this
    {
      forall g: Frame | rangeBegin <= g < rangeEnd :: g in used
    }

    ghost function Free(): set<Frame>
      reads this
    {
      FreeIn(rangeBegin, rangeEnd, used)
    }

    /** Takes the lowest free frame and clears it. */
    method NewPageMap() returns (f: Frame, err: Error)
      requires rangeEnd <= |mem|
      modifies this`mem, this`used
      ensures err == Success ==>
                && rangeBegin <= f < rangeEnd && f !in old(used)
                && (forall g: Frame | rangeBegin <= g < f :: g in old(used))
                && used == old(used) + {f} && mem == old(mem)[f := ZeroTable()]
      ensures err != Success ==> err == NoEnoughMemory && Full() && used == old(used) && mem == old(mem)
    {
      f := rangeBegin;
      while f < rangeEnd && f in used
        invariant rangeBegin <= f && (rangeBegin <= rangeEnd ==> f <= rangeEnd)
        invariant forall g: Frame | rangeBegin <= g < f :: g in used
      {
        f := f + 1;
      }
      if f >= rangeEnd {
        return 0, NoEnoughMemory;
      }
      used := used + {f};
      mem := mem[f := ZeroTable()];
      err := Success;
    }

    method SetNewPageMapIfNotPresent(f: Frame, i: Index) returns (child: Frame, err: Error)
      requires rangeEnd <= |mem| && f < |mem| && f in used
      modifies this`mem, this`used
      ensures err == Success ==>
                var e := old(mem)[f][i];
                if e.present then child == e.addr && mem == old(mem) && used == old(used)
                else
                  && child !in old(used) && child < rangeEnd && used == old(used) + {child}
                  && mem == old(mem)[child := ZeroTable()][f := old(mem)[f][i := e.(present := true, addr := child)]]
      ensures err != Success ==> err == NoEnoughMemory && Full() && used == old(used) && mem == old(mem)
    {
      if mem[f][i].present {
        return mem[f][i].addr, Success;
      }
      child, err := NewPageMap();
      if err != Success {
        return;
      }
      ghost var e := mem[f][i].(present := true, addr := child);
      mem := mem[f := mem[f][i := mem[f][i].(addr := child)]];
      mem := mem[f := mem[f][i := mem[f][i].(present := true)]];
      assert mem[f] == old(mem)[f][i := e];
      assert mem == old(mem)[child := ZeroTable()][f := old(mem)[f][i := e]];
    }

    /** Makes entry `i` of table `f` point at a child that user mode can reach. */
    method PrepareEntry(f: Frame, i: Index, writable: bool) returns (child: Frame, err: Error)
      requires rangeEnd <= |mem| && f < |mem| && f in used
      requires mem[f][i].present ==> mem[f][i].addr < |mem|
      modifies this`mem, this`used
      ensures err == Success ==> Prepared(old(mem), old(used), mem, used, f, i, child, writable)
      ensures err != Success ==> err == NoEnoughMemory && Full() && used == old(used) && mem == old(mem)
    {
      child, err := SetNewPageMapIfNotPresent(f, i);
      if err != Success {
        return;
      }
      ghost var m := mem;
      mem := mem[f := mem[f][i := mem[f][i].(user := true)]];
      mem := mem[f := mem[f][i := mem[f][i].(writable := writable)]];
      assert mem[f] == m[f][i := m[f][i].(user := true, writable := writable)];
      assert mem == m[f := m[f][i := m[f][i].(user := true, writable := writable)]];
      Rewrites(old(mem), old(used), m, mem, used, f, i, child, writable);
    }

    /** Maps `num` pages from `addr` on in the table `f` of the given level; `remain` pages did not fit. */
    method SetupPageMap(f: Frame, level: nat, a: LinearAddress, num: nat, writable: bool, ghost lo: nat)
      returns (remain: nat, err: Error, ghost done: nat)
      requires 1 <= level <= 4 && lo <= a.Part(level)
      requires rangeEnd <= |mem| && Within(mem, used, f, level, lo)
      modifies this`mem, this`used
      ensures Setup(old(mem), old(used), mem, used, f, level, lo, Num(PathOf(a, level)), done, writable)
      ensures err == Success ==> remain <= num && done == num - remain && (num > 0 ==> done > 0)
      ensures err == Success && remain > 0 ==> Num(PathOf(a, level)) + done == Pages(level)
      ensures err != Success ==> err == NoEnoughMemory && Full()
      ensures Num(PathOf(a, level)) + done <= Pages(level) && done <= num
      decreases level
    {
      hide Setup, TreeOk, Frames, Tables, Leaf, Open, PageRule, Num, Prepared, PathOf, Pages, Within;
      var addr := a;
      remain, done, err := num, 0, Success;
      ghost var start := Num(PathOf(a, level));
      NumBound(PathOf(a, level));
      SetupNothing(mem, used, f, level, lo, start, writable);
      while remain > 0
        invariant done == num - remain && remain <= num
        invariant Setup(old(mem), old(used), mem, used, f, level, lo, start, done, writable)
        invariant Within(mem, used, f, level, lo)
        invariant remain > 0 ==> Num(PathOf(addr, level)) == start + done && lo <= addr.Part(level)
        invariant start + done <= Pages(level) && err == Success && |mem| == |old(mem)|
        decreases remain
      {
        var i := addr.Part(level);
        ghost var m0, u0 := mem, used;
        RootFacts(m0, u0, f, level, lo);
        if m0[f][i].present { ChildInRange(m0, u0, f, level, lo, i); }
        var child;
        child, err := PrepareEntry(f, i, level > 1 || writable);
        if err != Success {
          return;
        }
        ghost var m1, u1 := mem, used;
        ghost var step: nat;
        if level == 1 {
          remain := remain - 1;
          step := 1;
          SetupLeaf(m0, u0, m1, u1, f, lo, i, child, writable);
          LastIndex(addr);
          NoPath(addr);
        } else {
          PreparedChild(m0, u0, m1, u1, f, level, lo, i, child, true);
          var rest;
          rest, err, step := SetupPageMap(child, level - 1, addr, remain, writable, 0);
          AdvanceInner(m0, u0, m1, u1, mem, used, f, level, lo, addr, child, step, writable);
          if err == Success { remain := rest; }
        }
        SetupCompose(old(mem), old(used), m0, u0, mem, used, f, level, lo, start, done, step, writable);
        SetupWithin(m0, u0, mem, used, f, level, lo, start + done, step, writable);
        EntryEnd(addr, level, step);
        done := done + step;
        if err != Success {
          return;
        }
        if i == 511 {
          break;
        }
        ghost var before := addr;
        addr := addr.SetPart(level, i + 1);
        var l := level - 1;
        while l >= 1
          invariant 0 <= l <= level - 1
          invariant ClearBelow(addr, l) == NextEntry(before, level)
        {
          addr := addr.SetPart(l, 0);
          l := l - 1;
        }
        NextEntryPart(before, level);
      }
    }

    method FreeFrame(g: Frame)
      modifies this`used, this`freed
      ensures used == old(used) - {g} && freed == old(freed) + multiset{g}
    {
      used := used - {g};
      freed := freed + multiset{g};
    }

    /** Gives back what entry `i` of `f` owns and clears the entry; `m0` is the memory when the sweep of `f` began. */
    method CleanEntry(f: Frame, level: nat, a: LinearAddress, i: Index, ghost m0: Memory)
      requires 1 <= level <= 4 && TreeOk(m0, f, level, a.Part(level)) && a.Part(level) <= i
      requires |mem| == |m0| && mem[f][i] == m0[f][i]
      requires forall j: Index | i <= j :: SameOn(m0, mem, KidTables(m0, f, level, a.Part(level), j))
      requires KidCleaned(m0, f, level, a, i) <= used
      modifies this`mem, this`used, this`freed
      ensures used == old(used) - KidCleaned(m0, f, level, a, i)
      ensures freed == old(freed) + multiset(KidCleaned(m0, f, level, a, i))
      ensures |mem| == |m0|
      ensures forall g: Frame | g < |m0| && g !in Tables(m0, f, level, a.Part(level)) :: mem[g] == old(mem)[g]
      ensures mem[f] == old(mem)[f][i := if m0[f][i].present then ZERO_ENTRY else m0[f][i]]
      ensures forall j: Index | i < j :: SameOn(m0, mem, KidTables(m0, f, level, a.Part(level), j))
      decreases level, 0
    {
      hide TreeOk, Frames, Tables, Cleaned, KidTables;
      RootInTree(m0, f, level, a.Part(level));
      var entry := mem[f][i];
      if !entry.present {
        return;
      }
      ghost var m1, inner := mem, {};
      if level > 1 {
        CleanedChild(m0, f, level, a, i);
        SweepFrames(m0, m1, f, level, a, i);
        inner := Cleaned(m0, entry.addr, level - 1, a);
        CleanPageMap(entry.addr, level - 1, a);
        SweepStep(m0, m1, mem, f, level, a, i);
      } else {
        NothingBelow(m0, entry.addr, a);
      }
      assert KidCleaned(m0, f, level, a, i) == inner + (if entry.writable then {entry.addr} else {});
      if entry.writable {
        FreeFrame(entry.addr);
      }
      ClearedEntry(m0, mem, f, level, a.Part(level), i);
      mem := mem[f := mem[f][i := ZERO_ENTRY]];
    }

    /** Empties the entries of `f` from `a.Part(level)` on and gives back what they own. */
    method CleanPageMap(f: Frame, level: nat, a: LinearAddress)
      requires 1 <= level <= 4 && TreeOk(mem, f, level, a.Part(level))
      requires Cleaned(mem, f, level, a) <= used
      modifies this`mem, this`used, this`freed
      ensures used == old(used) - Cleaned(old(mem), f, level, a)
      ensures freed == old(freed) + multiset(Cleaned(old(mem), f, level, a))
      ensures |mem| == |old(mem)|
      ensures forall g: Frame | g < |mem| && g !in Tables(old(mem), f, level, a.Part(level)) :: mem[g] == old(mem)[g]
      ensures forall j: Index :: mem[f][j] == if a.Part(level) <= j && old(mem)[f][j].present then ZERO_ENTRY else old(mem)[f][j]
      decreases level, 1
    {
      hide TreeOk, Frames, Tables, Cleaned, KidCleaned, KidTables, CleanedBelow;
      ghost var m0, lo := mem, a.Part(level);
      RootInTree(m0, f, level, lo);
      CleanedEnds(m0, f, level, a);
      var i: nat := a.Part(level);
      while i < ENTRIES
        invariant lo <= i <= ENTRIES
        invariant used == old(used) - CleanedBelow(m0, f, level, a, i)
        invariant freed == old(freed) + multiset(CleanedBelow(m0, f, level, a, i))
        invariant |mem| == |m0|
        invariant forall g: Frame | g < |m0| && g !in Tables(m0, f, level, lo) :: mem[g] == m0[g]
        invariant forall j: Index :: mem[f][j] == if lo <= j < i && m0[f][j].present then ZERO_ENTRY else m0[f][j]
        invariant forall j: Index | i <= j :: SameOn(m0, mem, KidTables(m0, f, level, lo, j))
      {
        CleanedStep(m0, f, level, a, i);
        CleanedApart(m0, f, level, a, i);
        CleanEntry(f, level, a, i, m0);
        i := i + 1;
      }
    }

    /** Gives `dest` tables of its own that translate the entries of `src` from `start` on to the same
        pages, read-only. */
    method CopyPageMaps(dest: Frame, src: Frame, part: nat, start: nat) returns (err: Error, ghost n: nat)
      requires 1 <= part <= 4 && start <= ENTRIES && rangeEnd <= |mem|
      requires CopyReady(mem, used, dest, src, part, start) && EmptyFrom(mem, dest, start)
      modifies this`mem, this`used
      ensures Copied(old(mem), old(used), mem, used, dest, src, part, start, n)
      ensures err == Success ==> n == ENTRIES
      ensures err != Success ==> err == NoEnoughMemory && Full()
      decreases part
    {
      hide Copied, TreeOk, Frames, Within;
      CopyStart(mem, used, dest, src, part, start);
      RootFacts(mem, used, src, part, start);
      ghost var m0, u0 := mem, used;
      var i := start;
      if part == 1 {
        while i < ENTRIES
          invariant start <= i <= ENTRIES && used == u0
          invariant Copied(m0, u0, mem, used, dest, src, 1, start, i)
          invariant |mem| == |m0| && EmptyFrom(mem, dest, i) && mem[src] == m0[src]
        {
          if mem[src][i].present {
            ghost var mb := mem;
            mem := mem[dest := mem[dest][i := mem[src][i]]];
            mem := mem[dest := mem[dest][i := mem[dest][i].(writable := false)]];
            assert mem[dest] == mb[dest][i := m0[src][i].(writable := false)];
            assert mem == mb[dest := mb[dest][i := m0[src][i].(writable := false)]];
            CopyLeaf(m0, u0, mb, used, mem, dest, src, start, i);
          } else {
            CopySkip(m0, u0, mem, used, dest, src, 1, start, i);
          }
          i := i + 1;
        }
        return Success, ENTRIES;
      }
      while i < ENTRIES
        invariant start <= i <= ENTRIES && u0 <= used
        invariant Copied(m0, u0, mem, used, dest, src, part, start, i)
        invariant |mem| == |m0| && EmptyFrom(mem, dest, i) && mem[src] == m0[src]
      {
        if mem[src][i].present {
          ghost var mb, ub := mem, used;
          var table;
          table, err := NewPageMap();
          if err != Success {
            n := i;
            return;
          }
          mem := mem[dest := mem[dest][i := mem[src][i]]];
          mem := mem[dest := mem[dest][i := mem[dest][i].(addr := table)]];
          ghost var mc, uc := mem, used;
          assert mc[dest] == mb[dest][i := m0[src][i].(addr := table)];
          assert mc == mb[table := ZeroTable()][dest := mb[dest][i := m0[src][i].(addr := table)]];
          CopyChildReady(m0, u0, mb, ub, mc, uc, dest, src, part, start, i, table);
          err, n := CopyPageMaps(table, mem[src][i].addr, part - 1, 0);
          CopyInner(m0, u0, mb, ub, mc, uc, mem, used, dest, src, part, start, i, table, n);
          CopiedKeeps(m0, u0, mem, used, dest, src, part, start, if n >= ENTRIES then i + 1 else i);
          if err != Success {
            n := if n >= ENTRIES then i + 1 else i;
            return;
          }
        } else {
          CopySkip(m0, u0, mem, used, dest, src, part, start, i);
        }
        i := i + 1;
      }
      return Success, ENTRIES;
    }

    /** Points the level-1 entry of `addr` at `content`; in a page map that moves the page. */
    method SetPageContent(table: Frame, part: nat, addr: LinearAddress, content: Frame, ghost u: set<Frame>, ghost lo: nat)
      requires 1 <= part <= 4 && OnTheWay(mem, u, table, PathOf(addr, part))
      modifies this`mem
      ensures Redirected(old(mem), mem, table, PathOf(addr, part), content)
      ensures CanReplace(old(mem), table, PathOf(addr, part), lo, content) ==>
                Replaced(old(mem), mem, table, PathOf(addr, part), lo, content)
      decreases part
    {
      hide Replaced, Frames, Tables, Owned, CanReplace;
      var i := addr.Part(part);
      ghost var q := PathOf(addr, part);
      if part == 1 {
        mem := mem[table := mem[table][i := mem[table][i].(addr := content)]];
        mem := mem[table := mem[table][i := mem[table][i].(writable := true)]];
        assert mem[table] == old(mem)[table][i := old(mem)[table][i].(addr := content, writable := true)];
        assert mem == old(mem)[table := old(mem)[table][i := old(mem)[table][i].(addr := content, writable := true)]];
        if CanReplace(old(mem), table, q, lo, content) { ReplaceLeaf(old(mem), mem, table, q, lo, content); }
        return;
      }
      assert q[1..] == PathOf(addr, part - 1);
      if CanReplace(mem, table, q, lo, content) { ReplaceDescent(mem, table, q, lo, content); }
      SetPageContent(mem[table][i].addr, part - 1, addr, content, u, 0);
      if CanReplace(old(mem), table, q, lo, content) { ReplaceInner(old(mem), mem, table, q, lo, content); }
    }
  }
}
