/** BitmapMemoryManager of kernel/memory_manager.cpp: one bit per physical frame, in 64-bit words, against the
    set of frames in use.  The bit operations of the source are recursive functions on natural numbers, and the
    lemmas about them say which bit a mask reads, sets or clears; from there on only the set is used.  Allocation
    skips behind the first used frame it meets, which is proved to miss no run.  The memory map of the boot loader
    is scanned descriptor by descriptor, with the invariant that the frames scanned so far are in use exactly
    when no available area covers them. */
module FrameBitmap {
  import opened Basics
  import opened Powers
  import opened BitWords

  const FRAME_COUNT: nat := 0x200_0000
  const BITS_PER_LINE: nat := 64
  const BYTES_PER_FRAME: nat := 4096

  // ----- single bits of a word -----

  function BitAt(v: nat, k: nat): bool
  {
    if k == 0 then v % 2 == 1 else BitAt(v / 2, k - 1)
  }

  function BitAnd(a: nat, b: nat): nat
    decreases a + b
  {
    if a == 0 || b == 0 then 0 else (if a % 2 == 1 && b % 2 == 1 then 1 else 0) + 2 * BitAnd(a / 2, b / 2)
  }

  /** `a & ~b` */
  function BitAndNot(a: nat, b: nat): nat
    decreases a + b
  {
    if a == 0 then 0 else (if a % 2 == 1 && b % 2 == 0 then 1 else 0) + 2 * BitAndNot(a / 2, b / 2)
  }

  lemma {:induction false} NoBits(k: nat)
    ensures !BitAt(0, k)
  {
    if k > 0 { NoBits(k - 1); }
  }

  lemma {:induction false} AndBits(a: nat, b: nat, k: nat)
    ensures BitAt(BitAnd(a, b), k) <==> BitAt(a, k) && BitAt(b, k)
    decreases k
  {
    if a == 0 || b == 0 {
      NoBits(k);
    } else {
      var w := BitAnd(a, b);
      assert w / 2 == BitAnd(a / 2, b / 2);
      if k > 0 { AndBits(a / 2, b / 2, k - 1); }
    }
  }

  lemma {:induction false} TestBit(v: nat, k: nat)
    ensures BitAnd(v, Pow2(k)) != 0 <==> BitAt(v, k)
  {
    if v == 0 {
      NoBits(k);
    } else if k > 0 {
      TestBit(v / 2, k - 1);
    } else {
      assert BitAnd(v / 2, 0) == 0;
    }
  }

  lemma {:induction false} OrBit(v: nat, k: nat, j: nat)
    ensures BitAt(BitOr(v, Pow2(k)), j) <==> j == k || BitAt(v, j)
  {
    var w := BitOr(v, Pow2(k));
    if k > 0 {
      assert w % 2 == v % 2 && w / 2 == BitOr(v / 2, Pow2(k - 1));
      if j > 0 { OrBit(v / 2, k - 1, j - 1); }
    } else {
      OrZeroRight(v / 2);
      assert w % 2 == 1 && w / 2 == v / 2;
    }
  }

  lemma {:induction false} OrZeroRight(v: nat)
    ensures BitOr(v, 0) == v
  {
    if v > 0 { OrZeroRight(v / 2); }
  }

  lemma {:induction false} AndNotBit(v: nat, k: nat, j: nat)
    ensures BitAt(BitAndNot(v, Pow2(k)), j) <==> j != k && BitAt(v, j)
  {
    if v == 0 {
      NoBits(j);
    } else {
      var w := BitAndNot(v, Pow2(k));
      if k > 0 {
        assert w % 2 == v % 2 && w / 2 == BitAndNot(v / 2, Pow2(k - 1));
        if j > 0 { AndNotBit(v / 2, k - 1, j - 1); }
      } else {
        AndNotZero(v / 2);
        assert w % 2 == 0 && w / 2 == v / 2;
      }
    }
  }

  lemma {:induction false} AndNotZero(v: nat)
    ensures BitAndNot(v, 0) == v
  {
    if v > 0 { AndNotZero(v / 2); }
  }

  // ----- the manager -----

  function Frames(start: nat, n: nat): (r: set<nat>)
    ensures forall f :: f in r <==> start <= f < start + n
  {
    if n == 0 then {} else Frames(start, n - 1) + {start + n - 1}
  }

  /** Free frames from `start` on within the range. */
  ghost predicate FreeRun(used: set<nat>, low: nat, high: nat, start: nat, n: nat)
  {
    low <= start && (n > 0 ==> start + n <= high) && Frames(start, n) !! used
  }

  class BitmapMemoryManager {
    const allocMap: array<nat>
    var rangeBegin: nat
    var rangeEnd: nat

    constructor ()
      ensures Valid() && fresh(allocMap) && Used() == {} && rangeBegin == 0 && rangeEnd == FRAME_COUNT
    {
      allocMap := new nat[FRAME_COUNT / BITS_PER_LINE](_ => 0);
      rangeBegin, rangeEnd := 0, FRAME_COUNT;
      new;
      forall f: nat | f < FRAME_COUNT
        ensures !Bit(f)
      {
        NoBits(f % BITS_PER_LINE);
      }
    }

    ghost predicate Valid()
      reads this
    {
      allocMap.Length == FRAME_COUNT / BITS_PER_LINE && rangeEnd <= FRAME_COUNT
    }

    ghost predicate Bit(f: nat)
      requires Valid() && f < FRAME_COUNT
      reads this, allocMap
    {
      BitAt(allocMap[f / BITS_PER_LINE], f % BITS_PER_LINE)
    }

    /** The frames in use. */
    ghost function Used(): set<nat>
      requires Valid()
      reads this, allocMap
    {
      set f: nat | f < FRAME_COUNT && Bit(f)
    }

    method GetBit(frame: nat) returns (b: bool)
      requires Valid() && frame < FRAME_COUNT
      ensures b <==> frame in Used()
    {
      var line, bit := frame / BITS_PER_LINE, frame % BITS_PER_LINE;
      TestBit(allocMap[line], bit);
      b := BitAnd(allocMap[line], Pow2(bit)) != 0;
    }

    method SetBit(frame: nat, inUse: bool)
      requires Valid() && frame < FRAME_COUNT
      modifies allocMap
      ensures Used() == if inUse then old(Used()) + {frame} else old(Used()) - {frame}
    {
      hide BitAt, BitOr, BitAndNot;
      var line, bit := frame / BITS_PER_LINE, frame % BITS_PER_LINE;
      ghost var word := allocMap[line];
      if inUse {
        allocMap[line] := BitOr(allocMap[line], Pow2(bit));
      } else {
        allocMap[line] := BitAndNot(allocMap[line], Pow2(bit));
      }
      forall f: nat | f < FRAME_COUNT
        ensures Bit(f) <==> if f == frame then inUse else old(Bit(f))
      {
        OrBit(word, bit, f % BITS_PER_LINE);
        AndNotBit(word, bit, f % BITS_PER_LINE);
      }
    }

    method MarkAllocated(start: nat, n: nat)
      requires Valid() && start + n <= FRAME_COUNT
      modifies allocMap
      ensures Used() == old(Used()) + Frames(start, n)
    {
      hide Used;
      var i := 0;
      while i < n
        invariant 0 <= i <= n && Used() == old(Used()) + Frames(start, i)
      {
        SetBit(start + i, true);
        assert Frames(start, i + 1) == Frames(start, i) + {start + i};
        i := i + 1;
      }
    }

    method Free(start: nat, n: nat)
      requires Valid() && start + n <= FRAME_COUNT
      modifies allocMap
      ensures Used() == old(Used()) - Frames(start, n)
    {
      hide Used;
      var i := 0;
      while i < n
        invariant 0 <= i <= n && Used() == old(Used()) - Frames(start, i)
      {
        SetBit(start + i, false);
        assert Frames(start, i + 1) == Frames(start, i) + {start + i};
        i := i + 1;
      }
    }

    /** The lowest run of `n` free frames of the range; fails iff there is none. */
    method Allocate(n: nat) returns (frame: Option<nat>)
      requires Valid() && rangeBegin <= FRAME_COUNT
      modifies allocMap
      ensures match frame
              case Some(start) =>
                FreeRun(old(Used()), rangeBegin, rangeEnd, start, n)
                && (forall s: nat | s < start :: !FreeRun(old(Used()), rangeBegin, rangeEnd, s, n))
                && Used() == old(Used()) + Frames(start, n)
              case None =>
                Used() == old(Used()) && forall s: nat :: !FreeRun(old(Used()), rangeBegin, rangeEnd, s, n)
    {
      hide Used, Frames, FreeRun;
      var start := rangeBegin;
      ghost var used := Used();
      Below(used, rangeBegin, rangeEnd, n);
      while true
        invariant rangeBegin <= start && Used() == used && (n == 0 ==> start == rangeBegin)
        invariant forall s: nat | s < start :: !FreeRun(used, rangeBegin, rangeEnd, s, n)
        decreases FRAME_COUNT + n - start
      {
        var i := 0;
        NoFrames(start);
        while i < n
          invariant 0 <= i <= n && Used() == used && Frames(start, i) !! used
          invariant i > 0 ==> start + i <= rangeEnd
        {
          if start + i >= rangeEnd {
            NoneHigher(used, rangeBegin, rangeEnd, start, i, n);
            return None;
          }
          var b := GetBit(start + i);
          if b {
            break;
          }
          i := i + 1;
        }
        if i == n {
          IsRun(used, rangeBegin, rangeEnd, start, n);
          MarkAllocated(start, n);
          return Some(start);
        }
        NotOver(used, rangeBegin, rangeEnd, start, i, n);
        start := start + i + 1;
      }
    }
  }

  lemma {:induction false} Below(used: set<nat>, low: nat, high: nat, n: nat)
    ensures forall s: nat | s < low :: !FreeRun(used, low, high, s, n)
  {
  }

  lemma {:induction false} IsRun(used: set<nat>, low: nat, high: nat, start: nat, n: nat)
    requires low <= start && (n > 0 ==> start + n <= high) && Frames(start, n) !! used
    ensures FreeRun(used, low, high, start, n)
  {
  }

  lemma {:induction false} NoneHigher(used: set<nat>, low: nat, high: nat, start: nat, i: nat, n: nat)
    requires i < n && start + i >= high && forall s: nat | s < start :: !FreeRun(used, low, high, s, n)
    ensures forall s: nat :: !FreeRun(used, low, high, s, n)
  {
  }

  /** No run starts so that it would cover the used frame `start + i`. */
  lemma {:induction false} NotOver(used: set<nat>, low: nat, high: nat, start: nat, i: nat, n: nat)
    requires i < n && start + i in used && forall s: nat | s < start :: !FreeRun(used, low, high, s, n)
    ensures forall s: nat | s < start + i + 1 :: !FreeRun(used, low, high, s, n)
  {
    forall s: nat | start <= s <= start + i
      ensures !FreeRun(used, low, high, s, n)
    {
      assert start + i in Frames(s, n);
    }
  }

  lemma {:induction false} NoFrames(start: nat)
    ensures Frames(start, 0) == {}
  {
  }

  // ----- the memory map -----

  const BOOT_SERVICES_CODE: nat := 3
  const BOOT_SERVICES_DATA: nat := 4
  const CONVENTIONAL_MEMORY: nat := 7

  datatype Descriptor = Descriptor(kind: nat, start: nat, pages: nat)

  predicate IsAvailable(d: Descriptor)
  {
    d.kind == BOOT_SERVICES_CODE || d.kind == BOOT_SERVICES_DATA || d.kind == CONVENTIONAL_MEMORY
  }

  /** Frame `f` lies in memory that is conventional, or no longer used once the boot services have ended. */
  ghost predicate Available(map_: seq<Descriptor>, f: nat)
  {
    exists i :: 0 <= i < |map_| && map_[i].kind in {BOOT_SERVICES_CODE, BOOT_SERVICES_DATA, CONVENTIONAL_MEMORY} && Covers(map_[i], f)
  }

  predicate Covers(d: Descriptor, f: nat)
  {
    d.start / BYTES_PER_FRAME <= f < d.start / BYTES_PER_FRAME + d.pages
  }

  /** Page-aligned areas in ascending order, below the memory the bitmap can describe. */
  ghost predicate Sorted(map_: seq<Descriptor>)
  {
    && (forall i | 0 <= i < |map_| :: map_[i].start % BYTES_PER_FRAME == 0
                                      && map_[i].start + map_[i].pages * BYTES_PER_FRAME <= FRAME_COUNT * BYTES_PER_FRAME)
    && (forall i, j | 0 <= i < j < |map_| :: map_[i].start + map_[i].pages * BYTES_PER_FRAME <= map_[j].start)
  }

  /** Below frame `end` exactly what is not available is in use, and nothing from frame `top` on is. */
  ghost predicate Scanned(map_: seq<Descriptor>, used: set<nat>, end: nat, top: nat)
  {
    && end <= top
    && (forall f: nat | f < end :: f in used <==> !Available(map_, f))
    && (forall f: nat | f >= end :: !Available(map_, f))
    && (forall f: nat | f in used :: f < top)
  }

  lemma {:induction false} ScanStep(map_: seq<Descriptor>, i: nat, used: set<nat>, end: nat, top: nat)
    requires Sorted(map_) && i < |map_| && Scanned(map_[..i], used, end, top) && top <= map_[i].start / BYTES_PER_FRAME
    ensures var d := map_[i];
            var first := d.start / BYTES_PER_FRAME;
            var gap := used + Frames(end, first - end);
            && end <= first
            && if IsAvailable(d) then Scanned(map_[..i + 1], gap, first + d.pages, first + d.pages)
               else Scanned(map_[..i + 1], gap + Frames(first, d.pages), end, first + d.pages)
  {
    hide Available, Frames;
    var d, first := map_[i], map_[i].start / BYTES_PER_FRAME;
    var less, more := map_[..i], map_[..i + 1];
    var end1 := if IsAvailable(d) then first + d.pages else end;
    var used1 := used + Frames(end, first - end) + (if IsAvailable(d) then {} else Frames(first, d.pages));
    forall f: nat
      ensures f < end1 ==> (f in used1 <==> !Available(more, f))
      ensures f >= end1 ==> !Available(more, f)
      ensures f in used1 ==> f < first + d.pages
    {
      OneMoreArea(map_, i, f);
      assert f in used ==> f < top;
    }
    assert Scanned(more, used1, end1, first + d.pages);
    assert IsAvailable(d) ==> used1 == used + Frames(end, first - end);
  }

  lemma {:induction false} OneMoreArea(map_: seq<Descriptor>, i: nat, f: nat)
    requires i < |map_|
    ensures Available(map_[..i + 1], f) <==> Available(map_[..i], f) || (IsAvailable(map_[i]) && Covers(map_[i], f))
  {
    var more, less := map_[..i + 1], map_[..i];
    var kinds := {BOOT_SERVICES_CODE, BOOT_SERVICES_DATA, CONVENTIONAL_MEMORY};
    if j :| 0 <= j < |more| && more[j].kind in kinds && Covers(more[j], f) {
      if j < i { assert less[j] == more[j]; }
    }
    if j :| 0 <= j < |less| && less[j].kind in kinds && Covers(less[j], f) { assert more[j] == less[j]; }
    if IsAvailable(map_[i]) && Covers(map_[i], f) { assert more[i] == map_[i]; }
  }

  /** InitializeMemoryManager up to the heap: a frame of the range is free iff it lies in an available area. */
  method InitializeMemoryManager(map_: seq<Descriptor>) returns (m: BitmapMemoryManager)
    requires Sorted(map_)
    ensures fresh(m) && m.Valid() && m.rangeBegin == 1
    ensures forall f: nat | f < m.rangeEnd :: f in m.Used() <==> !Available(map_, f)
    ensures forall f: nat | f >= m.rangeEnd :: !Available(map_, f)
  {
    hide Frames, Available;
    m := new BitmapMemoryManager();
    var availableEnd: nat := 0;
    var i := 0;
    ghost var top: nat := 0;
    NothingScanned();
    assert map_[..0] == [];
    while i < |map_|
      invariant 0 <= i <= |map_| && m.Valid() && fresh(m) && fresh(m.allocMap)
      invariant availableEnd % BYTES_PER_FRAME == 0 && 0 <= availableEnd <= FRAME_COUNT * BYTES_PER_FRAME
      invariant Scanned(map_[..i], m.Used(), availableEnd / BYTES_PER_FRAME, top)
      invariant i < |map_| ==> top <= map_[i].start / BYTES_PER_FRAME
    {
      var d := map_[i];
      ScanStep(map_, i, m.Used(), availableEnd / BYTES_PER_FRAME, top);
      if availableEnd < d.start {
        m.MarkAllocated(availableEnd / BYTES_PER_FRAME, (d.start - availableEnd) / BYTES_PER_FRAME);
      } else {
        NoFrames(availableEnd / BYTES_PER_FRAME);
      }
      var physicalEnd := d.start + d.pages * BYTES_PER_FRAME;
      if IsAvailable(d) {
        availableEnd := physicalEnd;
      } else {
        m.MarkAllocated(d.start / BYTES_PER_FRAME, d.pages * BYTES_PER_FRAME / BYTES_PER_FRAME);
      }
      top := d.start / BYTES_PER_FRAME + d.pages;
      i := i + 1;
    }
    assert map_[..|map_|] == map_;
    m.rangeBegin := 1;
    m.rangeEnd := availableEnd / BYTES_PER_FRAME;
  }

  lemma {:induction false} NothingScanned()
    ensures Scanned([], {}, 0, 0)
  {
  }
}
