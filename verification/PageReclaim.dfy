/** What CleanPageMap gives back, and exactly when that is all the tree owns. */
module PageReclaim {
  import opened Basics
  import opened PageTables
  import opened PageMapping
  import opened LinearAddresses

  /** The frames freed by a sweep that starts at `a` and reuses the parts of `a` in every subtable. */
  ghost function Cleaned(m: Memory, f: Frame, level: nat, a: LinearAddress): set<Frame>
    requires level <= 4
    decreases level, 1
  {
    set i: Index, g | g in KidCleaned(m, f, level, a, i) :: g
  }

  ghost function KidCleaned(m: Memory, f: Frame, level: nat, a: LinearAddress, i: Index): set<Frame>
    requires level <= 4
    decreases level, 0
  {
    if level > 0 && a.Part(level) <= i && Child(m, f, i).Some? then
      Cleaned(m, Child(m, f, i).value, level - 1, a) + (if m[f][i].writable then {m[f][i].addr} else {})
    else {}
  }

  /** The frames of the entries before `i`. */
  ghost function CleanedBelow(m: Memory, f: Frame, level: nat, a: LinearAddress, n: nat): set<Frame>
    requires level <= 4
  {
    set i: Index, g | i < n && g in KidCleaned(m, f, level, a, i) :: g
  }

  lemma {:induction false} CleanedStep(m: Memory, f: Frame, level: nat, a: LinearAddress, i: Index)
    requires level <= 4
    ensures CleanedBelow(m, f, level, a, i + 1) == CleanedBelow(m, f, level, a, i) + KidCleaned(m, f, level, a, i)
  {
  }

  lemma {:induction false} CleanedEnds(m: Memory, f: Frame, level: nat, a: LinearAddress)
    requires 1 <= level <= 4
    ensures CleanedBelow(m, f, level, a, a.Part(level)) == {}
    ensures CleanedBelow(m, f, level, a, ENTRIES) == Cleaned(m, f, level, a)
  {
  }

  lemma {:induction false} CleanedFrames(m: Memory, f: Frame, level: nat, a: LinearAddress, lo: nat)
    requires level <= 4 && TreeOk(m, f, level, lo) && (level > 0 ==> lo <= a.Part(level))
    ensures Cleaned(m, f, level, a) <= Frames(m, f, level, lo) - {f}
    ensures forall i: Index :: KidCleaned(m, f, level, a, i) <= KidFrames(m, f, level, lo, i)
    decreases level
  {
    if level > 0 {
      forall i: Index
        ensures KidCleaned(m, f, level, a, i) <= KidFrames(m, f, level, lo, i)
      {
        if a.Part(level) <= i && Child(m, f, i).Some? {
          var c := Child(m, f, i).value;
          CleanedFrames(m, c, level - 1, a, 0);
          assert c in Frames(m, c, level - 1, 0);
        }
      }
      forall g | g in Cleaned(m, f, level, a)
        ensures g in Frames(m, f, level, lo) && g != f
      {
        var i: Index :| g in KidCleaned(m, f, level, a, i);
        assert g in KidFrames(m, f, level, lo, i);
      }
    }
  }

  lemma {:induction false} CleanedFraming(m: Memory, m': Memory, f: Frame, level: nat, a: LinearAddress, lo: nat)
    requires level <= 4 && (level > 0 ==> lo <= a.Part(level))
    requires SameOn(m, m', Tables(m, f, level, lo))
    ensures Cleaned(m', f, level, a) == Cleaned(m, f, level, a)
    decreases level
  {
    if level > 0 {
      assert f in Tables(m, f, level, lo);
      forall i: Index
        ensures KidCleaned(m', f, level, a, i) == KidCleaned(m, f, level, a, i)
      {
        assert Child(m', f, i) == Child(m, f, i);
        if a.Part(level) <= i && Child(m, f, i).Some? {
          KidInTables(m, f, level, lo, i);
          CleanedFraming(m, m', Child(m, f, i).value, level - 1, a, 0);
        }
      }
    }
  }

  /** What a visited entry gives back is new each time. */
  lemma {:induction false} CleanedApart(m: Memory, f: Frame, level: nat, a: LinearAddress, i: Index)
    requires 1 <= level <= 4 && TreeOk(m, f, level, a.Part(level))
    ensures KidCleaned(m, f, level, a, i) !! CleanedBelow(m, f, level, a, i)
    ensures KidCleaned(m, f, level, a, i) <= Cleaned(m, f, level, a)
  {
    hide TreeOk, Frames, Child;
    CleanedFrames(m, f, level, a, a.Part(level));
    forall j: Index | j < i
      ensures KidCleaned(m, f, level, a, i) !! KidCleaned(m, f, level, a, j)
    {
      KidsApart(m, f, level, a.Part(level), i, j);
    }
  }

  lemma {:induction false} CleanedChild(m: Memory, f: Frame, level: nat, a: LinearAddress, i: Index)
    requires 2 <= level <= 4 && TreeOk(m, f, level, a.Part(level))
    requires a.Part(level) <= i && m[f][i].present
    ensures TreeOk(m, m[f][i].addr, level - 1, a.Part(level - 1))
    ensures m[f][i].addr !in Cleaned(m, m[f][i].addr, level - 1, a)
    ensures KidCleaned(m, f, level, a, i) ==
            Cleaned(m, m[f][i].addr, level - 1, a) + (if m[f][i].writable then {m[f][i].addr} else {})
    ensures Tables(m, m[f][i].addr, level - 1, a.Part(level - 1)) <= KidTables(m, f, level, a.Part(level), i)
  {
    assert Child(m, f, i) == Some(m[f][i].addr);
    LaterStart(m, m[f][i].addr, level - 1, a.Part(level - 1));
    CleanedFrames(m, m[f][i].addr, level - 1, a, 0);
    FewerTables(m, m[f][i].addr, level - 1, a.Part(level - 1));
  }

  lemma {:induction false} FewerTables(m: Memory, f: Frame, level: nat, lo: nat)
    ensures Tables(m, f, level, lo) <= Tables(m, f, level, 0)
  {
    forall i: Index, g | g in KidTables(m, f, level, lo, i)
      ensures g in KidTables(m, f, level, 0, i)
    {
    }
  }

  ghost predicate LowerPartsZero(a: LinearAddress, level: nat)
    requires level <= 4
  {
    forall k | 1 <= k < level :: a.Part(k) == 0
  }

  /** A visited subtable holds an owning entry before the index the sweep starts at. */
  ghost predicate SkipsOwner(m: Memory, f: Frame, level: nat, a: LinearAddress)
    requires level <= 4
    decreases level, 1
  {
    exists i: Index :: KidSkips(m, f, level, a, i)
  }

  ghost predicate KidSkips(m: Memory, f: Frame, level: nat, a: LinearAddress, i: Index)
    requires level <= 4
    decreases level, 0
  {
    && level > 1 && a.Part(level) <= i && Child(m, f, i).Some?
    && (SkipsOwner(m, Child(m, f, i).value, level - 1, a)
        || OwnsBefore(m, Child(m, f, i).value, level - 1, a.Part(level - 1)))
  }

  ghost predicate OwnsBefore(m: Memory, f: Frame, level: nat, n: nat)
  {
    exists j: Index, g :: j < n && g in KidOwned(m, f, level, 0, j)
  }

  /** The frames below `f` the sweep is meant to give back: those of the entries from its start on. */
  ghost function Due(m: Memory, f: Frame, level: nat, a: LinearAddress): set<Frame>
    requires 1 <= level <= 4
  {
    Owned(m, f, level, a.Part(level))
  }

  lemma {:induction false} LaterStart(m: Memory, f: Frame, level: nat, lo: nat)
    requires TreeOk(m, f, level, 0)
    ensures TreeOk(m, f, level, lo)
    ensures forall j: Index | lo <= j :: KidFrames(m, f, level, lo, j) == KidFrames(m, f, level, 0, j)
    ensures forall j: Index | lo <= j :: KidOwned(m, f, level, lo, j) == KidOwned(m, f, level, 0, j)
    ensures forall j: Index | j < lo :: KidOwned(m, f, level, lo, j) == {}
  {
    assert forall j: Index | lo <= j :: KidFrames(m, f, level, lo, j) == KidFrames(m, f, level, 0, j);
  }

  lemma {:induction false} OwnedFrom(m: Memory, f: Frame, level: nat, lo: nat)
    requires TreeOk(m, f, level, 0)
    ensures Owned(m, f, level, lo) <= Owned(m, f, level, 0)
    ensures Owned(m, f, level, lo) == Owned(m, f, level, 0) <==> !OwnsBefore(m, f, level, lo)
  {
    LaterStart(m, f, level, lo);
    OwnedFrames(m, f, level, 0);
    forall g | g in Owned(m, f, level, lo)
      ensures g in Owned(m, f, level, 0)
    {
      var j: Index :| g in KidOwned(m, f, level, lo, j);
      assert g in KidOwned(m, f, level, 0, j);
    }
    if OwnsBefore(m, f, level, lo) {
      var j: Index, g :| j < lo && g in KidOwned(m, f, level, 0, j);
      assert g in KidFrames(m, f, level, 0, j);
      forall k: Index
        ensures g !in KidOwned(m, f, level, lo, k)
      {
        if lo <= k {
          KidsApart(m, f, level, 0, j, k);
          assert KidOwned(m, f, level, lo, k) <= KidFrames(m, f, level, 0, k);
        }
      }
      assert g in Owned(m, f, level, 0) && g !in Owned(m, f, level, lo);
    } else {
      forall g | g in Owned(m, f, level, 0)
        ensures g in Owned(m, f, level, lo)
      {
        var j: Index :| g in KidOwned(m, f, level, 0, j);
        assert g in KidOwned(m, f, level, lo, j);
      }
    }
  }

  /** The sweep frees only what it should, and it frees all of it iff it skips no owner. */
  lemma {:induction false} CleanComplete(m: Memory, f: Frame, level: nat, a: LinearAddress)
    requires 1 <= level <= 4 && TreeOk(m, f, level, a.Part(level))
    ensures Cleaned(m, f, level, a) <= Due(m, f, level, a)
    ensures Cleaned(m, f, level, a) == Due(m, f, level, a) <==> !SkipsOwner(m, f, level, a)
    decreases level
  {
    var lo := a.Part(level);
    forall i: Index
      ensures KidCleaned(m, f, level, a, i) <= KidOwned(m, f, level, lo, i)
      ensures KidCleaned(m, f, level, a, i) == KidOwned(m, f, level, lo, i) <==> !KidSkips(m, f, level, a, i)
    {
      KidComplete(m, f, level, a, i);
    }
    CollectKids(m, f, level, a);
  }

  lemma {:induction false} KidComplete(m: Memory, f: Frame, level: nat, a: LinearAddress, i: Index)
    requires 1 <= level <= 4 && TreeOk(m, f, level, a.Part(level))
    ensures KidCleaned(m, f, level, a, i) <= KidOwned(m, f, level, a.Part(level), i)
    ensures KidCleaned(m, f, level, a, i) == KidOwned(m, f, level, a.Part(level), i) <==> !KidSkips(m, f, level, a, i)
    decreases level, 0
  {
    var lo := a.Part(level);
    if lo <= i && Child(m, f, i).Some? && level > 1 {
      var c := Child(m, f, i).value;
      var n := a.Part(level - 1);
      LaterStart(m, c, level - 1, n);
      CleanComplete(m, c, level - 1, a);
      OwnedFrom(m, c, level - 1, n);
      OwnedFrames(m, c, level - 1, 0);
      assert c !in Owned(m, c, level - 1, 0);
    }
  }

  lemma {:induction false} CollectKids(m: Memory, f: Frame, level: nat, a: LinearAddress)
    requires 1 <= level <= 4 && TreeOk(m, f, level, a.Part(level))
    requires forall i: Index :: KidCleaned(m, f, level, a, i) <= KidOwned(m, f, level, a.Part(level), i)
    requires forall i: Index ::
               KidCleaned(m, f, level, a, i) == KidOwned(m, f, level, a.Part(level), i) <==> !KidSkips(m, f, level, a, i)
    ensures Cleaned(m, f, level, a) <= Due(m, f, level, a)
    ensures Cleaned(m, f, level, a) == Due(m, f, level, a) <==> !SkipsOwner(m, f, level, a)
  {
    hide TreeOk, Frames, Child;
    var lo := a.Part(level);
    OwnedFrames(m, f, level, lo);
    forall g | g in Cleaned(m, f, level, a)
      ensures g in Due(m, f, level, a)
    {
      var i: Index :| g in KidCleaned(m, f, level, a, i);
      assert g in KidOwned(m, f, level, lo, i);
    }
    if i: Index :| KidSkips(m, f, level, a, i) {
      var g :| g in KidOwned(m, f, level, lo, i) && g !in KidCleaned(m, f, level, a, i);
      assert g in KidFrames(m, f, level, lo, i);
      forall j: Index
        ensures g !in KidCleaned(m, f, level, a, j)
      {
        if i != j {
          KidsApart(m, f, level, lo, i, j);
          assert KidCleaned(m, f, level, a, j) <= KidFrames(m, f, level, lo, j);
        }
      }
      assert g in Due(m, f, level, a) && g !in Cleaned(m, f, level, a);
    } else {
      forall g | g in Due(m, f, level, a)
        ensures g in Cleaned(m, f, level, a)
      {
        var i: Index :| g in KidOwned(m, f, level, lo, i);
        assert !KidSkips(m, f, level, a, i);
        assert g in KidCleaned(m, f, level, a, i);
      }
    }
  }

  /** A start address whose lower parts are zero skips nothing. */
  lemma {:induction false} ZeroPartsSkipNothing(m: Memory, f: Frame, level: nat, a: LinearAddress)
    requires 1 <= level <= 4 && LowerPartsZero(a, level)
    ensures !SkipsOwner(m, f, level, a)
    decreases level
  {
    forall i: Index
      ensures !KidSkips(m, f, level, a, i)
    {
      if level > 1 && a.Part(level) <= i && Child(m, f, i).Some? {
        ZeroPartsSkipNothing(m, Child(m, f, i).value, level - 1, a);
      }
    }
  }

  /** Two tables and one page, swept from an address whose level-1 part is 1: the inner table is given
      back, the page it maps at entry 0 never is. */
  lemma {:induction false} LeakExample(m: Memory, a: LinearAddress)
    requires a == LinearAddress(0, 1, 0, 0, 0, 0)
    requires var owner := Entry(true, true, true, 0, 1, 0);
             m == [ZeroTable()[0 := owner], ZeroTable()[0 := owner.(addr := 2)], ZeroTable()]
    ensures TreeOk(m, 0, 2, 0) && 2 in Due(m, 0, 2, a) && 2 !in Cleaned(m, 0, 2, a)
    ensures SkipsOwner(m, 0, 2, a)
  {
    assert Child(m, 0, 0) == Some(1) && Child(m, 1, 0) == Some(2);
    assert forall i: Index | i != 0 :: Child(m, 0, i) == None && Child(m, 1, i) == None;
    assert Frames(m, 2, 0, 0) == {2};
    assert KidFrames(m, 1, 1, 0, 0) == {2};
    assert forall i: Index | i != 0 :: KidFrames(m, 1, 1, 0, i) == {} && KidFrames(m, 0, 2, 0, i) == {};
    assert forall g | g in KidFrames(m, 0, 2, 0, 0) :: g == 1 || g == 2;
    assert TreeOk(m, 1, 1, 0);
    assert 2 in KidOwned(m, 1, 1, 0, 0);
    assert 2 in KidOwned(m, 0, 2, 0, 0);
    assert forall i: Index :: KidCleaned(m, 1, 1, a, i) == {};
    assert forall i: Index :: 2 !in KidCleaned(m, 0, 2, a, i);
    assert OwnsBefore(m, 1, 1, 1);
    assert KidSkips(m, 0, 2, a, 0);
  }
}
