/** The LinearAddress4Level union: a 64-bit address and its bit fields. */
module LinearAddresses {
  import opened PageTables

  type Offset = x: nat | x < 4096
  type High = x: nat | x < 65536

  datatype LinearAddress =
    LinearAddress(offset: Offset, page: Index, dir: Index, pdp: Index, pml4: Index, high: High)
  {
    function Part(level: nat): Index
      requires 1 <= level <= 4
    {
      match level
      case 1 => page
      case 2 => dir
      case 3 => pdp
      case _ => pml4
    }

    function SetPart(level: nat, value: nat): LinearAddress
      requires 1 <= level <= 4
    {
      match level
      case 1 => this.(page := value % ENTRIES)
      case 2 => this.(dir := value % ENTRIES)
      case 3 => this.(pdp := value % ENTRIES)
      case _ => this.(pml4 := value % ENTRIES)
    }

    /** The `value` member of the union. */
    function Value(): nat
    {
      offset + 4096 * (page + 512 * (dir + 512 * (pdp + 512 * (pml4 + 512 * high))))
    }
  }

  /** The fields the bits of a 64-bit value fall into. */
  function FromValue(v: nat): (a: LinearAddress)
    requires v < 0x1_0000_0000_0000_0000
  {
    LinearAddress(v % 4096, v / 4096 % 512, v / 4096 / 512 % 512, v / 4096 / 512 / 512 % 512,
                  v / 4096 / 512 / 512 / 512 % 512, v / 4096 / 512 / 512 / 512 / 512)
  }

  /** The table indices the processor uses at and below a level, most significant first. */
  function PathOf(a: LinearAddress, level: nat): (q: Path)
    requires level <= 4
    ensures |q| == level
  {
    if level == 0 then [] else [a.Part(level)] + PathOf(a, level - 1)
  }

  lemma {:induction false} ValueRoundTrip(v: nat, a: LinearAddress)
    requires v < 0x1_0000_0000_0000_0000
    ensures FromValue(v).Value() == v
    ensures a.Value() < 0x1_0000_0000_0000_0000 && FromValue(a.Value()) == a
  {
    var r0 := a.pml4 + 512 * a.high;
    var r1 := a.pdp + 512 * r0;
    var r2 := a.dir + 512 * r1;
    var r3 := a.page + 512 * r2;
    assert a.Value() % 4096 == a.offset && a.Value() / 4096 == r3;
    assert r3 % 512 == a.page && r3 / 512 == r2;
    assert r2 % 512 == a.dir && r2 / 512 == r1;
    assert r1 % 512 == a.pdp && r1 / 512 == r0;
    assert r0 % 512 == a.pml4 && r0 / 512 == a.high;
  }

  /** The page number of the four-index path is the address divided by the page size. */
  lemma {:induction false} PathNumber(a: LinearAddress)
    ensures Num(PathOf(a, 4)) == a.Value() / 4096 % 0x10_0000_0000
  {
    var q4, q3, q2, q1 := PathOf(a, 4), PathOf(a, 3), PathOf(a, 2), PathOf(a, 1);
    assert q4[1..] == q3 && q3[1..] == q2 && q2[1..] == q1 && q1[1..] == [];
    assert Pages(0) == 1 && Pages(1) == 512 && Pages(2) == 262144 && Pages(3) == 134217728;
    assert Num(q1) == a.page;
    assert Num(q2) == a.dir * 512 + a.page;
    assert Num(q3) == a.pdp * 262144 + a.dir * 512 + a.page;
    assert Num(q4) == a.pml4 * 134217728 + a.pdp * 262144 + a.dir * 512 + a.page;
    assert a.Value() / 4096 == Num(q4) + 0x10_0000_0000 * a.high;
  }

  lemma {:induction false} NoPath(a: LinearAddress)
    ensures Num(PathOf(a, 0)) == 0 && Pages(0) == 1
  {
  }

  lemma {:induction false} LastIndex(a: LinearAddress)
    ensures Num(PathOf(a, 1)) == a.Part(1)
  {
  }

  /** Stepping to the next entry of a level and clearing the lower parts moves to the first page
      of the next subtree. */
  function NextEntry(a: LinearAddress, level: nat): LinearAddress
    requires 1 <= level <= 4
  {
    ClearBelow(a.SetPart(level, a.Part(level) + 1), level - 1)
  }

  function ClearBelow(a: LinearAddress, level: nat): LinearAddress
    requires level <= 4
    decreases level
  {
    if level == 0 then a else ClearBelow(a.SetPart(level, 0), level - 1)
  }

  lemma {:induction false} ClearedPath(a: LinearAddress, level: nat)
    requires level <= 4
    ensures Num(PathOf(ClearBelow(a, level), level)) == 0
    ensures forall k | level < k <= 4 :: ClearBelow(a, level).Part(k) == a.Part(k)
    decreases level
  {
    if level > 0 {
      var b := a.SetPart(level, 0);
      ClearedPath(b, level - 1);
      assert PathOf(ClearBelow(a, level), level)[1..] == PathOf(ClearBelow(b, level - 1), level - 1);
    }
  }

  lemma {:induction false} NextEntryPath(a: LinearAddress, level: nat)
    requires 1 <= level <= 4 && a.Part(level) < 511
    ensures NextEntry(a, level).Part(level) == a.Part(level) + 1
    ensures Num(PathOf(NextEntry(a, level), level)) == (a.Part(level) + 1) * Pages(level - 1)
  {
    var b := a.SetPart(level, a.Part(level) + 1);
    ClearedPath(b, level - 1);
    assert PathOf(NextEntry(a, level), level)[1..] == PathOf(ClearBelow(b, level - 1), level - 1);
  }

  lemma {:induction false} NextEntryPart(a: LinearAddress, level: nat)
    requires 1 <= level <= 4 && a.Part(level) < 511
    ensures NextEntry(a, level).Part(level) == a.Part(level) + 1
  {
    NextEntryPath(a, level);
  }
}
