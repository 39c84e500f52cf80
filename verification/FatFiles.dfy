/** File descriptors over cluster chains (kernel/fat.cpp 240-322): reading, loading and writing, against the
    bytes of the file.  A cursor of the source is a cluster and an offset in it; the ghost index of that cluster in
    the chain ties it to a position in the file.  Writing follows the plan of WritePlans, which says for every
    input where the bytes go, and Apart says what a write leaves alone: all clusters of other files.  The ghost
    results of the methods are the chain afterwards and the index of the cursor in it. */
module FatFiles {
  import opened Basics
  import opened Division
  import opened ClusterChains
  import opened WritePlans
  import opened FileBytes
  import opened Fat

  class DirectoryEntry {
    var firstCluster: nat
    var fileSize: nat

    constructor (firstCluster: nat, fileSize: nat)
      ensures this.firstCluster == firstCluster && this.fileSize == fileSize
    {
      this.firstCluster, this.fileSize := firstCluster, fileSize;
    }
  }

  /** The cluster of number `i`, or the end mark behind the last one. */
  function ClusterAt(chain: seq<nat>, i: nat): nat
  {
    if i < |chain| then chain[i] else END_OF_CHAIN
  }

  function Sum(lens: seq<nat>): nat
  {
    if lens == [] then 0 else lens[0] + Sum(lens[1..])
  }

  /** From one state of the volume to the next only clusters of `ch` change, and those of them that are not in
      `chain` were free. */
  ghost predicate Apart(fat0: seq<nat>, fat1: seq<nat>, content0: seq<seq<Byte>>, content1: seq<seq<Byte>>,
                        chain: seq<nat>, ch: seq<nat>)
  {
    && |fat0| == |fat1| == |content0| == |content1| && chain <= ch
    && (forall c: nat | c < |fat0| && c !in ch :: fat1[c] == fat0[c] && content1[c] == content0[c])
    && (forall k | |chain| <= k < |ch| :: ch[k] < |fat0| && fat0[ch[k]] == 0)
  }

  class FileDescriptor {
    const volume: Volume
    const entry: DirectoryEntry
    var rdOff: nat
    var rdCluster: nat
    var rdClusterOff: nat
    var wrOff: nat
    var wrCluster: nat
    var wrClusterOff: nat

    constructor (volume: Volume, entry: DirectoryEntry)
      ensures this.volume == volume && this.entry == entry
      ensures rdOff == rdCluster == rdClusterOff == 0 && wrOff == wrCluster == wrClusterOff == 0
    {
      this.volume, this.entry := volume, entry;
      rdOff, rdCluster, rdClusterOff, wrOff, wrCluster, wrClusterOff := 0, 0, 0, 0, 0, 0;
    }

    /** The file lies on `chain`. */
    ghost predicate FileOk(chain: seq<nat>)
      reads entry, volume.fat, volume.content
    {
      && volume.Valid() && Within(chain, volume.content.Length)
      && (if chain == [] then entry.firstCluster == 0
          else Chain(volume.fat[..], chain) && chain[0] == entry.firstCluster)
      && entry.fileSize <= Start(|chain|, volume.bytesPerCluster)
    }

    /** The bytes of all clusters of the file. */
    ghost function Bytes(chain: seq<nat>): seq<Byte>
      requires Within(chain, volume.content.Length)
      reads volume.content
    {
      Flat(volume.content[..], chain)
    }

    /** The read cursor is at byte `rdOff`, or untouched. */
    ghost predicate ReadAt(chain: seq<nat>)
      reads this
    {
      (rdCluster == 0 && rdOff == 0 && rdClusterOff == 0) || exists i: nat :: ReadIn(chain, i)
    }

    ghost predicate ReadIn(chain: seq<nat>, i: nat)
      reads this
    {
      && i <= |chain| && chain != [] && rdCluster == ClusterAt(chain, i) && rdClusterOff < volume.bytesPerCluster
      && rdOff == Start(i, volume.bytesPerCluster) + rdClusterOff
    }

    /** The read cursor is at byte `p`, in cluster `i` or, for an empty file, nowhere. */
    ghost predicate Reading(chain: seq<nat>, i: nat, p: nat)
      reads this
    {
      if chain == [] then rdCluster == 0 && rdClusterOff == 0 && p == 0
      else i <= |chain| && rdCluster == ClusterAt(chain, i) && rdClusterOff < volume.bytesPerCluster
           && p == Start(i, volume.bytesPerCluster) + rdClusterOff
    }

    /** Reads up to `len` bytes from the cursor on. */
    method Read(len: nat, ghost chain: seq<nat>) returns (bytes: seq<Byte>)
      requires FileOk(chain) && ReadAt(chain) && rdOff <= entry.fileSize
      modifies this`rdOff, this`rdCluster, this`rdClusterOff
      ensures ReadAt(chain) && rdOff == old(rdOff) + Min(len, entry.fileSize - old(rdOff)) <= entry.fileSize
      ensures rdOff <= |Bytes(chain)| && bytes == Bytes(chain)[old(rdOff)..rdOff]
    {
      hide Start, FatOk, Flat, Sized, Chain;
      BytesSize(chain);
      ghost var i: nat := Enter(chain);
      if rdCluster == 0 {
        rdCluster := entry.firstCluster;
      }
      bytes, i := ReadLoop(Min(len, entry.fileSize - rdOff), chain, i);
      rdOff := rdOff + |bytes|;
      if chain != [] { assert ReadIn(chain, i); }
    }

    method ReadLoop(n: nat, ghost chain: seq<nat>, ghost i0: nat) returns (bytes: seq<Byte>, ghost i: nat)
      requires FileOk(chain) && Reading(chain, i0, rdOff) && rdOff + n <= entry.fileSize
      modifies this`rdCluster, this`rdClusterOff
      ensures |bytes| == n && rdOff + n <= |Bytes(chain)| && bytes == Bytes(chain)[rdOff..rdOff + n]
      ensures Reading(chain, i, rdOff + n)
    {
      hide Start, FatOk, Flat, Sized, Chain;
      BytesSize(chain);
      NoBytes(chain);
      bytes, i := [], i0;
      var total: nat := 0;
      while total < n
        invariant total == |bytes| <= n && Reading(chain, i, rdOff + total)
        invariant bytes == Bytes(chain)[rdOff..rdOff + total]
      {
        var k := Min(n - total, volume.bytesPerCluster - rdClusterOff);
        var d := Chunk(k, chain, i);
        bytes := bytes + d;
        total := total + k;
        i := Forward(k, chain, i);
      }
    }

    lemma {:induction false} NoBytes(chain: seq<nat>)
      requires FileOk(chain)
      ensures chain == [] ==> entry.fileSize == 0
    {
    }

    lemma {:induction false} BytesSize(chain: seq<nat>)
      requires FileOk(chain)
      ensures |Bytes(chain)| == Start(|chain|, volume.bytesPerCluster) && volume.bytesPerCluster > 0
    {
      FlatSize(volume.content[..], chain, volume.bytesPerCluster);
    }

    /** `k` bytes of the cluster the read cursor is in. */
    method Chunk(k: nat, ghost chain: seq<nat>, ghost i: nat) returns (d: seq<Byte>)
      requires FileOk(chain) && i < |chain| && rdCluster == chain[i] && rdClusterOff + k <= volume.bytesPerCluster
      ensures var p := Start(i, volume.bytesPerCluster) + rdClusterOff;
              |d| == k && p + k <= |Bytes(chain)| && d == Bytes(chain)[p..p + k]
    {
      FlatSlice(volume.content[..], chain, volume.bytesPerCluster, i, rdClusterOff, k);
      d := volume.content[rdCluster][rdClusterOff..rdClusterOff + k];
    }

    /** Moves the read cursor by `k` bytes within its cluster, or to the start of the next one. */
    method Forward(k: nat, ghost chain: seq<nat>, ghost i: nat) returns (ghost j: nat)
      requires FileOk(chain) && i < |chain| && rdCluster == chain[i] && rdClusterOff + k <= volume.bytesPerCluster
      modifies this`rdCluster, this`rdClusterOff
      ensures j <= |chain| && rdCluster == ClusterAt(chain, j) && rdClusterOff < volume.bytesPerCluster
      ensures Start(j, volume.bytesPerCluster) + rdClusterOff == Start(i, volume.bytesPerCluster) + old(rdClusterOff) + k
    {
      hide Start, FatOk, Flat;
      j := i;
      rdClusterOff := rdClusterOff + k;
      if rdClusterOff == volume.bytesPerCluster {
        NextStart(i, volume.bytesPerCluster);
        NextIs(volume.fat[..], chain, i);
        rdCluster := volume.NextCluster(rdCluster);
        rdClusterOff := 0;
        j := i + 1;
      }
    }

    /** Any sequence of reads gives what one read of their total length gives. */
    method ReadParts(lens: seq<nat>, ghost chain: seq<nat>) returns (bytes: seq<Byte>)
      requires FileOk(chain) && ReadAt(chain) && rdOff <= entry.fileSize
      modifies this`rdOff, this`rdCluster, this`rdClusterOff
      ensures ReadAt(chain) && rdOff == old(rdOff) + Min(Sum(lens), entry.fileSize - old(rdOff)) <= |Bytes(chain)|
      ensures bytes == Bytes(chain)[old(rdOff)..rdOff]
    {
      hide Start, FatOk, Flat, ReadAt, Chain;
      BytesSize(chain);
      SizeFits(chain);
      bytes := [];
      var i: nat := 0;
      assert lens[0..] == lens;
      while i < |lens|
        invariant i <= |lens| && ReadAt(chain) && old(rdOff) <= rdOff <= entry.fileSize
        invariant rdOff + Min(Sum(lens[i..]), entry.fileSize - rdOff) == old(rdOff) + Min(Sum(lens), entry.fileSize - old(rdOff))
        invariant bytes == Bytes(chain)[old(rdOff)..rdOff]
      {
        assert lens[i..][1..] == lens[i + 1..];
        label before:
        var d := Read(lens[i], chain);
        bytes := bytes + d;
        i := i + 1;
      }
      assert lens[|lens|..] == [];
    }

    lemma {:induction false} SizeFits(chain: seq<nat>)
      requires FileOk(chain)
      ensures entry.fileSize <= |Bytes(chain)|
    {
      BytesSize(chain);
    }

    /** Up to `len` bytes from `offset` on, for an offset within the file; the cursors stay. */
    method Load(len: nat, offset: nat, ghost chain: seq<nat>) returns (bytes: seq<Byte>)
      requires FileOk(chain) && offset <= entry.fileSize
      ensures var end := offset + Min(len, entry.fileSize - offset); end <= |Bytes(chain)| && bytes == Bytes(chain)[offset..end]
    {
      hide Start, FatOk, Flat, Chain;
      BytesSize(chain);
      var fd := new FileDescriptor(volume, entry);
      fd.rdOff := offset;
      var cluster := entry.firstCluster;
      var off: nat := offset;
      ghost var i: nat := 0;
      FirstStart(volume.bytesPerCluster);
      while off >= volume.bytesPerCluster
        invariant Start(i, volume.bytesPerCluster) + off == offset
        invariant if chain == [] then cluster == 0 && off == 0 else i <= |chain| && cluster == ClusterAt(chain, i)
        invariant fresh(fd) && fd.rdOff == offset && fd.volume == volume && fd.entry == entry && fd.rdClusterOff == fd.rdCluster == 0
      {
        NextStart(i, volume.bytesPerCluster);
        NextIs(volume.fat[..], chain, i);
        off := off - volume.bytesPerCluster;
        cluster := volume.NextCluster(cluster);
        i := i + 1;
      }
      fd.rdCluster := cluster;
      fd.rdClusterOff := off;
      if chain != [] { assert fd.ReadIn(chain, i); }
      bytes := fd.Read(len, chain);
    }

    /** The number of the cluster the read cursor is in, once it has entered the file. */
    ghost method Enter(chain: seq<nat>) returns (i: nat)
      requires FileOk(chain) && ReadAt(chain) && rdOff <= entry.fileSize
      ensures chain == [] ==> rdOff == entry.fileSize == 0 && rdClusterOff == 0 && (rdCluster == 0 && entry.firstCluster == 0)
      ensures chain != [] ==>
                i <= |chain| && (if rdCluster == 0 then entry.firstCluster else rdCluster) == ClusterAt(chain, i)
                && rdClusterOff < volume.bytesPerCluster && rdOff == Start(i, volume.bytesPerCluster) + rdClusterOff
    {
      hide FatOk;
      i := 0;
      if chain != [] && !(rdCluster == 0 && rdOff == 0 && rdClusterOff == 0) {
        i :| ReadIn(chain, i);
        if i < |chain| { assert 2 <= chain[i]; }
      }
    }

    // ----- writing -----

    /** The volume with a file on `chain`, without regard to the directory entry. */
    ghost predicate On(chain: seq<nat>)
      reads volume.fat, volume.content
    {
      volume.Valid() && Within(chain, volume.content.Length) && Chain(volume.fat[..], chain)
    }

    /** The write cursor is in cluster `i`. */
    ghost predicate WriteIn(chain: seq<nat>, i: nat)
      reads this
    {
      i < |chain| && wrCluster == chain[i] && wrClusterOff <= volume.bytesPerCluster
    }

    /** The write cursor is at byte `wrOff`, or untouched. */
    ghost predicate WriteAt(chain: seq<nat>, i: nat)
      reads this
    {
      if wrCluster == 0 then wrOff == 0 && wrClusterOff == 0 && i == 0
      else WriteIn(chain, i) && wrOff == Start(i, volume.bytesPerCluster) + wrClusterOff
    }

    ghost predicate Free(n: int)
      reads volume.fat
    {
      |FreeSet(volume.fat[..])| >= n
    }

    /** The first step of Write: the cursor enters the file, which gets its first clusters if it has none. */
    method EnterWrite(len: nat, ghost chain: seq<nat>, ghost i: nat) returns (ghost ch: seq<nat>)
      requires FileOk(chain) && WriteAt(chain, i) && Free(FirstCount(chain, len, volume.bytesPerCluster) - |chain|)
      modifies this`wrCluster, entry, volume.fat
      ensures On(ch) && WriteIn(ch, i) && chain <= ch && |ch| == FirstCount(chain, len, volume.bytesPerCluster)
      ensures ch[0] == entry.firstCluster && entry.fileSize == old(entry.fileSize)
      ensures Apart(old(volume.fat[..]), volume.fat[..], old(volume.content[..]), volume.content[..], chain, ch)
      ensures |FreeSet(volume.fat[..])| >= |FreeSet(old(volume.fat[..]))| - (|ch| - |chain|)
    {
      hide Sized, FatOk, Start, Apart, Chain;
      ch := chain;
      ghost var fat0 := volume.fat[..];
      SelfApart(volume.fat[..], volume.content[..], chain);
      assert volume.bytesPerCluster > 0 by { BytesSize(chain); }
      if wrCluster == 0 {
        if entry.firstCluster != 0 {
          wrCluster := entry.firstCluster;
        } else {
          NoFirst(volume.fat[..], chain);
          wrCluster, ch := volume.AllocateClusterChain(NumCluster(len, volume.bytesPerCluster));
          ChainWithin(volume.fat[..], ch);
          NewApart(fat0, volume.fat[..], volume.content[..], ch);
          entry.firstCluster := wrCluster;
        }
      } else {
        ChainNonempty(volume.fat[..], chain, i);
      }
    }

    /** Adds `n` clusters behind the last one, where the cursor is, and puts the cursor into the last of them. */
    method AddClusters(n: nat, ghost chain: seq<nat>, ghost i: nat) returns (ghost ch: seq<nat>)
      requires On(chain) && i + 1 == |chain| && wrCluster == chain[i] && Free(n)
      modifies this`wrCluster, volume.fat
      ensures On(ch) && chain <= ch && |ch| == |chain| + n && wrCluster == ch[|ch| - 1]
      ensures Apart(old(volume.fat[..]), volume.fat[..], old(volume.content[..]), volume.content[..], chain, ch)
      ensures |FreeSet(volume.fat[..])| >= |FreeSet(old(volume.fat[..]))| - n
    {
      hide Sized, FatOk, FreeSet, Apart, Within, Chain, Link;
      ghost var more := LowestFree(volume.fat[..], 2, n);
      LinkApart(volume.fat[..], volume.content[..], chain, n, more);
      ChainWithin(volume.fat[..], chain);
      wrCluster := volume.ExtendCluster(wrCluster, n, chain, i);
      ch := chain + more;
      ChainWithin(volume.fat[..], ch);
    }

    /** At the end of a cluster the cursor moves to the next one, or to the last of the clusters it adds for
        `rest` more bytes. */
    method MoveOn(rest: nat, ghost chain: seq<nat>, ghost i: nat) returns (ghost ch: seq<nat>, ghost j: nat)
      requires On(chain) && WriteIn(chain, i) && rest > 0 && volume.bytesPerCluster > 0
      requires Free(Moved(volume.bytesPerCluster, rest, i, wrClusterOff, |chain|).2 - |chain|)
      modifies this`wrCluster, this`wrClusterOff, volume.fat
      ensures On(ch) && WriteIn(ch, j) && chain <= ch
      ensures Apart(old(volume.fat[..]), volume.fat[..], old(volume.content[..]), volume.content[..], chain, ch)
      ensures (j, wrClusterOff, |ch|) == Moved(volume.bytesPerCluster, rest, i, old(wrClusterOff), |chain|)
      ensures |FreeSet(volume.fat[..])| >= |FreeSet(old(volume.fat[..]))| - (|ch| - |chain|)
    {
      hide Sized, FatOk, Start, FreeSet, Apart, Within, Chain, NumCluster;
      ch, j := chain, i;
      SelfApart(volume.fat[..], volume.content[..], chain);
      if wrClusterOff == volume.bytesPerCluster {
        NextIs(volume.fat[..], chain, i);
        ChainWithin(volume.fat[..], chain);
        var next := volume.NextCluster(wrCluster);
        if next == END_OF_CHAIN {
          AtEnd(volume.fat[..], chain, i);
          ch := AddClusters(NumCluster(rest, volume.bytesPerCluster), chain, i);
          CeilOne(rest, volume.bytesPerCluster);
          j := |ch| - 1;
        } else {
          wrCluster := next;
          j := i + 1;
        }
        wrClusterOff := 0;
      }
    }

    /** The memcpy of Write. */
    method CopyIn(d: seq<Byte>, ghost chain: seq<nat>, ghost i: nat)
      requires On(chain) && WriteIn(chain, i) && wrClusterOff + |d| <= volume.bytesPerCluster
      modifies this`wrClusterOff, volume.content
      ensures On(chain) && WriteIn(chain, i) && wrClusterOff == old(wrClusterOff) + |d|
      ensures var p := Start(i, volume.bytesPerCluster) + old(wrClusterOff);
              p + |d| <= |old(Bytes(chain))| && Bytes(chain) == Splice(old(Bytes(chain)), p, d)
      ensures Apart(old(volume.fat[..]), volume.fat[..], old(volume.content[..]), volume.content[..], chain, chain)
    {
      ghost var content0 := volume.content[..];
      ChainDistinct(volume.fat[..], chain);
      FlatWrite(content0, chain, volume.bytesPerCluster, i, wrClusterOff, d);
      volume.content[wrCluster] := Splice(volume.content[wrCluster], wrClusterOff, d);
      assert volume.content[..] == content0[chain[i] := Splice(content0[chain[i]], wrClusterOff, d)];
      wrClusterOff := wrClusterOff + |d|;
    }

    /** Where writing `len` bytes to the file puts them. */
    ghost function FilePlan(chain: seq<nat>, i: nat, len: nat): (p: Plan)
      requires volume.bytesPerCluster > 0 && wrClusterOff <= volume.bytesPerCluster
      reads this
      ensures p.count >= FirstCount(chain, len, volume.bytesPerCluster)
    {
      var n := FirstCount(chain, len, volume.bytesPerCluster);
      PlanGrows(volume.bytesPerCluster, len, len, i, wrClusterOff, n);
      WritePlan(volume.bytesPerCluster, len, len, i, wrClusterOff, n)
    }

    /** The bytes taken from `buf` so far are at their places, and what was before `base` still is. */
    ghost predicate Taken(buf: seq<Byte>, places: seq<nat>, chain: seq<nat>, i: nat, before: seq<Byte>)
      requires Within(chain, volume.content.Length)
      reads this, volume.content
    {
      PlacedIn(Bytes(chain), buf, places, before, Start(i, volume.bytesPerCluster) + wrClusterOff)
    }

    /** What of the file lies before the write cursor. */
    ghost function Before(chain: seq<nat>, i: nat): (b: seq<Byte>)
      requires FileOk(chain) && WriteAt(chain, i)
      reads this, entry, volume.fat, volume.content
      ensures |b| == wrOff && b <= Bytes(chain)
    {
      BytesSize(chain);
      if wrCluster != 0 then
        NextStart(i, volume.bytesPerCluster);
        StartGrows(i + 1, |chain|, volume.bytesPerCluster);
        Bytes(chain)[..wrOff]
      else []
    }

    /** The plan for the bytes of `buf` from `total` on. */
    ghost predicate Planned(p: Plan, len: nat, total: nat, chain: seq<nat>, i: nat)
      reads this
    {
      && 0 < volume.bytesPerCluster && wrClusterOff <= volume.bytesPerCluster && total <= len
      && p == WritePlan(volume.bytesPerCluster, len, len - total, i, wrClusterOff, |chain|)
    }

    lemma {:induction false} Position(chain: seq<nat>, i: nat, len: nat)
      requires FileOk(chain) && WriteAt(chain, i)
      ensures wrClusterOff <= volume.bytesPerCluster && volume.bytesPerCluster > 0
      ensures wrOff == Start(i, volume.bytesPerCluster) + wrClusterOff
      ensures i < FirstCount(chain, len, volume.bytesPerCluster)
    {
      BytesSize(chain);
      FirstStart(volume.bytesPerCluster);
    }

    /** One turn of the loop of Write. */
    method WriteChunk(buf: seq<Byte>, total: nat, ghost chain: seq<nat>, ghost i: nat, ghost places: seq<nat>, ghost before: seq<Byte>,
                      ghost p: Plan)
      returns (n: nat, ok: bool, ghost ch: seq<nat>, ghost j: nat, ghost q: Plan, ghost new_: seq<nat>)
      requires On(chain) && WriteIn(chain, i) && total < |buf| && |places| == total
      requires Taken(buf, places, chain, i, before) && Planned(p, |buf|, total, chain, i) && Free(p.count - |chain|)
      modifies this`wrCluster, this`wrClusterOff, volume.fat, volume.content
      ensures On(ch) && WriteIn(ch, j) && chain <= ch
      ensures Apart(old(volume.fat[..]), volume.fat[..], old(volume.content[..]), volume.content[..], chain, ch)
      ensures |FreeSet(volume.fat[..])| >= |FreeSet(old(volume.fat[..]))| - (|ch| - |chain|)
      ensures !ok ==> !p.ok
      ensures ok ==> Ends(new_, Start(j, volume.bytesPerCluster) + wrClusterOff)
      ensures ok ==> 0 < n <= |buf| - total && |new_| == n && p == q.(places := new_ + q.places)
      ensures ok ==> Taken(buf, places + new_, ch, j, before) && Planned(q, |buf|, total + n, ch, j) && Free(q.count - |ch|)
    {
      hide Start, Sized, FatOk, Flat, FreeSet, Chain, PlacedIn, NumCluster, Moved, WritePlan, Places, Apart, Within;
      ghost var rest := |buf| - total;
      ghost var f, end := Bytes(chain), Start(i, volume.bytesPerCluster) + wrClusterOff;
      ghost var fat0, content0 := volume.fat[..], volume.content[..];
      PlanStep(volume.bytesPerCluster, |buf|, rest, i, wrClusterOff, |chain|);
      ch, j := MoveOn(|buf| - total, chain, i);
      n := Min(|buf|, volume.bytesPerCluster - wrClusterOff);
      if n > |buf| - total {
        return n, false, ch, j, p, [];
      }
      MoreBytes(volume.content[..], chain, ch);
      ghost var more := Bytes(ch)[|f|..];
      PlacedLonger(f, buf, places, before, end, more, Start(j, volume.bytesPerCluster) + wrClusterOff);
      assert Bytes(ch) == f + more;
      var d := buf[total..total + n];
      ghost var at, g := Start(j, volume.bytesPerCluster) + wrClusterOff, Bytes(ch);
      ghost var fat1 := volume.fat[..];
      CopyIn(d, ch, j);
      ChainDistinct(volume.fat[..], ch);
      ApartTwice(fat0, fat1, volume.fat[..], content0, content0, volume.content[..], chain, ch, ch);
      PlacedMore(g, buf, places, before, at, at, d);
      q := WritePlan(volume.bytesPerCluster, |buf|, rest - n, j, wrClusterOff, |ch|);
      new_ := Places(at, n);
      ok := true;
    }

    /** The loop of Write, once the cursor has entered the file. */
    method WriteLoop(buf: seq<Byte>, ghost chain: seq<nat>, ghost i: nat, ghost before: seq<Byte>, ghost plan: Plan)
      returns (total: nat, ok: bool, ghost ch: seq<nat>, ghost k: nat)
      requires On(chain) && WriteIn(chain, i)
      requires Taken(buf, [], chain, i, before) && Planned(plan, |buf|, 0, chain, i) && Free(plan.count - |chain|)
      modifies this`wrCluster, this`wrClusterOff, volume.fat, volume.content
      ensures On(ch) && WriteIn(ch, k) && chain <= ch
      ensures Apart(old(volume.fat[..]), volume.fat[..], old(volume.content[..]), volume.content[..], chain, ch)
      ensures |FreeSet(volume.fat[..])| >= |FreeSet(old(volume.fat[..]))| - (|ch| - |chain|)
      ensures ok <==> plan.ok
      ensures ok ==> (k, wrClusterOff, |ch|) == (plan.i, plan.off, plan.count)
      ensures ok ==> total == |buf| == |plan.places| && Taken(buf, plan.places, ch, k, before)
      ensures |buf| == 0 ==> k == i && wrClusterOff == old(wrClusterOff)
      ensures ok && |buf| > 0 ==> Ends(plan.places, Start(k, volume.bytesPerCluster) + wrClusterOff)
    {
      hide Start, Sized, FatOk, Flat, Chain, WritePlan, PlacedIn, NumCluster, Apart, FreeSet, Within;
      ghost var fat0, content0 := volume.fat[..], volume.content[..];
      SelfApart(fat0, content0, chain);
      ch, k, ok := chain, i, true;
      total := 0;
      ghost var places, p := [], plan;
      while total < |buf| && ok
        invariant On(ch) && WriteIn(ch, k) && chain <= ch && total <= |buf|
        invariant Apart(fat0, volume.fat[..], content0, volume.content[..], chain, ch)
        invariant |FreeSet(volume.fat[..])| >= |FreeSet(fat0)| - (|ch| - |chain|)
        invariant |buf| == 0 ==> k == i && wrClusterOff == old(wrClusterOff)
        invariant ok && total > 0 ==> Ends(places, Start(k, volume.bytesPerCluster) + wrClusterOff)
        invariant if ok then |places| == total && Taken(buf, places, ch, k, before) && Planned(p, |buf|, total, ch, k)
                             && Free(p.count - |ch|) && plan == p.(places := places + p.places)
                  else !plan.ok
        decreases |buf| - total, ok
      {
        ghost var fat1, content1, ch1 := volume.fat[..], volume.content[..], ch;
        ghost var new_: seq<nat>, q: Plan;
        var n: nat;
        n, ok, ch, k, q, new_ := WriteChunk(buf, total, ch1, k, places, before, p);
        ChainDistinct(volume.fat[..], ch);
        ApartTwice(fat0, fat1, volume.fat[..], content0, content1, volume.content[..], chain, ch1, ch);
        if ok {
          assert places + (new_ + q.places) == places + new_ + q.places;
          total, places, p := total + n, places + new_, q;
        }
      }
      if ok {
        NoMore(volume.bytesPerCluster, |buf|, k, wrClusterOff, |ch|);
        assert plan.places == places;
      }
    }

    /** Writes `buf`. `ok` is false where the source would go on to read behind the buffer. Otherwise the
        bytes go where `plan` says, and that is directly behind what was written before iff at most one
        cluster more than the file has is needed. */
    method Write(buf: seq<Byte>, ghost chain: seq<nat>, ghost i: nat)
      returns (total: nat, ok: bool, ghost ch: seq<nat>, ghost k: nat, ghost plan: Plan)
      requires FileOk(chain) && WriteAt(chain, i)
      requires Free(FilePlan(chain, i, |buf|).count - |chain|)
      modifies this`wrCluster, this`wrClusterOff, this`wrOff, entry, volume.fat, volume.content
      ensures plan == old(FilePlan(chain, i, |buf|))
      ensures ok <==> WithinBuffer(volume.bytesPerCluster, |buf|, old(wrClusterOff))
      ensures On(ch) && chain <= ch && ch[0] == entry.firstCluster && WriteIn(ch, k)
      ensures Apart(old(volume.fat[..]), volume.fat[..], old(volume.content[..]), volume.content[..], chain, ch)
      ensures ok ==> total == |buf| && wrOff == old(wrOff) + total && entry.fileSize == wrOff % 0x1_0000_0000
      ensures ok ==> |plan.places| == total && Taken(buf, plan.places, ch, k, old(Before(chain, i)))
      ensures ok ==> (Contiguous(plan.places, old(wrOff)) <==>
                      old(WithinOneMore(volume.bytesPerCluster, |buf|, i, wrClusterOff, FirstCount(chain, |buf|, volume.bytesPerCluster))))
      ensures ok && Contiguous(plan.places, old(wrOff)) ==>
                wrOff <= |Bytes(ch)| && Bytes(ch)[..wrOff] == old(Before(chain, i)) + buf && WriteAt(ch, k)
      ensures |FreeSet(volume.fat[..])| >= |FreeSet(old(volume.fat[..]))| - (|ch| - |chain|)
      ensures ok ==> |ch| == plan.count
      ensures ok && total > 0 && Contiguous(plan.places, old(wrOff)) ==>
                |ch| == Max(|chain|, NumCluster(wrOff, volume.bytesPerCluster))
    {
      hide Start, Sized, FatOk, Flat, Chain, WritePlan, PlacedIn, NumCluster, Apart, FreeSet, Within, WithinBuffer, WithinOneMore, Contiguous, Ends;
      Position(chain, i, |buf|);
      ghost var f, before := Bytes(chain), Before(chain, i);
      plan := FilePlan(chain, i, |buf|);
      PlanExact(volume.bytesPerCluster, |buf|, i, wrClusterOff, FirstCount(chain, |buf|, volume.bytesPerCluster));
      ghost var fat0, content0 := volume.fat[..], volume.content[..];
      ghost var ch1 := EnterWrite(|buf|, chain, i);
      ghost var fat1 := volume.fat[..];
      MoreBytes(content0, chain, ch1);
      StartPlaced(f, Bytes(ch1), buf, before, Start(i, volume.bytesPerCluster) + wrClusterOff);
      total, ok, ch, k := WriteLoop(buf, ch1, i, before, plan);
      ChainDistinct(volume.fat[..], ch);
      ApartTwice(fat0, fat1, volume.fat[..], content0, content0, volume.content[..], chain, ch1, ch);
      if ok {
        wrOff := wrOff + total;
        entry.fileSize := wrOff % 0x1_0000_0000;
        if Contiguous(plan.places, |before|) {
          ChainNonempty(volume.fat[..], ch, k);
          if |buf| > 0 {
            CountExact(chain, |buf|, i, old(wrClusterOff), volume.bytesPerCluster);
            EndsAt(plan.places, |before|, Start(k, volume.bytesPerCluster) + wrClusterOff);
          }
          PlacedAll(Bytes(ch), buf, plan.places, before, Start(k, volume.bytesPerCluster) + wrClusterOff);
        }
      }
    }

    /** Writes parts one after the other, none across a cluster boundary; the chain grows as needed. */
    method WriteParts(parts: seq<seq<Byte>>, ghost chain: seq<nat>, ghost i: nat) returns (ghost ch: seq<nat>, ghost k: nat)
      requires FileOk(chain) && WriteAt(chain, i) && Free(|parts|)
      requires Uncrossed(wrOff, parts, volume.bytesPerCluster) && wrOff + |Concat(parts)| < 0x1_0000_0000
      modifies this`wrCluster, this`wrClusterOff, this`wrOff, entry, volume.fat, volume.content
      ensures FileOk(ch) && WriteAt(ch, k) && Before(ch, k) == old(Before(chain, i)) + Concat(parts)
      ensures parts != [] ==> entry.fileSize == wrOff
    {
      hide Start, Sized, FatOk, Flat, Chain, WritePlan, Apart, FreeSet, Within;
      ch, k := chain, i;
      var j: nat := 0;
      assert parts[0..] == parts;
      ghost var before := Before(chain, i);
      while j < |parts|
        invariant j <= |parts| && FileOk(ch) && WriteAt(ch, k) && Free(|parts| - j)
        invariant Uncrossed(wrOff, parts[j..], volume.bytesPerCluster) && wrOff + |Concat(parts[j..])| < 0x1_0000_0000
        invariant Before(ch, k) + Concat(parts[j..]) == before + Concat(parts)
        invariant j > 0 ==> entry.fileSize == wrOff
      {
        assert parts[j..][1..] == parts[j + 1..];
        ghost var b, rest := Before(ch, k), Concat(parts[j + 1..]);
        ch, k := WritePart(parts[j], ch, k);
        assert b + (parts[j] + rest) == b + parts[j] + rest;
        j := j + 1;
      }
      assert parts[|parts|..] == [];
    }

    /** One write within a cluster. */
    method WritePart(part: seq<Byte>, ghost chain: seq<nat>, ghost i: nat) returns (ghost ch: seq<nat>, ghost k: nat)
      requires FileOk(chain) && WriteAt(chain, i) && Free(1) && wrOff + |part| < 0x1_0000_0000
      requires volume.bytesPerCluster > 0 && wrOff % volume.bytesPerCluster + |part| <= volume.bytesPerCluster
      modifies this`wrCluster, this`wrClusterOff, this`wrOff, entry, volume.fat, volume.content
      ensures FileOk(ch) && WriteAt(ch, k) && Before(ch, k) == old(Before(chain, i)) + part
      ensures wrOff == old(wrOff) + |part| == entry.fileSize
      ensures |FreeSet(volume.fat[..])| >= |FreeSet(old(volume.fat[..]))| - 1
    {
      hide Start, Sized, FatOk, Flat, Chain, WritePlan, Apart, FreeSet, Within, WithinBuffer, WithinOneMore, FilePlan, PlacedIn;
      WriteOne(part, chain, i);
      var total, ok;
      ghost var plan;
      total, ok, ch, k, plan := Write(part, chain, i);
      AfterWrite(ch, k);
    }

    lemma {:induction false} WriteOne(part: seq<Byte>, chain: seq<nat>, i: nat)
      requires FileOk(chain) && WriteAt(chain, i) && wrOff % volume.bytesPerCluster + |part| <= volume.bytesPerCluster
      ensures wrClusterOff <= volume.bytesPerCluster && i < FirstCount(chain, |part|, volume.bytesPerCluster)
      ensures WithinBuffer(volume.bytesPerCluster, |part|, wrClusterOff)
      ensures WithinOneMore(volume.bytesPerCluster, |part|, i, wrClusterOff, FirstCount(chain, |part|, volume.bytesPerCluster))
      ensures FilePlan(chain, i, |part|).count <= |chain| + 1
    {
      hide Start, WritePlan, NumCluster, WithinBuffer, WithinOneMore;
      Position(chain, i, |part|);
      OffsetIs(i, wrClusterOff, volume.bytesPerCluster);
      if |part| > 0 { CeilOne(|part|, volume.bytesPerCluster); } else { NoCluster(volume.bytesPerCluster); }
      PlanShort(volume.bytesPerCluster, |part|, i, wrClusterOff, FirstCount(chain, |part|, volume.bytesPerCluster));
    }

    lemma {:induction false} AfterWrite(ch: seq<nat>, k: nat)
      requires On(ch) && ch[0] == entry.firstCluster && WriteAt(ch, k) && WriteIn(ch, k)
      requires wrOff <= |Bytes(ch)| && entry.fileSize == wrOff
      ensures FileOk(ch) && Before(ch, k) == Bytes(ch)[..wrOff]
    {
      FlatSize(volume.content[..], ch, volume.bytesPerCluster);
      ChainNonempty(volume.fat[..], ch, k);
    }
  }

  lemma {:induction false} FirstStart(bpc: nat)
    ensures Start(0, bpc) == 0
  {
  }

  /** How many clusters a file has once writing `len` bytes to it has begun. */
  function FirstCount(chain: seq<nat>, len: nat, bpc: nat): (n: nat)
    requires bpc > 0
    ensures n >= |chain| && n > 0
  {
    if chain != [] then |chain| else if NumCluster(len, bpc) > 1 then NumCluster(len, bpc) else 1
  }

  /** A write that goes where it should leaves as many clusters as the bytes need, or as there were. */
  lemma {:induction false} CountExact(chain: seq<nat>, len: nat, i: nat, off: nat, bpc: nat)
    requires bpc > 0 && off <= bpc && len > 0 && i < FirstCount(chain, len, bpc) && (chain == [] ==> i == 0 && off == 0)
    ensures var p := WritePlan(bpc, len, len, i, off, FirstCount(chain, len, bpc));
            p.ok && Start(p.i, bpc) + p.off == Start(i, bpc) + off + len ==>
              p.count == Max(|chain|, NumCluster(Start(i, bpc) + off + len, bpc))
  {
    hide WritePlan, NumCluster, Start;
    var p := WritePlan(bpc, len, len, i, off, FirstCount(chain, len, bpc));
    PlanCount(bpc, len, len, i, off, FirstCount(chain, len, bpc));
    PlanGrows(bpc, len, len, i, off, FirstCount(chain, len, bpc));
    FirstStart(bpc);
    CeilOne(len, bpc);
    if p.ok { ClustersBefore(bpc, p.i, p.off); }
  }

  ghost predicate Ends(places: seq<nat>, end: nat)
  {
    places != [] && places[|places| - 1] + 1 == end
  }

  ghost predicate PlacedIn(f: seq<Byte>, buf: seq<Byte>, places: seq<nat>, before: seq<Byte>, end: nat)
  {
    && |places| <= |buf| && before <= f && |before| <= end
    && forall j | 0 <= j < |places| :: places[j] < end && places[j] < |f| && f[places[j]] == buf[j]
  }

  /** The bytes of one more memcpy, from position `p` on. */
  lemma {:induction false} PlacedMore(f: seq<Byte>, buf: seq<Byte>, places: seq<nat>, before: seq<Byte>, end: nat,
                                      p: nat, d: seq<Byte>)
    requires PlacedIn(f, buf, places, before, end) && end <= p && p + |d| <= |f|
    requires |places| + |d| <= |buf| && d == buf[|places|..|places| + |d|]
    ensures PlacedIn(Splice(f, p, d), buf, places + Places(p, |d|), before, p + |d|)
  {
    var g, s := Splice(f, p, d), places + Places(p, |d|);
    forall j | 0 <= j < |s|
      ensures s[j] < p + |d| && s[j] < |g| && g[s[j]] == buf[j]
    {
      if j >= |places| { assert s[j] == p + (j - |places|); }
    }
  }

  lemma {:induction false} PlacedLonger(f: seq<Byte>, buf: seq<Byte>, places: seq<nat>, before: seq<Byte>, end: nat,
                                        more: seq<Byte>, end1: nat)
    requires PlacedIn(f, buf, places, before, end) && end <= end1
    ensures PlacedIn(f + more, buf, places, before, end1)
  {
  }

  /** Bytes placed one behind the other from `p` on are the bytes of the file there. */
  lemma {:induction false} PlacedAll(f: seq<Byte>, buf: seq<Byte>, places: seq<nat>, before: seq<Byte>, end: nat)
    requires PlacedIn(f, buf, places, before, end) && |places| == |buf| && Contiguous(places, |before|)
    ensures |before| + |buf| <= |f| && f[..|before| + |buf|] == before + buf
  {
    var n := |before| + |buf|;
    assert |buf| > 0 ==> places[|buf| - 1] == n - 1;
    forall q | 0 <= q < n
      ensures f[q] == (before + buf)[q]
    {
      if q >= |before| { assert places[q - |before|] == q; }
    }
  }

  lemma {:induction false} ChainNonempty(fat: seq<nat>, chain: seq<nat>, i: nat)
    requires i < |chain| && Chain(fat, chain)
    ensures chain[i] != 0
  {
  }

  lemma {:induction false} SelfApart(fat: seq<nat>, content: seq<seq<Byte>>, chain: seq<nat>)
    requires |fat| == |content|
    ensures Apart(fat, fat, content, content, chain, chain)
  {
  }

  lemma {:induction false} NewApart(fat0: seq<nat>, fat1: seq<nat>, content: seq<seq<Byte>>, ch: seq<nat>)
    requires |fat0| == |fat1| == |content| && ch == LowestFree(fat0, 2, |ch|)
    requires forall c: nat | c < |fat0| && c !in ch :: fat1[c] == fat0[c]
    ensures Apart(fat0, fat1, content, content, [], ch)
  {
    FreeAre(fat0, 2, |ch|);
  }

  lemma {:induction false} LinkApart(fat: seq<nat>, content: seq<seq<Byte>>, chain: seq<nat>, n: nat, more: seq<nat>)
    requires FatOk(fat) && Chain(fat, chain) && |fat| == |content| && more == LowestFree(fat, 2, n)
    ensures (forall k | 0 <= k < |more| :: more[k] < |fat|) && Apart(fat, Link(fat, Last(chain), more), content, content, chain, chain + more)
  {
    FreeAre(fat, 2, n);
    LinkSize(fat, Last(chain), more);
    forall c: nat | c < |fat| && c !in chain + more
      ensures Link(fat, Last(chain), more)[c] == fat[c]
    {
      assert Last(chain) in chain;
      LinkFrame(fat, Last(chain), more, c);
    }
    assert forall k | |chain| <= k < |chain + more| :: (chain + more)[k] == more[k - |chain|];
  }

  lemma {:induction false} ApartTwice(fat0: seq<nat>, fat1: seq<nat>, fat2: seq<nat>, content0: seq<seq<Byte>>,
                                      content1: seq<seq<Byte>>, content2: seq<seq<Byte>>,
                                      a: seq<nat>, b: seq<nat>, c: seq<nat>)
    requires Apart(fat0, fat1, content0, content1, a, b) && Apart(fat1, fat2, content1, content2, b, c) && Distinct(c)
    ensures Apart(fat0, fat2, content0, content2, a, c)
  {
    assert forall k | 0 <= k < |b| :: b[k] == c[k];
    forall k | |a| <= k < |c|
      ensures c[k] < |fat0| && fat0[c[k]] == 0
    {
      if k < |b| { assert b[k] == c[k]; } else { assert c[k] !in b; }
    }
  }

  /** A file on a chain of its own keeps its chain and its bytes. */
  lemma {:induction false} OtherFile(fat0: seq<nat>, fat1: seq<nat>, content0: seq<seq<Byte>>, content1: seq<seq<Byte>>,
                                     chain: seq<nat>, ch: seq<nat>, d: seq<nat>)
    requires FatOk(fat0) && Apart(fat0, fat1, content0, content1, chain, ch) && Chain(fat0, d)
    requires forall i | 0 <= i < |d| :: d[i] !in chain
    ensures Chain(fat1, d) && Within(d, |content0|) && Flat(content1, d) == Flat(content0, d)
  {
    forall i | 0 <= i < |d|
      ensures d[i] !in ch
    {
      EntryNonzero(fat0, d, i);
      forall k | 0 <= k < |ch|
        ensures ch[k] != d[i]
      {
        if k < |chain| { assert ch[k] == chain[k]; }
      }
    }
    SameFlat(content0, content1, d);
  }

  lemma {:induction false} SameFlat(content0: seq<seq<Byte>>, content1: seq<seq<Byte>>, d: seq<nat>)
    requires |content0| == |content1| && Within(d, |content0|) && forall i | 0 <= i < |d| :: content1[d[i]] == content0[d[i]]
    ensures Flat(content1, d) == Flat(content0, d)
  {
    if d != [] { SameFlat(content0, content1, d[1..]); }
  }

  lemma {:induction false} NoMore(bpc: nat, len: nat, i: nat, off: nat, count: nat)
    requires bpc > 0 && off <= bpc
    ensures WritePlan(bpc, len, 0, i, off, count) == Plan(true, [], i, off, count)
  {
  }

  lemma {:induction false} StartPlaced(f: seq<Byte>, g: seq<Byte>, buf: seq<Byte>, before: seq<Byte>, end: nat)
    requires before <= f <= g && |before| <= end
    ensures PlacedIn(g, buf, [], before, end)
  {
  }

  lemma {:induction false} EndsAt(places: seq<nat>, p: nat, end: nat)
    requires Contiguous(places, p) && Ends(places, end)
    ensures end == p + |places|
  {
  }

  function Concat(parts: seq<seq<Byte>>): seq<Byte>
  {
    if parts == [] then [] else parts[0] + Concat(parts[1..])
  }

  /** Written from position `p` on, no part crosses a cluster boundary. */
  predicate Uncrossed(p: nat, parts: seq<seq<Byte>>, bpc: nat)
    decreases |parts|
  {
    parts == []
    || (bpc > 0 && p % bpc + |parts[0]| <= bpc && Uncrossed(p + |parts[0]|, parts[1..], bpc))
  }

  lemma {:induction false} OffsetIs(i: nat, off: nat, bpc: nat)
    requires bpc > 0 && off <= bpc
    ensures (Start(i, bpc) + off) % bpc == if off == bpc then 0 else off
  {
    if off == bpc {
      NextStart(i, bpc);
      DivUnique(Start(i, bpc) + off, bpc, i + 1, 0);
    } else {
      DivUnique(Start(i, bpc) + off, bpc, i, off);
    }
  }

  lemma {:induction false} NoCluster(bpc: nat)
    requires bpc > 0
    ensures NumCluster(0, bpc) == 0
  {
    DivUnique(bpc - 1, bpc, 0, bpc - 1);
  }

  /** What is written in parts through a new descriptor is what another new descriptor reads. */
  method RoundTrip(volume: Volume, entry: DirectoryEntry, parts: seq<seq<Byte>>, ghost chain: seq<nat>) returns (bytes: seq<Byte>)
    requires volume.Valid() && Within(chain, volume.content.Length) && entry.fileSize <= Start(|chain|, volume.bytesPerCluster)
    requires if chain == [] then entry.firstCluster == 0 else Chain(volume.fat[..], chain) && chain[0] == entry.firstCluster
    requires parts != [] && |FreeSet(volume.fat[..])| >= |parts|
    requires Uncrossed(0, parts, volume.bytesPerCluster) && |Concat(parts)| < 0x1_0000_0000
    modifies entry, volume.fat, volume.content
    ensures bytes == Concat(parts)
  {
    hide FatOk, Flat, Sized, FreeSet, Concat, Start;
    FirstStart(volume.bytesPerCluster);
    var out := new FileDescriptor(volume, entry);
    ghost var ch, k := out.WriteParts(parts, chain, 0);
    var fd := new FileDescriptor(volume, entry);
    out.BytesSize(ch);
    bytes := fd.Read(entry.fileSize, ch);
  }

  lemma {:induction false} MoreBytes(content: seq<seq<Byte>>, chain: seq<nat>, ch: seq<nat>)
    requires chain <= ch && Within(ch, |content|)
    ensures Within(chain, |content|) && Flat(content, chain) <= Flat(content, ch)
  {
    assert ch == chain + ch[|chain|..];
    FlatAppend(content, chain, ch[|chain|..]);
  }

  lemma {:induction false} ChainWithin(fat: seq<nat>, chain: seq<nat>)
    requires Chain(fat, chain)
    ensures Within(chain, |fat|)
  {
  }

  lemma {:induction false} NoFirst(fat: seq<nat>, chain: seq<nat>)
    requires if chain == [] then true else Chain(fat, chain) && chain[0] == 0
    ensures chain == []
  {
  }

  lemma {:induction false} AtEnd(fat: seq<nat>, chain: seq<nat>, i: nat)
    requires FatOk(fat) && Chain(fat, chain) && i < |chain| && ClusterAt(chain, i + 1) == END_OF_CHAIN
    ensures i + 1 == |chain|
  {
  }

  lemma {:induction false} NextIs(fat: seq<nat>, chain: seq<nat>, i: nat)
    requires FatOk(fat) && Chain(fat, chain) && i < |chain|
    ensures chain[i] < |fat|
    ensures (if IsEndOfClusterchain(fat[chain[i]]) then END_OF_CHAIN else fat[chain[i]]) == ClusterAt(chain, i + 1)
  {
    if i + 1 < |chain| { InnerEntry(fat, chain, i); }
  }
}
