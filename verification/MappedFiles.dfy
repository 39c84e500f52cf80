/** The ranges that MapFile hands out (kernel/syscall.cpp) and what their pages hold (kernel/paging.cpp). */
module MappedFiles {
  import opened Basics
  import opened Division
  import opened AppSpace
  import opened FileBytes
  import opened FatFiles
  import WritePlans

  const PAGE: nat := 4096

  /** Mappings of files of the given sizes, stacked downward from `base` to `end`. */
  ghost predicate Stacked(maps: seq<FileMapping>, sizes: seq<nat>, base: nat, end: nat)
    decreases |maps|
  {
    && |sizes| == |maps| && base % PAGE == 0
    && if maps == [] then base == end
       else
         var n := |maps| - 1;
         && maps[n].begin == end && sizes[n] <= maps[n].end < TWO64 && end == MapBegin(maps[n].end, sizes[n])
         && Stacked(maps[..n], sizes[..n], base, maps[n].end)
  }

  /** Mapping one more file keeps the mappings stacked iff the file fits below the last one. */
  lemma {:induction false} MapOneMore(maps: seq<FileMapping>, sizes: seq<nat>, base: nat, end: nat, fd: nat, size: nat)
    requires end < TWO64
    ensures Stacked(maps + [FileMapping(fd, MapBegin(end, size), end)], sizes + [size], base, MapBegin(end, size)) <==>
            Stacked(maps, sizes, base, end) && size <= end
  {
    var more, s := maps + [FileMapping(fd, MapBegin(end, size), end)], sizes + [size];
    assert more[..|maps|] == maps;
    if |sizes| == |maps| { assert s[..|maps|] == sizes; }
  }

  /** The sizes of the files a run maps. */
  ghost function Sizes(sp: Space, files: Files, ops: seq<Op>): seq<nat>
    decreases |ops|
  {
    if ops == [] then []
    else
      var (next, out) := Step(sp, files, ops[0]);
      if Stops(out) then []
      else (if out.Address? && ops[0].MapFile? then [ops[0].size.value] else []) + Sizes(next, files, ops[1..])
  }

  /** Each file is no larger than what is left below the last mapping when it is mapped. */
  ghost predicate AllFit(sp: Space, files: Files, ops: seq<Op>)
    decreases |ops|
  {
    if ops == [] then true
    else
      var (next, out) := Step(sp, files, ops[0]);
      Stops(out) || ((out.Address? && ops[0].MapFile? ==> ops[0].size.value <= sp.mapEnd) && AllFit(next, files, ops[1..]))
  }

  /** What a run of an application maps is stacked below `base` iff all files fit. */
  lemma {:induction false} RunStacked(sp: Space, files: Files, ops: seq<Op>, sizes: seq<nat>, base: nat)
    requires sp.mapEnd < TWO64
    ensures var end := After(sp, files, ops);
            Stacked(end.maps, sizes + Sizes(sp, files, ops), base, end.mapEnd) <==>
            Stacked(sp.maps, sizes, base, sp.mapEnd) && AllFit(sp, files, ops)
    decreases |ops|
  {
    hide Stacked, Touched;
    if ops == [] {
      assert sizes + [] == sizes;
    } else {
      var (next, out) := Step(sp, files, ops[0]);
      if Stops(out) {
        assert sizes + [] == sizes;
      } else {
        var s := if out.Address? && ops[0].MapFile? then [ops[0].size.value] else [];
        RunStacked(next, files, ops[1..], sizes + s, base);
        assert sizes + (s + Sizes(next, files, ops[1..])) == sizes + s + Sizes(next, files, ops[1..]);
        if s != [] {
          MapOneMore(sp.maps, sizes, base, sp.mapEnd, ops[0].fd, ops[0].size.value);
        } else {
          assert sizes + s == sizes;
        }
      }
    }
  }

  /** All mappings start and end at pages and lie between `end` and `base`. */
  lemma {:induction false} StackedAligned(maps: seq<FileMapping>, sizes: seq<nat>, base: nat, end: nat)
    requires Stacked(maps, sizes, base, end)
    ensures end % PAGE == 0 && end <= base
    ensures forall k | 0 <= k < |maps| ::
              maps[k].begin % PAGE == 0 && maps[k].end % PAGE == 0 && end <= maps[k].begin <= maps[k].end <= base
    ensures forall k | 0 <= k < |maps| :: sizes[k] <= maps[k].end < TWO64 && maps[k].begin == MapBegin(maps[k].end, sizes[k])
    decreases |maps|
  {
    if maps != [] {
      var n := |maps| - 1;
      StackedAligned(maps[..n], sizes[..n], base, maps[n].end);
      forall k | 0 <= k < n
        ensures maps[k] == maps[..n][k] && sizes[k] == sizes[..n][k]
      {
      }
    }
  }

  /** A later mapping lies below an earlier one. */
  lemma {:induction false} Below(maps: seq<FileMapping>, sizes: seq<nat>, base: nat, end: nat, i: nat, j: nat)
    requires Stacked(maps, sizes, base, end) && i < j < |maps|
    ensures maps[j].end <= maps[i].begin
    decreases |maps|
  {
    var n := |maps| - 1;
    assert forall k | 0 <= k < n :: maps[..n][k] == maps[k];
    if j < n {
      Below(maps[..n], sizes[..n], base, maps[n].end, i, j);
    } else {
      StackedAligned(maps[..n], sizes[..n], base, maps[n].end);
    }
  }

  /** An address belongs to one mapping at most, and that is the one FindFileMapping finds. */
  lemma {:induction false} FoundUniquely(maps: seq<FileMapping>, sizes: seq<nat>, base: nat, end: nat, v: nat, k: nat)
    requires Stacked(maps, sizes, base, end) && k < |maps| && Covers(maps[k], v)
    ensures FirstMapping(maps, v) == Some(maps[k])
    ensures forall i | 0 <= i < |maps| && i != k :: !Covers(maps[i], v)
  {
    forall i | 0 <= i < |maps| && i != k
      ensures !Covers(maps[i], v)
    {
      if i < k { Below(maps, sizes, base, end, i, k); } else { Below(maps, sizes, base, end, k, i); }
    }
    var r := FirstMapping(maps, v);
    assert r.Some?;
    var j :| 0 <= j < |maps| && maps[j] == r.value;
  }

  /** A page of a mapping starts within the file. */
  lemma {:induction false} PageInFile(maps: seq<FileMapping>, sizes: seq<nat>, base: nat, end: nat, v: nat, k: nat)
    requires Stacked(maps, sizes, base, end) && k < |maps| && Covers(maps[k], v)
    ensures maps[k].begin <= v / PAGE * PAGE && v / PAGE * PAGE - maps[k].begin < sizes[k]
  {
    StackedAligned(maps, sizes, base, end);
  }

  /** A file larger than the space below the last mapping gets an address, but a mapping of no page. */
  lemma {:induction false} TooLarge(end: nat, size: nat, fd: nat, v: nat)
    requires end < size < TWO64 && end % PAGE == 0
    ensures !Covers(FileMapping(fd, MapBegin(end, size), end), v)
  {
    var x := end - size + TWO64;
    assert (end - size) % TWO64 == x;
  }

  /** A mapping reaches every byte of its file iff the file is no larger than the space below the last mapping. */
  lemma {:induction false} CoversAllIff(end: nat, size: nat, fd: nat)
    requires end < TWO64 && end % PAGE == 0 && size < TWO64
    ensures (forall v: nat | MapBegin(end, size) <= v < MapBegin(end, size) + size ::
               Covers(FileMapping(fd, MapBegin(end, size), end), v)) <==> size <= end
  {
    if end < size { TooLarge(end, size, fd, MapBegin(end, size)); }
  }

  /** The page that faults in: the bytes of the file at its offset, and zero past the end of the file. */
  method FaultPage(fd: FileDescriptor, m: FileMapping, v: nat, ghost chain: seq<nat>,
                   ghost maps: seq<FileMapping>, ghost sizes: seq<nat>, ghost base: nat, ghost end: nat, ghost k: nat)
    returns (page: seq<Byte>)
    requires fd.FileOk(chain) && Stacked(maps, sizes, base, end) && k < |maps| && m == maps[k] && Covers(m, v)
    requires sizes[k] == fd.entry.fileSize
    ensures |page| == PAGE
    ensures forall j | 0 <= j < PAGE ::
              var at := v / PAGE * PAGE - m.begin + j;
              if 0 <= at < fd.entry.fileSize then at < |fd.Bytes(chain)| && page[j] == fd.Bytes(chain)[at] else page[j] == 0
  {
    PageInFile(maps, sizes, base, end, v, k);
    var offset := v / PAGE * PAGE - m.begin;
    var loaded := fd.Load(PAGE, offset, chain);
    page := loaded + seq(PAGE - |loaded|, _ => 0);
  }
}
