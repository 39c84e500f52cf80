/** Where FileDescriptor::Write of kernel/fat.cpp puts its bytes, exactly when that is where they belong, and how many
    clusters it takes for them. */
module WritePlans {
  import opened Basics
  import opened Division

  /** Byte `off` of cluster number `i` of a file is byte `i * bpc + off` of the file. */
  function Start(i: nat, bpc: nat): nat
  {
    i * bpc
  }

  function NumCluster(bytes: nat, bpc: nat): nat
    requires bpc > 0
  {
    (bytes + bpc - 1) / bpc
  }

  /** `ok` when no byte behind the buffer is read; `places` are the file positions written, in order; at the
      end the cursor is at byte `off` of cluster `i` of a chain of `count`. */
  datatype Plan = Plan(ok: bool, places: seq<nat>, i: nat, off: nat, count: nat)

  function Places(p: nat, n: nat): (s: seq<nat>)
    ensures |s| == n && forall j | 0 <= j < n :: s[j] == p + j
  {
    seq(n, j requires 0 <= j < n => p + j)
  }

  /** The cursor once it has moved off the end of a cluster: to the next cluster of the chain or, behind the
      last one, to the last of as many new clusters as the remaining bytes need. */
  function Moved(bpc: nat, rest: nat, i: nat, off: nat, count: nat): (nat, nat, nat)
    requires bpc > 0
  {
    if off != bpc then (i, off, count)
    else if i + 1 < count then (i + 1, 0, count)
    else if rest == 0 then (i, 0, count)
    else (count + NumCluster(rest, bpc) - 1, 0, count + NumCluster(rest, bpc))
  }

  /** The loop for the last `rest` bytes of a write of `len`. */
  function WritePlan(bpc: nat, len: nat, rest: nat, i: nat, off: nat, count: nat): Plan
    requires bpc > 0 && off <= bpc && (len > 0 || rest == 0)
    decreases rest
  {
    if rest == 0 then Plan(true, [], i, off, count)
    else
      var (i1, off1, count1) := Moved(bpc, rest, i, off, count);
      var n := Min(len, bpc - off1);
      if n > rest then Plan(false, [], i1, off1, count1)
      else
        var p := WritePlan(bpc, len, rest - n, i1, off1 + n, count1);
        p.(places := Places(Start(i1, bpc) + off1, n) + p.places)
  }

  ghost predicate Contiguous(places: seq<nat>, p: nat)
  {
    forall j | 0 <= j < |places| :: places[j] == p + j
  }

  /** The write takes no more than its buffer: it stays within one cluster, or it ends with one. */
  predicate WithinBuffer(bpc: nat, len: nat, off: nat)
    requires bpc > 0 && off <= bpc
  {
    if off == bpc then len <= bpc || len % bpc == 0 else len <= bpc - off || (len - (bpc - off)) % bpc == 0
  }

  /** The bytes fit the clusters of the file and at most one more. */
  predicate WithinOneMore(bpc: nat, len: nat, i: nat, off: nat, count: nat)
    requires off <= bpc && i <= count
  {
    len <= (bpc - off) + Start(count - i, bpc)
  }

  // ----- arithmetic -----

  lemma {:induction false} NextStart(i: nat, bpc: nat)
    ensures Start(i + 1, bpc) == Start(i, bpc) + bpc
  {
  }

  lemma {:induction false} CeilOne(bytes: nat, bpc: nat)
    requires bpc > 0 && bytes > 0
    ensures NumCluster(bytes, bpc) >= 1 && (NumCluster(bytes, bpc) == 1 <==> bytes <= bpc)
  {
    if bytes <= bpc {
      DivUnique(bytes + bpc - 1, bpc, 1, bytes - 1);
    } else {
      var q := (bytes + bpc - 1) / bpc;
      assert bytes + bpc - 1 == q * bpc + (bytes + bpc - 1) % bpc;
      assert q < 2 ==> q * bpc <= bpc;
    }
  }

  lemma {:induction false} StartGrows(i: nat, j: nat, bpc: nat)
    requires i <= j
    ensures Start(i, bpc) <= Start(j, bpc)
    decreases j - i
  {
    if i < j { StartGrows(i, j - 1, bpc); }
  }

  lemma {:induction false} LessClusters(r: nat, bpc: nat)
    requires bpc > 0 && r >= bpc
    ensures r % bpc == (r - bpc) % bpc
  {
    var q := r / bpc;
    assert r == q * bpc + r % bpc;
    assert r - bpc == (q - 1) * bpc + r % bpc;
    assert q == 0 ==> q * bpc == 0;
    DivUnique(r - bpc, bpc, q - 1, r % bpc);
  }

  // ----- whole clusters -----

  lemma {:induction false} JoinPlaces(p: nat, n: nat, rest: seq<nat>)
    ensures Contiguous(Places(p, n) + rest, p) <==> Contiguous(rest, p + n)
  {
    var s := Places(p, n) + rest;
    if Contiguous(s, p) {
      forall j | 0 <= j < |rest|
        ensures rest[j] == p + n + j
      {
        assert s[n + j] == rest[j];
      }
    }
  }

  /** From the end of a cluster on, writing whole clusters. */
  lemma {:induction false} ClusterPlan(bpc: nat, len: nat, rest: nat, i: nat, count: nat)
    requires bpc > 0 && len >= bpc && rest <= len && i < count
    ensures var p := WritePlan(bpc, len, rest, i, bpc, count);
            (p.ok <==> rest % bpc == 0)
            && (p.ok ==> (Contiguous(p.places, Start(i + 1, bpc)) <==> rest <= Start(count - i, bpc)))
    decreases rest
  {
    hide Start, NumCluster, Places, WritePlan, Contiguous;
    ClusterStep(bpc, len, rest, i, count);
    if rest == 0 {
      NothingLeft(i + 1, bpc);
    } else if rest < bpc {
      Small(rest, bpc);
    } else {
      var (i1, off1, count1) := Moved(bpc, rest, i, bpc, count);
      CeilOne(rest, bpc);
      LessClusters(rest, bpc);
      var q := WritePlan(bpc, len, rest - bpc, i1, bpc, count1);
      ClusterPlan(bpc, len, rest - bpc, i1, count1);
      OneCluster(bpc, rest, i, i1, count, count1, q.places);
    }
  }

  lemma {:induction false} NothingLeft(i: nat, bpc: nat)
    requires bpc > 0
    ensures 0 % bpc == 0 && Contiguous([], Start(i, bpc))
  {
    DivUnique(0, bpc, 0, 0);
  }

  lemma {:induction false} ClusterStep(bpc: nat, len: nat, rest: nat, i: nat, count: nat)
    requires bpc > 0 && len >= bpc && rest <= len && i < count
    ensures var p := WritePlan(bpc, len, rest, i, bpc, count);
            if rest == 0 then p == Plan(true, [], i, bpc, count)
            else if rest < bpc then !p.ok
            else
              var (i1, off1, count1) := Moved(bpc, rest, i, bpc, count);
              var q := WritePlan(bpc, len, rest - bpc, i1, bpc, count1);
              p == q.(places := Places(Start(i1, bpc), bpc) + q.places)
  {
    hide Start, NumCluster, Places;
  }

  lemma {:induction false} OneCluster(bpc: nat, rest: nat, i: nat, i1: nat, count: nat, count1: nat, places: seq<nat>)
    requires bpc > 0 && rest >= bpc && i < count && i1 < count1
    requires if i + 1 < count then i1 == i + 1 && count1 == count
             else i1 == count1 - 1 && count1 == count + NumCluster(rest, bpc)
    requires (rest - bpc) % bpc == 0 ==> (Contiguous(places, Start(i1 + 1, bpc)) <==> rest - bpc <= Start(count1 - i1, bpc))
    ensures (rest - bpc) % bpc == 0 ==>
              (Contiguous(Places(Start(i1, bpc), bpc) + places, Start(i + 1, bpc)) <==> rest <= Start(count - i, bpc))
  {
    hide Places, Contiguous;
    CeilOne(rest, bpc);
    NextStart(i1, bpc);
    NextStart(count - i - 1, bpc);
    if i1 == i + 1 {
      JoinPlaces(Start(i1, bpc), bpc, places);
      NextStart(0, bpc);
    } else {
      StartGrows(i + 2, i1, bpc);
      NextStart(i + 1, bpc);
      NotThere(Places(Start(i1, bpc), bpc) + places, Start(i1, bpc), Start(i + 1, bpc), bpc, places);
    }
  }

  lemma {:induction false} NotThere(s: seq<nat>, p: nat, q: nat, n: nat, rest: seq<nat>)
    requires s == Places(p, n) + rest && n > 0 && p != q
    ensures !Contiguous(s, q)
  {
    assert s[0] == p;
  }

  /** A write reads only its own buffer iff it stays in one cluster or ends with one, and then it goes where
      the cursor says iff no more than one new cluster is needed. */
  lemma {:induction false} PlanExact(bpc: nat, len: nat, i: nat, off: nat, count: nat)
    requires bpc > 0 && off <= bpc && i < count
    ensures var p := WritePlan(bpc, len, len, i, off, count);
            (p.ok <==> WithinBuffer(bpc, len, off))
            && (p.ok ==> (Contiguous(p.places, Start(i, bpc) + off) <==> WithinOneMore(bpc, len, i, off, count)))
  {
    hide Start, NumCluster, Places;
    NextStart(i, bpc);
    NextStart(count - i - 1, bpc);
    if len == 0 {
    } else if off == bpc {
      if len >= bpc {
        ClusterPlan(bpc, len, len, i, count);
      } else {
        CeilOne(len, bpc);
        Short(bpc, len, i + 1, 0);
      }
    } else if len <= bpc - off {
      Short(bpc, len, i, off);
    } else {
      FirstPart(bpc, len, i, off, count);
    }
  }

  lemma {:induction false} Short(bpc: nat, len: nat, i: nat, off: nat)
    requires bpc > 0 && len <= bpc
    ensures Contiguous(Places(Start(i, bpc) + off, len) + [], Start(i, bpc) + off)
  {
  }

  lemma {:induction false} FirstPart(bpc: nat, len: nat, i: nat, off: nat, count: nat)
    requires bpc > 0 && off < bpc && len > bpc - off && i < count
    ensures var p := WritePlan(bpc, len, len, i, off, count);
            (p.ok <==> WithinBuffer(bpc, len, off))
            && (p.ok ==> (Contiguous(p.places, Start(i, bpc) + off) <==> WithinOneMore(bpc, len, i, off, count)))
  {
    hide Start, NumCluster, Places, WritePlan, Contiguous;
    var s := bpc - off;
    FirstStep(bpc, len, i, off, count);
    var q := WritePlan(bpc, len, len - s, i, bpc, count);
    JoinPlaces(Start(i, bpc) + off, s, q.places);
    NextStart(i, bpc);
    if len >= bpc {
      ClusterPlan(bpc, len, len - s, i, count);
    } else {
      Small(len - s, bpc);
      TooShort(bpc, len, len - s, i, count);
    }
  }

  lemma {:induction false} FirstStep(bpc: nat, len: nat, i: nat, off: nat, count: nat)
    requires bpc > 0 && off < bpc && len > bpc - off
    ensures var s := bpc - off; var q := WritePlan(bpc, len, len - s, i, bpc, count);
            WritePlan(bpc, len, len, i, off, count) == q.(places := Places(Start(i, bpc) + off, s) + q.places)
  {
    hide Start, Places, NumCluster;
  }

  lemma {:induction false} Small(x: nat, bpc: nat)
    requires x < bpc
    ensures x % bpc == x
  {
  }

  lemma {:induction false} TooShort(bpc: nat, len: nat, rest: nat, i: nat, count: nat)
    requires bpc > 0 && 0 < rest < len < bpc
    ensures !WritePlan(bpc, len, rest, i, bpc, count).ok
  {
    hide Start, Places, NumCluster;
  }

  /** Clusters are only added. */
  lemma {:induction false} PlanGrows(bpc: nat, len: nat, rest: nat, i: nat, off: nat, count: nat)
    requires bpc > 0 && off <= bpc && (len > 0 || rest == 0)
    ensures WritePlan(bpc, len, rest, i, off, count).count >= count
    ensures rest > 0 ==> WritePlan(bpc, len, rest, i, off, count).count >= Moved(bpc, rest, i, off, count).2
    decreases rest
  {
    hide Start, Places, NumCluster;
    if rest > 0 {
      var (i1, off1, count1) := Moved(bpc, rest, i, off, count);
      var n := Min(len, bpc - off1);
      if n <= rest { PlanGrows(bpc, len, rest - n, i1, off1 + n, count1); }
    }
  }

  /** New clusters are taken for the cursor only: it stands in the last of them. */
  lemma {:induction false} PlanCount(bpc: nat, len: nat, rest: nat, i: nat, off: nat, count: nat)
    requires bpc > 0 && off <= bpc && (len > 0 || rest == 0) && i < count
    ensures var p := WritePlan(bpc, len, rest, i, off, count);
            i <= p.i < p.count && p.off <= bpc && (p.count == count || p.i + 1 == p.count) && (p.ok && rest > 0 ==> p.off > 0)
    decreases rest
  {
    hide Start, Places, NumCluster;
    if rest > 0 {
      var (i1, off1, count1) := Moved(bpc, rest, i, off, count);
      var n := Min(len, bpc - off1);
      MovedOn(bpc, rest, i, off, count);
      if n <= rest { PlanCount(bpc, len, rest - n, i1, off1 + n, count1); }
    }
  }

  /** So many clusters hold the bytes before byte `off` of cluster `i`. */
  lemma {:induction false} ClustersBefore(bpc: nat, i: nat, off: nat)
    requires 0 < off <= bpc
    ensures NumCluster(Start(i, bpc) + off, bpc) == i + 1
  {
    DivUnique(i * bpc + off + bpc - 1, bpc, i + 1, off - 1);
  }

  /** One turn of the loop. */
  lemma {:induction false} PlanStep(bpc: nat, len: nat, rest: nat, i: nat, off: nat, count: nat)
    requires bpc > 0 && off <= bpc && 0 < rest <= len && i < count
    ensures var p := WritePlan(bpc, len, rest, i, off, count);
            var (i1, off1, count1) := Moved(bpc, rest, i, off, count);
            var n := Min(len, bpc - off1);
            && p.count >= count1 && n > 0 && Start(i, bpc) + off <= Start(i1, bpc) + off1
            && if n > rest then !p.ok
               else
                 var q := WritePlan(bpc, len, rest - n, i1, off1 + n, count1);
                 p == q.(places := Places(Start(i1, bpc) + off1, n) + q.places)
  {
    hide Start, Places, NumCluster, Moved;
    MovedOn(bpc, rest, i, off, count);
    PlanGrows(bpc, len, rest, i, off, count);
  }

  /** The cursor never moves back. */
  lemma {:induction false} MovedOn(bpc: nat, rest: nat, i: nat, off: nat, count: nat)
    requires bpc > 0 && off <= bpc && i < count && rest > 0
    ensures var (i1, off1, count1) := Moved(bpc, rest, i, off, count);
            Start(i, bpc) + off <= Start(i1, bpc) + off1 && off1 < bpc && i1 < count1 && count <= count1
  {
    hide NumCluster;
    CeilOne(rest, bpc);
    NextStart(i, bpc);
    var (i1, off1, count1) := Moved(bpc, rest, i, off, count);
    if i1 != i { StartGrows(i + 1, i1, bpc); }
  }

  /** A write that crosses no cluster boundary goes where it belongs and needs at most one new cluster. */
  lemma {:induction false} PlanShort(bpc: nat, len: nat, i: nat, off: nat, count: nat)
    requires bpc > 0 && off <= bpc && i < count && (if off == bpc then len <= bpc else off + len <= bpc)
    ensures WithinBuffer(bpc, len, off) && WithinOneMore(bpc, len, i, off, count)
    ensures WritePlan(bpc, len, len, i, off, count).count <= count + (if off == bpc then 1 else 0)
  {
    hide Start, Places, NumCluster;
    NextStart(0, bpc);
    StartGrows(1, count - i, bpc);
    if len > 0 {
      CeilOne(len, bpc);
      var (i1, off1, count1) := Moved(bpc, len, i, off, count);
      assert WritePlan(bpc, len, 0, i1, off1 + len, count1).count == count1;
    }
  }

  // ----- what goes wrong otherwise -----

  /** A write of 6 bytes into a new file with clusters of 4 reads 2 bytes behind its buffer. */
  lemma {:induction false} OverrunExample()
    ensures !WithinBuffer(4, 6, 0)
    ensures !WritePlan(4, 6, 6, 0, 0, 2).ok
  {
    PlanExact(4, 6, 0, 0, 2);
  }

  /** Behind a full last cluster, a write of two clusters starts in the second of the two new ones. */
  lemma {:induction false} SkipExample()
    ensures WithinBuffer(4, 8, 4) && !WithinOneMore(4, 8, 0, 4, 1)
    ensures !Contiguous(WritePlan(4, 8, 8, 0, 4, 1).places, 4)
  {
    PlanExact(4, 8, 0, 4, 1);
  }
}
