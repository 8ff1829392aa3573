/** Selection of the samples a local warp model is fitted to: those whose motion is close to the block's
    own are moved to the front, in place. */
module WarpSamples {
  import opened IntOps
  import opened Picture

  /** A point and where its motion takes it, in units of 1/8 pixel. */
  datatype Sample = Sample(fromX: int, fromY: int, toX: int, toY: int)

  function Threshold(bw4: nat, bh4: nat): nat { 4 * Clip(Max(bw4, bh4), 4, 28) }

  /** How far the motion of a sample is from `mv`. */
  function Distance(s: Sample, mv: Mv): nat { Abs(s.toX - s.fromX - mv.x) + Abs(s.toY - s.fromY - mv.y) }

  predicate Near(s: Sample, mv: Mv, thresh: nat) { Distance(s, mv) <= thresh }

  /** A sample is kept if its motion differs by no more, in the sum of both parts, than the longer side of the
      block has pixels, but at least 16 and at most 112 eighths of a pixel are allowed. */
  lemma NearIsWithinSide(s: Sample, mv: Mv, bw4: nat, bh4: nat)
    ensures var side := Max(4 * bw4, 4 * bh4);
            var limit := if side < 16 then 16 else if side > 112 then 112 else side;
            Near(s, mv, Threshold(bw4, bh4)) <==> Abs(s.toX - s.fromX - mv.x) + Abs(s.toY - s.fromY - mv.y) <= limit
  {
  }

  const DISCARDED := -1

  /** The distance of a sample, or a mark that it is too far off. */
  function Mark(s: Sample, mv: Mv, thresh: nat): int { if Near(s, mv, thresh) then Distance(s, mv) else DISCARDED }

  ghost predicate Marks(m: seq<int>, p: seq<Sample>, n: nat, mv: Mv, thresh: nat)
  {
    |m| >= n && |p| >= n && forall i | 0 <= i < n :: m[i] == Mark(p[i], mv, thresh)
  }

  // ----- Counting -----

  /** How many of the samples from `lo` to `hi` are kept. */
  function Kept(m: seq<int>, lo: nat, hi: nat): nat
    requires hi <= |m|
  {
    if hi <= lo then 0 else Kept(m, lo, hi - 1) + if m[hi - 1] == DISCARDED then 0 else 1
  }

  /** How many of them are `x`. */
  function KeptOf(m: seq<int>, p: seq<Sample>, lo: nat, hi: nat, x: Sample): nat
    requires hi <= |m| && hi <= |p|
  {
    if hi <= lo then 0
    else KeptOf(m, p, lo, hi - 1, x) + if m[hi - 1] != DISCARDED && p[hi - 1] == x then 1 else 0
  }

  /** How many of the first `n` samples are `x`. */
  function CountOf(p: seq<Sample>, n: nat, x: Sample): nat
    requires n <= |p|
  {
    if n == 0 then 0 else CountOf(p, n - 1, x) + if p[n - 1] == x then 1 else 0
  }

  lemma {:induction false} KeptSplits(m: seq<int>, lo: nat, mid: nat, hi: nat)
    requires lo <= mid <= hi <= |m|
    ensures Kept(m, lo, hi) == Kept(m, lo, mid) + Kept(m, mid, hi)
  {
    if mid < hi {
      KeptSplits(m, lo, mid, hi - 1);
    }
  }

  lemma {:induction false} KeptOfSplits(m: seq<int>, p: seq<Sample>, lo: nat, mid: nat, hi: nat, x: Sample)
    requires lo <= mid <= hi <= |m| && hi <= |p|
    ensures KeptOf(m, p, lo, hi, x) == KeptOf(m, p, lo, mid, x) + KeptOf(m, p, mid, hi, x)
  {
    if mid < hi {
      KeptOfSplits(m, p, lo, mid, hi - 1, x);
    }
  }

  /** A stretch without discarded samples is kept whole, one of discarded samples not at all. */
  lemma {:induction false} Stretch(m: seq<int>, p: seq<Sample>, lo: nat, hi: nat, x: Sample)
    requires lo <= hi <= |m| && hi <= |p|
    ensures (forall i | lo <= i < hi :: m[i] != DISCARDED) ==>
              Kept(m, lo, hi) == hi - lo && KeptOf(m, p, lo, hi, x) + CountOf(p, lo, x) == CountOf(p, hi, x)
    ensures (forall i | lo <= i < hi :: m[i] == DISCARDED) ==> Kept(m, lo, hi) == 0 && KeptOf(m, p, lo, hi, x) == 0
    ensures 0 <= Kept(m, lo, hi) <= hi - lo
    ensures Kept(m, lo, hi) == hi - lo ==> forall i | lo <= i < hi :: m[i] != DISCARDED
  {
    if lo < hi {
      Stretch(m, p, lo, hi - 1, x);
    }
  }

  lemma {:induction false} CountOfSame(p: seq<Sample>, q: seq<Sample>, n: nat, x: Sample)
    requires n <= |p| && n <= |q| && forall i | 0 <= i < n :: p[i] == q[i]
    ensures CountOf(p, n, x) == CountOf(q, n, x)
  {
    if n > 0 {
      CountOfSame(p, q, n - 1, x);
    }
  }

  // ----- The compaction -----

  /** After `k` moves: the slots before `i` hold kept samples, those after `j` have given theirs away, and
      nothing between has changed. */
  ghost predicate Compacting(m0: seq<int>, p0: seq<Sample>, m: seq<int>, p: seq<Sample>, n: nat, i: int, j: int, k: nat)
    requires n <= |m0| && n <= |p0| && |m| == |m0| && |p| == |p0|
  {
    && 0 <= i <= j + 1 <= n
    && (forall l | 0 <= l < i :: m[l] != DISCARDED)
    && (forall l | i <= l < n :: m[l] == m0[l])
    && (forall l | i <= l < |p| :: p[l] == p0[l])
    && k == Kept(m0, j + 1, n) && i == Kept(m0, 0, i) + k
    && (forall x :: CountOf(p, i, x) == KeptOf(m0, p0, 0, i, x) + KeptOf(m0, p0, j + 1, n, x))
  }

  /** The first `ret` slots hold exactly the kept samples. */
  ghost predicate Compacted(m0: seq<int>, p0: seq<Sample>, p: seq<Sample>, n: nat, ret: nat)
    requires n <= |m0| && n <= |p0| && ret <= |p|
  {
    forall x :: CountOf(p, ret, x) == KeptOf(m0, p0, 0, n, x)
  }

  lemma {:induction false} SomeKept(m: seq<int>, lo: nat, hi: nat) returns (l: nat)
    requires lo <= hi <= |m| && Kept(m, lo, hi) > 0
    ensures lo <= l < hi && m[l] != DISCARDED
  {
    if m[hi - 1] != DISCARDED {
      l := hi - 1;
    } else {
      l := SomeKept(m, lo, hi - 1);
    }
  }

  lemma {:induction false} SomeDiscarded(m: seq<int>, lo: nat, hi: nat) returns (l: nat)
    requires lo <= hi <= |m| && Kept(m, lo, hi) < hi - lo
    ensures lo <= l < hi && m[l] == DISCARDED
  {
    if m[hi - 1] == DISCARDED {
      l := hi - 1;
    } else {
      l := SomeDiscarded(m, lo, hi - 1);
    }
  }

  /** There is a slot to fill, and a kept sample at or before `j`. */
  lemma SlotAndSample(m0: seq<int>, p0: seq<Sample>, m: seq<int>, p: seq<Sample>, n: nat, i: int, j: int, k: nat)
    returns (slot: nat, kept: nat)
    requires n <= |m0| && n <= |p0| && |m| == |m0| && |p| == |p0|
    requires Compacting(m0, p0, m, p, n, i, j, k) && 0 < Kept(m0, 0, n) && k < n - Kept(m0, 0, n)
    ensures i <= slot < n && m[slot] == DISCARDED && kept <= j && m[kept] != DISCARDED
  {
    KeptSplits(m0, 0, i, n);
    slot := SomeDiscarded(m0, i, n);
    if i > 0 {
      kept := 0;
    } else {
      KeptSplits(m0, 0, j + 1, n);
      kept := SomeKept(m0, 0, j + 1);
    }
  }

  /** One move keeps the invariant. */
  lemma MoveCompacts(m0: seq<int>, p0: seq<Sample>, m: seq<int>, p: seq<Sample>, n: nat, i0: int, j0: int, k: nat,
                     i: int, j: int)
    requires n <= |m0| && n <= |p0| && |m| == |m0| && |p| == |p0|
    requires Compacting(m0, p0, m, p, n, i0, j0, k)
    requires i0 <= i < j <= j0 && m[i] == DISCARDED && m[j] != DISCARDED
    requires forall l | i0 <= l < i :: m[l] != DISCARDED
    requires forall l | j < l <= j0 :: m[l] == DISCARDED
    ensures Compacting(m0, p0, m[i := m[j]], p[i := p[j]], n, i + 1, j - 1, k + 1)
  {
    hide Kept, KeptOf, CountOf;
    var p1 := p[i := p[j]];
    KeptSplits(m0, 0, i0, i);
    KeptSplits(m0, 0, i, i + 1);
    KeptSplits(m0, j, j0 + 1, n);
    KeptSplits(m0, j, j + 1, j0 + 1);
    StretchKept(m0, i0, i);
    StretchDiscarded(m0, j + 1, j0 + 1);
    JustOne(m0, p0, i, p[i]);
    JustOne(m0, p0, j, p[i]);
    forall x
      ensures CountOf(p1, i + 1, x) == KeptOf(m0, p0, 0, i + 1, x) + KeptOf(m0, p0, j, n, x)
    {
      JustOne(m0, p0, i, x);
      JustOne(m0, p0, j, x);
      JustOne(m0, p1, i, x);
      Stretch(m0, p0, i0, i, x);
      Stretch(m0, p0, j + 1, j0 + 1, x);
      KeptOfSplits(m0, p0, 0, i0, i, x);
      KeptOfSplits(m0, p0, 0, i, i + 1, x);
      KeptOfSplits(m0, p0, j, j + 1, j0 + 1, x);
      KeptOfSplits(m0, p0, j, j0 + 1, n, x);
      CountOfSame(p1, p, i, x);
      CountExtends(p, p0, i0, i, x);
    }
  }

  lemma JustOne(m: seq<int>, p: seq<Sample>, l: nat, x: Sample)
    requires l < |m| && l < |p|
    ensures Kept(m, l, l + 1) == if m[l] == DISCARDED then 0 else 1
    ensures KeptOf(m, p, l, l + 1, x) == if m[l] != DISCARDED && p[l] == x then 1 else 0
    ensures CountOf(p, l + 1, x) == CountOf(p, l, x) + if p[l] == x then 1 else 0
  {
  }

  lemma StretchKept(m: seq<int>, lo: nat, hi: nat)
    requires lo <= hi <= |m| && forall l | lo <= l < hi :: m[l] != DISCARDED
    ensures Kept(m, lo, hi) == hi - lo
  {
  }

  lemma StretchDiscarded(m: seq<int>, lo: nat, hi: nat)
    requires lo <= hi <= |m| && forall l | lo <= l < hi :: m[l] == DISCARDED
    ensures Kept(m, lo, hi) == 0
  {
  }

  lemma {:induction false} CountExtends(p: seq<Sample>, q: seq<Sample>, lo: nat, hi: nat, x: Sample)
    requires lo <= hi <= |p| && hi <= |q| && forall l | lo <= l < hi :: p[l] == q[l]
    ensures CountOf(p, hi, x) - CountOf(p, lo, x) == CountOf(q, hi, x) - CountOf(q, lo, x)
  {
    if lo < hi {
      CountExtends(p, q, lo, hi - 1, x);
    }
  }

  /** When the two ends have met, every kept sample is in front. */
  lemma MetIsCompacted(m0: seq<int>, p0: seq<Sample>, m: seq<int>, p: seq<Sample>, n: nat, i0: int, j0: int,
                      k: nat, e: int)
    requires n <= |m0| && n <= |p0| && |m| == |m0| && |p| == |p0|
    requires Compacting(m0, p0, m, p, n, i0, j0, k) && i0 <= e <= j0 + 1
    requires forall l | i0 <= l < e :: m[l] != DISCARDED
    requires forall l | e <= l <= j0 :: m[l] == DISCARDED
    ensures e == Kept(m0, 0, n) && Compacted(m0, p0, p, n, e)
  {
    hide Kept, KeptOf, CountOf;
    KeptSplits(m0, 0, i0, e);
    KeptSplits(m0, 0, e, j0 + 1);
    KeptSplits(m0, 0, j0 + 1, n);
    StretchKept(m0, i0, e);
    StretchDiscarded(m0, e, j0 + 1);
    forall x ensures CountOf(p, e, x) == KeptOf(m0, p0, 0, n, x) {
      KeptOfSplits(m0, p0, 0, i0, e, x);
      KeptOfSplits(m0, p0, 0, e, j0 + 1, x);
      KeptOfSplits(m0, p0, 0, j0 + 1, n, x);
      Stretch(m0, p0, i0, e, x);
      Stretch(m0, p0, e, j0 + 1, x);
      CountExtends(p, p0, i0, e, x);
    }
  }

  /** With as many moves as discarded samples, nothing behind `i` is discarded. */
  lemma AllMoved(m0: seq<int>, p0: seq<Sample>, m: seq<int>, p: seq<Sample>, n: nat, i: int, j: int, k: nat)
    requires n <= |m0| && n <= |p0| && |m| == |m0| && |p| == |p0|
    requires Compacting(m0, p0, m, p, n, i, j, k) && k == n - Kept(m0, 0, n)
    ensures forall l | i <= l < n :: m[l] != DISCARDED
  {
    KeptSplits(m0, 0, i, n);
    if n > 0 {
      Stretch(m0, p0, i, n, p0[0]);
    }
  }

  method Compact(m: array<int>, p: array<Sample>, n: nat, ret: nat)
    requires n <= m.Length && n <= p.Length && ret == Kept(m[..], 0, n) > 0
    modifies m, p
    ensures ret <= n && Compacted(old(m[..]), old(p[..]), p[..], n, ret)
    ensures forall l | n <= l < p.Length :: p[l] == old(p[l])
  {
    ghost var m0, p0 := m[..], p[..];
    var i, j, k := 0, n - 1, 0;
    Start(m0, p0, n);
    KeptBounded(m0, 0, n);
    while k < n - ret
      invariant Compacting(m0, p0, m[..], p[..], n, i, j, k)
      invariant k <= n - ret
      invariant forall l | n <= l < p.Length :: p[l] == p0[l]
    {
      ghost var i0, j0, mk, pk := i, j, m[..], p[..];
      ghost var slot, kept := SlotAndSample(m0, p0, m[..], p[..], n, i, j, k);
      while m[i] != DISCARDED
        invariant i0 <= i <= slot
        invariant forall l | i0 <= l < i :: m[l] != DISCARDED
        decreases slot - i
      {
        i := i + 1;
      }
      while m[j] == DISCARDED
        invariant kept <= j <= j0
        invariant forall l | j < l <= j0 :: m[l] == DISCARDED
        decreases j
      {
        j := j - 1;
      }
      assert i != j;
      if i > j {
        Met(m0, p0, m[..], p[..], n, i0, j0, k, i, j);
        return;
      }
      MoveCompacts(m0, p0, m[..], p[..], n, i0, j0, k, i, j);
      m[i] := m[j];
      p[i] := p[j];
      assert m[..] == mk[i := mk[j]] && p[..] == pk[i := pk[j]];
      k, i, j := k + 1, i + 1, j - 1;
    }
    AllMoved(m0, p0, m[..], p[..], n, i, j, k);
    MetIsCompacted(m0, p0, m[..], p[..], n, i, j, k, j + 1);
  }

  lemma {:induction false} KeptBounded(m: seq<int>, lo: nat, hi: nat)
    requires lo <= hi <= |m|
    ensures Kept(m, lo, hi) <= hi - lo
  {
    if lo < hi {
      KeptBounded(m, lo, hi - 1);
    }
  }

  lemma Start(m0: seq<int>, p0: seq<Sample>, n: nat)
    requires n <= |m0| && n <= |p0|
    ensures Compacting(m0, p0, m0, p0, n, 0, n - 1, 0)
  {
  }

  /** The two scans have crossed. */
  lemma Met(m0: seq<int>, p0: seq<Sample>, m: seq<int>, p: seq<Sample>, n: nat, i0: int, j0: int,
            k: nat, i: int, j: int)
    requires n <= |m0| && n <= |p0| && |m| == |m0| && |p| == |p0|
    requires Compacting(m0, p0, m, p, n, i0, j0, k) && i0 <= i < n && 0 <= j <= j0 && j < i
    requires forall l | i0 <= l < i :: m[l] != DISCARDED
    requires forall l | j < l <= j0 :: m[l] == DISCARDED
    ensures Kept(m0, 0, n) <= |p| && Compacted(m0, p0, p, n, Kept(m0, 0, n))
  {
    MetIsCompacted(m0, p0, m, p, n, i0, j0, k, Min(i, j0 + 1));
  }

  /** Moves the samples near `mv` to the front and says how many samples to use: those, or if there
      are none just the first. */
  method Select(p: array<Sample>, n: nat, mv: Mv, bw4: nat, bh4: nat) returns (ret: nat)
    requires 0 < n <= 8 && n <= p.Length
    modifies p
    ensures var thresh := Threshold(bw4, bh4);
            var near := Filter(old(p[..n]), mv, thresh);
            if near == [] then ret == 1 && p[..] == old(p[..])
            else ret == |near| && multiset(p[..ret]) == multiset(near)
                 && forall l | n <= l < p.Length :: p[l] == old(p[l])
  {
    ghost var p0 := p[..];
    var thresh := 4 * Clip(Max(bw4, bh4), 4, 28);
    var m := new int[8](_ => 0);
    ret := 0;
    assert Filter(p0[..0], mv, thresh) == [];
    hide Filter, Clip;
    for i := 0 to n
      invariant ret == |Filter(p0[..i], mv, thresh)| && p[..] == p0
      invariant Marks(m[..], p0, i, mv, thresh)
    {
      FilterStep(p0, i, mv, thresh);
      m[i] := Abs(p[i].toX - p[i].fromX - mv.x) + Abs(p[i].toY - p[i].fromY - mv.y);
      if m[i] > thresh {
        m[i] := DISCARDED;
      } else {
        ret := ret + 1;
      }
    }
    FilterIsKept(m[..], p0, n, mv, thresh);
    hide Kept;
    if ret == 0 {
      ret := 1;
    } else {
      ghost var m0 := m[..];
      Compact(m, p, n, ret);
      CompactedIsPermutation(m0, p0, p[..], n, ret, mv, thresh);
    }
  }

  /** The samples near `mv`. */
  ghost function Filter(p: seq<Sample>, mv: Mv, thresh: nat): (r: seq<Sample>)
    ensures |r| <= |p|
  {
    if p == [] then []
    else Filter(p[..|p| - 1], mv, thresh) + if Near(p[|p| - 1], mv, thresh) then [p[|p| - 1]] else []
  }

  lemma FilterStep(p: seq<Sample>, i: nat, mv: Mv, thresh: nat)
    requires i < |p|
    ensures |Filter(p[..i + 1], mv, thresh)| == |Filter(p[..i], mv, thresh)| + if Near(p[i], mv, thresh) then 1 else 0
  {
    assert p[..i + 1][..i] == p[..i];
  }

  lemma {:induction false} FilterIsKept(m: seq<int>, p: seq<Sample>, n: nat, mv: Mv, thresh: nat)
    requires Marks(m, p, n, mv, thresh)
    ensures Kept(m, 0, n) == |Filter(p[..n], mv, thresh)|
  {
    if n > 0 {
      FilterIsKept(m, p, n - 1, mv, thresh);
      assert p[..n][..n - 1] == p[..n - 1];
    }
  }

  lemma {:induction false} FilterCount(m: seq<int>, p: seq<Sample>, n: nat, mv: Mv, thresh: nat, x: Sample)
    requires Marks(m, p, n, mv, thresh)
    ensures KeptOf(m, p, 0, n, x) == multiset(Filter(p[..n], mv, thresh))[x]
  {
    if n > 0 {
      FilterCount(m, p, n - 1, mv, thresh, x);
      assert p[..n][..n - 1] == p[..n - 1];
    }
  }

  lemma {:induction false} CountIsMultiset(p: seq<Sample>, n: nat, x: Sample)
    requires n <= |p|
    ensures CountOf(p, n, x) == multiset(p[..n])[x]
  {
    if n > 0 {
      CountIsMultiset(p, n - 1, x);
      assert p[..n] == p[..n - 1] + [p[n - 1]];
    }
  }

  lemma CompactedIsPermutation(m0: seq<int>, p0: seq<Sample>, p: seq<Sample>, n: nat, ret: nat, mv: Mv, thresh: nat)
    requires Marks(m0, p0, n, mv, thresh) && ret <= |p| && Compacted(m0, p0, p, n, ret)
    ensures multiset(p[..ret]) == multiset(Filter(p0[..n], mv, thresh))
  {
    hide Filter, KeptOf, CountOf, Kept;
    forall x ensures multiset(p[..ret])[x] == multiset(Filter(p0[..n], mv, thresh))[x] {
      FilterCount(m0, p0, n, mv, thresh, x);
      CountIsMultiset(p, ret, x);
      assert CountOf(p, ret, x) == KeptOf(m0, p0, 0, n, x);
    }
  }
}
