/** The CDEF filter of one block. Unavailable taps are marked by a sentinel, and two of the three
    branches skip the final clip; both must give what the standard's filter gives, which leaves
    unavailable taps out and always clips (section 7.15.3 of the AV1 specification). */
module CdefKernel {
  import opened CdefPadding
  import opened IntOps

  /** An offset in rows and columns; taps reach two pixels at most. */
  datatype Offset = Offset(di: int, dj: int) {
    predicate Valid() { -2 <= di <= 2 && -2 <= dj <= 2 }
    function Negated(): Offset { Offset(-di, -dj) }
    /** The offset as one number, for a buffer with rows of 12. */
    function Flat(): int { di * TMP_STRIDE + dj }
  }

  /** For each of the eight directions, the offsets of the near and the far tap. */
  type Directions = seq<(Offset, Offset)>

  ghost predicate ValidDirections(dirs: Directions) {
    |dirs| == 8 && forall d | 0 <= d < 8 :: dirs[d].0.Valid() && dirs[d].1.Valid()
  }

  /** The table as stored: two directions of wrap-around on each side, so that `dir - 2`, `dir` and
      `dir + 2` are entries `dir`, `dir + 2` and `dir + 4`. */
  function Table(dirs: Directions): (t: Directions)
    requires |dirs| == 8
    ensures |t| == 12
  {
    dirs[6..] + dirs + dirs[..2]
  }

  function At(d: (Offset, Offset), k: nat): Offset { if k == 0 then d.0 else d.1 }

  // ----- The standard's filter -----

  /** What the filter is asked to do: strengths, direction, damping, and the bit depth less 8. */
  datatype Request = Request(pri: nat, sec: nat, dir: nat, damping: int, bpcMin8: nat) {
    ghost predicate Valid() {
      && dir < 8 && (pri != 0 || sec != 0)
      && pri < 32768 && sec < 32768 && damping <= 14
      && (sec != 0 ==> Log2(sec) <= damping)
    }
  }

  /** A tap: where it is, its weight, and the strength that limits it. */
  datatype Tap = Tap(at: Offset, weight: nat, strength: nat)

  /** The value of the tap at `at` from pixel (y, x), or the sentinel when there is none. */
  function Value(taps: seq<int>, y: nat, x: nat, at: Offset): int
    requires |taps| == TMP_SIZE && y < 8 && x < 8 && at.Valid()
  {
    taps[(y + 2 + at.di) * TMP_STRIDE + x + 2 + at.dj]
  }

  predicate IsAvailable(taps: seq<int>, y: nat, x: nat, at: Offset)
    requires |taps| == TMP_SIZE && y < 8 && x < 8 && at.Valid()
  {
    Value(taps, y, x, at) != SENTINEL
  }

  function Centre(taps: seq<int>, y: nat, x: nat): int
    requires |taps| == TMP_SIZE && y < 8 && x < 8
  {
    Value(taps, y, x, Offset(0, 0))
  }

  /** The standard's `constrain`: a zero threshold suppresses the tap. */
  function StandardConstrain(diff: int, threshold: nat, damping: int): int {
    if threshold == 0 then 0
    else
      var shift := Max(0, damping - Log2(threshold));
      var mag := Abs(diff);
      var c := Clip(threshold - Shr(mag, shift), 0, mag);
      if diff < 0 then -c else c
  }

  function PriTap(r: Request, k: nat): nat {
    if Shr(r.pri, r.bpcMin8) % 2 == 1 then 3 else if k == 0 then 4 else 2
  }

  /** The six taps at distance `k`: one pair along the direction, two pairs across it. */
  function TapsAt(dirs: Directions, r: Request, k: nat): seq<Tap>
    requires |dirs| == 8 && r.dir < 8 && k < 2
  {
    var p := At(dirs[r.dir], k);
    var s := At(dirs[(r.dir + 2) % 8], k);
    var t := At(dirs[(r.dir + 6) % 8], k);
    [Tap(p, PriTap(r, k), r.pri), Tap(p.Negated(), PriTap(r, k), r.pri),
     Tap(s, 2 - k, r.sec), Tap(s.Negated(), 2 - k, r.sec),
     Tap(t, 2 - k, r.sec), Tap(t.Negated(), 2 - k, r.sec)]
  }

  ghost predicate ValidTaps(ts: seq<Tap>) {
    forall i | 0 <= i < |ts| :: ts[i].at.Valid()
  }

  function Contribution(taps: seq<int>, y: nat, x: nat, damping: int, t: Tap): int
    requires |taps| == TMP_SIZE && y < 8 && x < 8 && t.at.Valid()
  {
    if IsAvailable(taps, y, x, t.at)
    then t.weight * StandardConstrain(Value(taps, y, x, t.at) - Centre(taps, y, x), t.strength, damping)
    else 0
  }

  function Sum(taps: seq<int>, y: nat, x: nat, damping: int, ts: seq<Tap>): int
    requires |taps| == TMP_SIZE && y < 8 && x < 8 && ValidTaps(ts)
  {
    if ts == [] then 0
    else Sum(taps, y, x, damping, ts[..|ts| - 1]) + Contribution(taps, y, x, damping, ts[|ts| - 1])
  }

  /** The largest of the pixel and its available taps. */
  function Largest(taps: seq<int>, y: nat, x: nat, ts: seq<Tap>): int
    requires |taps| == TMP_SIZE && y < 8 && x < 8 && ValidTaps(ts)
  {
    if ts == [] then Centre(taps, y, x)
    else
      var rest := Largest(taps, y, x, ts[..|ts| - 1]);
      var t := ts[|ts| - 1];
      if IsAvailable(taps, y, x, t.at) then Max(Value(taps, y, x, t.at), rest) else rest
  }

  /** The smallest of the pixel and its available taps. */
  function Smallest(taps: seq<int>, y: nat, x: nat, ts: seq<Tap>): int
    requires |taps| == TMP_SIZE && y < 8 && x < 8 && ValidTaps(ts)
  {
    if ts == [] then Centre(taps, y, x)
    else
      var rest := Smallest(taps, y, x, ts[..|ts| - 1]);
      var t := ts[|ts| - 1];
      if IsAvailable(taps, y, x, t.at) then Min(Value(taps, y, x, t.at), rest) else rest
  }

  function Round16(sum: int): int {
    Shr(8 + sum - (if sum < 0 then 1 else 0), 4)
  }

  /** The sum counts sixteenths. They are rounded to the nearest whole number, halves away from zero. */
  lemma RoundsToNearest(sum: int)
    ensures sum >= 0 ==> 16 * Round16(sum) - 8 <= sum < 16 * Round16(sum) + 8
    ensures Round16(-sum) == -Round16(sum)
  {
    assert Pow2(4) == 16;
  }

  /** With `n` the position of the threshold's leading bit and `q` the part of the difference that the
      damping leaves: a difference is kept while it and that part stay within the threshold, then it loses
      what is too much, and when that part alone reaches the threshold nothing is left of it. */
  lemma ConstrainLaws(diff: int, threshold: nat, damping: int, n: nat, q: nat)
    requires Pow2(n) <= threshold < 2 * Pow2(n)
    requires var d := Pow2(Max(0, damping - n)); q * d <= Abs(diff) < (q + 1) * d
    ensures var c := StandardConstrain(diff, threshold, damping);
            && (Abs(diff) + q <= threshold ==> c == diff)
            && (q < threshold < Abs(diff) + q ==> Abs(c) == threshold - q && (c < 0 <==> diff < 0))
            && (q >= threshold ==> c == 0)
    ensures StandardConstrain(diff, 0, damping) == 0
  {
    Log2Unique(threshold, n);
    var d := Pow2(Max(0, damping - n));
    QuotientIs(Abs(diff), d, q, Abs(diff) - q * d) by { assert (q + 1) * d == q * d + d; }
    hide Pow2, Log2;
  }

  /** The largest and the smallest of the pixel and its available taps. */
  lemma {:induction false} ExtremesAre(taps: seq<int>, y: nat, x: nat, ts: seq<Tap>)
    requires |taps| == TMP_SIZE && y < 8 && x < 8 && ValidTaps(ts)
    ensures var (a, b) := (Smallest(taps, y, x, ts), Largest(taps, y, x, ts));
            && a <= Centre(taps, y, x) <= b && IsTapOrCentre(taps, y, x, ts, a) && IsTapOrCentre(taps, y, x, ts, b)
            && forall i | 0 <= i < |ts| && IsAvailable(taps, y, x, ts[i].at) :: a <= Value(taps, y, x, ts[i].at) <= b
  {
    hide Value, IsAvailable;
    if ts != [] {
      var n := |ts| - 1;
      ExtremesAre(taps, y, x, ts[..n]);
      var a, b := Smallest(taps, y, x, ts[..n]), Largest(taps, y, x, ts[..n]);
      TapOrCentreGrows(taps, y, x, ts, a);
      TapOrCentreGrows(taps, y, x, ts, b);
      forall i | 0 <= i < |ts| && IsAvailable(taps, y, x, ts[i].at)
        ensures Smallest(taps, y, x, ts) <= Value(taps, y, x, ts[i].at) <= Largest(taps, y, x, ts)
      {
        if i < n {
          assert ts[..n][i] == ts[i];
        }
      }
    }
  }

  ghost predicate IsTapOrCentre(taps: seq<int>, y: nat, x: nat, ts: seq<Tap>, v: int)
    requires |taps| == TMP_SIZE && y < 8 && x < 8 && ValidTaps(ts)
  {
    v == Centre(taps, y, x)
    || exists i :: 0 <= i < |ts| && IsAvailable(taps, y, x, ts[i].at) && v == Value(taps, y, x, ts[i].at)
  }

  lemma TapOrCentreGrows(taps: seq<int>, y: nat, x: nat, ts: seq<Tap>, v: int)
    requires |taps| == TMP_SIZE && y < 8 && x < 8 && ValidTaps(ts) && ts != []
    requires IsTapOrCentre(taps, y, x, ts[..|ts| - 1], v)
    ensures IsTapOrCentre(taps, y, x, ts, v)
  {
    hide Value, IsAvailable;
    var before := ts[..|ts| - 1];
    if i :| 0 <= i < |before| && IsAvailable(taps, y, x, before[i].at) && v == Value(taps, y, x, before[i].at) {
      assert ts[i] == before[i];
    }
  }

  /** The taps at one distance: a pair along the direction with the primary strength, and two pairs with the
      secondary one, each pair on opposite sides. The weights of the two distances are four and two, or
      twice three if the strength, at eight bits, is odd, along the direction; two and one across. */
  lemma TapWeights(dirs: Directions, r: Request, m: nat)
    requires ValidDirections(dirs) && r.dir < 8
    requires m * Pow2(r.bpcMin8) <= r.pri < (m + 1) * Pow2(r.bpcMin8)
    ensures forall k: nat, i: nat | k < 2 && i < 3 ::
              var u := TapsAt(dirs, r, k);
              && u[2 * i].at == u[2 * i + 1].at.Negated() && u[2 * i].weight == u[2 * i + 1].weight
              && u[2 * i].strength == u[2 * i + 1].strength == if i == 0 then r.pri else r.sec
    ensures forall k: nat | k < 2 ::
              var u := TapsAt(dirs, r, k);
              && u[0].weight == (if m % 2 == 1 then 3 else if k == 0 then 4 else 2)
              && u[2].weight == u[4].weight == if k == 0 then 2 else 1
  {
    var d := Pow2(r.bpcMin8);
    QuotientIs(r.pri, d, m, r.pri - m * d) by { assert (m + 1) * d == m * d + d; }
    hide Pow2;
  }

  /** The filtered pixel. */
  function StandardPixel(taps: seq<int>, dirs: Directions, r: Request, y: nat, x: nat): int
    requires |taps| == TMP_SIZE && y < 8 && x < 8 && ValidDirections(dirs) && r.dir < 8
  {
    var ts := TapsAt(dirs, r, 0) + TapsAt(dirs, r, 1);
    Clip(Centre(taps, y, x) + Round16(Sum(taps, y, x, r.damping, ts)),
         Smallest(taps, y, x, ts), Largest(taps, y, x, ts))
  }

  // ----- The kernel's arithmetic -----

  function Constrain(diff: int, threshold: int, shift: nat): int {
    var adiff := Abs(diff);
    var c := Min(adiff, Max(0, threshold - Shr(adiff, shift)));
    if diff < 0 then -c else c
  }

  /** The smaller of two integers compared as unsigned numbers. */
  function UnsignedMin(a: int, b: int): int {
    AsInt(Min(AsUint(a), AsUint(b)))
  }

  /** Every cell is the sentinel or a pixel of at most 12 bits. */
  ghost predicate PixelTaps(taps: seq<int>) {
    |taps| == TMP_SIZE && forall k | 0 <= k < TMP_SIZE :: taps[k] == SENTINEL || 0 <= taps[k] < 4096
  }

  /** However the damping shifts it, the distance of the sentinel stays above every threshold. */
  lemma ThresholdBelowSentinel(px: nat, threshold: nat, shift: nat)
    requires 0 < threshold < 32768 && shift <= Max(0, 14 - Log2(threshold))
    ensures threshold <= Shr(32768 + px, shift)
  {
    var l := Log2(threshold);
    Log2Bounds(threshold);
    Pow2Below15(l, shift);
    assert Pow2(l + 1) == 2 * Pow2(l);
    if shift == 0 {
      assert Pow2(0) == 1;
    } else {
      hide Pow2, Log2;
      QuotientAtLeast(32768 + px, Pow2(shift), Pow2(l + 1));
    }
  }

  lemma Pow2Below15(l: nat, shift: nat)
    ensures l + shift <= 14 ==> Pow2(l + 1) * Pow2(shift) <= 32768
  {
    assert Pow2(15) == 32768 by {
      assert Pow2(10) == 1024;
      Pow2Sum(10, 5);
    }
    if l + shift <= 14 {
      hide Pow2;
      Pow2Sum(l + 1, shift);
      Pow2Monotonic(l + 1 + shift, 15);
    }
  }

  /** The sentinel is so far from every pixel that no strength survives the shift. */
  lemma SentinelVanishes(px: nat, threshold: nat, damping: int)
    requires px < 4096 && 0 < threshold < 32768 && damping <= 14
    ensures Constrain(SENTINEL - px, threshold, Max(0, damping - Log2(threshold))) == 0
  {
    hide Shr, Log2;
    ThresholdBelowSentinel(px, threshold, Max(0, damping - Log2(threshold)));
  }

  /** The comparisons ignore the sentinel: as a signed number it is below every pixel, as an unsigned
      number above. */
  lemma SentinelNeverWins(b: nat)
    requires b < 4096
    ensures UnsignedMin(SENTINEL, b) == b && Max(SENTINEL, b) == b
    ensures forall a: nat | a < 4096 :: UnsignedMin(a, b) == Min(a, b)
  {
  }

  /** One weighted tap of the kernel is the standard's contribution, available or not. */
  lemma KernelTap(taps: seq<int>, y: nat, x: nat, damping: int, t: Tap)
    requires PixelTaps(taps) && y < 8 && x < 8 && t.at.Valid() && Centre(taps, y, x) != SENTINEL
    requires 0 < t.strength < 32768 && damping <= 14
    ensures t.weight * Constrain(Value(taps, y, x, t.at) - Centre(taps, y, x), t.strength,
                                 Max(0, damping - Log2(t.strength)))
         == Contribution(taps, y, x, damping, t)
  {
    if !IsAvailable(taps, y, x, t.at) {
      SentinelVanishes(Centre(taps, y, x), t.strength, damping);
    }
  }

  lemma SumAppend(taps: seq<int>, y: nat, x: nat, damping: int, ts: seq<Tap>, t: Tap)
    requires |taps| == TMP_SIZE && y < 8 && x < 8 && ValidTaps(ts) && t.at.Valid()
    ensures Sum(taps, y, x, damping, ts + [t]) == Sum(taps, y, x, damping, ts) + Contribution(taps, y, x, damping, t)
  {
    assert (ts + [t])[..|ts|] == ts;
  }

  lemma SumSix(taps: seq<int>, y: nat, x: nat, damping: int, ts: seq<Tap>, u: seq<Tap>)
    requires |taps| == TMP_SIZE && y < 8 && x < 8 && ValidTaps(ts) && ValidTaps(u) && |u| == 6
    ensures Sum(taps, y, x, damping, ts + u) == Sum(taps, y, x, damping, ts)
              + Contribution(taps, y, x, damping, u[0]) + Contribution(taps, y, x, damping, u[1])
              + Contribution(taps, y, x, damping, u[2]) + Contribution(taps, y, x, damping, u[3])
              + Contribution(taps, y, x, damping, u[4]) + Contribution(taps, y, x, damping, u[5])
  {
    assert ts + u[..0] == ts;
    for n := 0 to 6
      invariant Sum(taps, y, x, damping, ts + u[..n]) == Sum(taps, y, x, damping, ts)
              + (if n > 0 then Contribution(taps, y, x, damping, u[0]) else 0)
              + (if n > 1 then Contribution(taps, y, x, damping, u[1]) else 0)
              + (if n > 2 then Contribution(taps, y, x, damping, u[2]) else 0)
              + (if n > 3 then Contribution(taps, y, x, damping, u[3]) else 0)
              + (if n > 4 then Contribution(taps, y, x, damping, u[4]) else 0)
              + (if n > 5 then Contribution(taps, y, x, damping, u[5]) else 0)
    {
      SumAppend(taps, y, x, damping, ts + u[..n], u[n]);
      assert ts + u[..n] + [u[n]] == ts + u[..n + 1];
    }
    assert u[..6] == u;
  }

  /** The total weight of the taps that have a strength. */
  function Weight(ts: seq<Tap>): nat {
    if ts == [] then 0
    else Weight(ts[..|ts| - 1]) + EffectiveWeight(ts[|ts| - 1])
  }

  lemma WeightAppend(ts: seq<Tap>, t: Tap)
    ensures Weight(ts + [t]) == Weight(ts) + EffectiveWeight(t)
  {
    assert (ts + [t])[..|ts|] == ts;
  }

  function EffectiveWeight(t: Tap): nat { if t.strength == 0 then 0 else t.weight }

  lemma ContributionBounded(taps: seq<int>, y: nat, x: nat, damping: int, t: Tap, lo: int, hi: int)
    requires |taps| == TMP_SIZE && y < 8 && x < 8 && t.at.Valid()
    requires lo <= Centre(taps, y, x) <= hi
    requires IsAvailable(taps, y, x, t.at) ==> lo <= Value(taps, y, x, t.at) <= hi
    ensures EffectiveWeight(t) * (lo - Centre(taps, y, x)) <= Contribution(taps, y, x, damping, t)
         <= EffectiveWeight(t) * (hi - Centre(taps, y, x))
  {
    var w, px := EffectiveWeight(t), Centre(taps, y, x);
    if IsAvailable(taps, y, x, t.at) && t.strength != 0 {
      var d := StandardConstrain(Value(taps, y, x, t.at) - px, t.strength, damping);
      Scale(w, lo - px, d);
      Scale(w, d, hi - px);
    } else {
      Scale(w, lo - px, 0);
      Scale(w, 0, hi - px);
    }
  }

  /** The weighted sum cannot pull the pixel further than the total weight times the distance to the
      smallest or the largest tap. */
  lemma {:induction false} SumBounded(taps: seq<int>, y: nat, x: nat, damping: int, ts: seq<Tap>, lo: int, hi: int)
    requires |taps| == TMP_SIZE && y < 8 && x < 8 && ValidTaps(ts)
    requires lo <= Smallest(taps, y, x, ts) && Largest(taps, y, x, ts) <= hi
    requires lo <= Centre(taps, y, x) <= hi
    ensures Weight(ts) * (lo - Centre(taps, y, x)) <= Sum(taps, y, x, damping, ts)
         <= Weight(ts) * (hi - Centre(taps, y, x))
  {
    if ts != [] {
      var rest, t, px := ts[..|ts| - 1], ts[|ts| - 1], Centre(taps, y, x);
      SumBounded(taps, y, x, damping, rest, lo, hi);
      ContributionBounded(taps, y, x, damping, t, lo, hi);
      Distribute(Weight(rest), EffectiveWeight(t), hi - px);
      Distribute(Weight(rest), EffectiveWeight(t), lo - px);
    }
  }

  lemma Scale(w: nat, a: int, b: int)
    requires a <= b
    ensures w * a <= w * b
  {
  }

  lemma Distribute(a: int, b: int, c: int)
    ensures (a + b) * c == a * c + b * c
  {
  }

  lemma {:induction false} Extremes(taps: seq<int>, y: nat, x: nat, ts: seq<Tap>)
    requires |taps| == TMP_SIZE && y < 8 && x < 8 && ValidTaps(ts)
    ensures Smallest(taps, y, x, ts) <= Centre(taps, y, x) <= Largest(taps, y, x, ts)
  {
    if ts != [] {
      Extremes(taps, y, x, ts[..|ts| - 1]);
    }
  }

  lemma Round16Within(sum: int, below: int, above: int)
    requires 0 <= below && 0 <= above && -15 * below <= sum <= 15 * above
    ensures -below <= Round16(sum) <= above
  {
    assert Pow2(4) == 16;
  }

  /** With a total weight below 16 the rounded sum cannot leave the range of the taps, so the clip the
      standard performs changes nothing. */
  lemma ClipRedundant(taps: seq<int>, y: nat, x: nat, damping: int, ts: seq<Tap>)
    requires |taps| == TMP_SIZE && y < 8 && x < 8 && ValidTaps(ts) && Weight(ts) <= 15
    ensures var v := Centre(taps, y, x) + Round16(Sum(taps, y, x, damping, ts));
            Smallest(taps, y, x, ts) <= v <= Largest(taps, y, x, ts)
  {
    hide Smallest, Largest, Centre, Sum, Weight, Round16;
    var lo, hi, px := Smallest(taps, y, x, ts), Largest(taps, y, x, ts), Centre(taps, y, x);
    Extremes(taps, y, x, ts);
    SumBounded(taps, y, x, damping, ts, lo, hi);
    Scale(hi - px, Weight(ts), 15);
    Scale(px - lo, Weight(ts), 15);
    Round16Within(Sum(taps, y, x, damping, ts), px - lo, hi - px);
  }

  // ----- The kernel -----

  /** The running sum and the running extremes of one pixel. */
  datatype Acc = Acc(sum: int, min: int, max: int)

  ghost predicate Represents(a: Acc, taps: seq<int>, y: nat, x: nat, damping: int, ts: seq<Tap>)
    requires |taps| == TMP_SIZE && y < 8 && x < 8 && ValidTaps(ts)
  {
    && a.sum == Sum(taps, y, x, damping, ts)
    && a.min == Smallest(taps, y, x, ts) && a.max == Largest(taps, y, x, ts)
    && 0 <= a.min < 4096 && 0 <= a.max < 4096
  }

  /** Adds the tap at flat offset `off` from pixel (y, x). */
  method VisitTap(a: Acc, taps: seq<int>, px: nat, y: nat, x: nat, off: int, weight: nat, strength: nat, shift: nat,
                  ghost damping: int, ghost ts: seq<Tap>, ghost t: Tap) returns (b: Acc)
    requires PixelTaps(taps) && y < 8 && x < 8 && px == Centre(taps, y, x) && px < 4096
    requires ValidTaps(ts) && t.at.Valid() && off == t.at.Flat() && weight == t.weight && strength == t.strength
    requires 0 < strength < 32768 && damping <= 14 && shift == Max(0, damping - Log2(strength))
    requires Represents(a, taps, y, x, damping, ts)
    ensures ValidTaps(ts + [t]) && Represents(b, taps, y, x, damping, ts + [t])
  {
    var p := taps[y * TMP_STRIDE + x + 2 * TMP_STRIDE + 2 + off];
    assert p == Value(taps, y, x, t.at);
    hide Shr, Pow2, Log2, Contribution, Constrain, Offset.Flat, UnsignedMin;
    b := Acc(a.sum + weight * Constrain(p - px, strength, shift), UnsignedMin(p, a.min), Max(p, a.max));
    KernelTap(taps, y, x, damping, t);
    SentinelNeverWins(a.min);
    SentinelNeverWins(a.max);
    assert (ts + [t])[..|ts|] == ts;
  }

  /** `t & 3 | 2`: 4 becomes 2, 3 remains 3. */
  function NextPriTap(t: nat): nat { 2 + t % 2 }

  ghost function TapsUpTo(dirs: Directions, r: Request, k: nat): (ts: seq<Tap>)
    requires ValidDirections(dirs) && r.dir < 8 && k <= 2
    ensures ValidTaps(ts)
  {
    if k == 0 then [] else TapsUpTo(dirs, r, k - 1) + TapsAt(dirs, r, k - 1)
  }

  /** The offsets the kernel looks up in the wrapped table are those of the six taps. */
  lemma TableOffsets(dirs: Directions, r: Request, k: nat)
    requires ValidDirections(dirs) && r.dir < 8 && k < 2
    ensures var t, u := Table(dirs), TapsAt(dirs, r, k);
            && |u| == 6 && ValidTaps(u)
            && At(t[r.dir + 2], k).Flat() == u[0].at.Flat() == -u[1].at.Flat()
            && At(t[r.dir + 4], k).Flat() == u[2].at.Flat() == -u[3].at.Flat()
            && At(t[r.dir], k).Flat() == u[4].at.Flat() == -u[5].at.Flat()
  {
    hide Shr, Pow2, Log2, PriTap, Table, Offset.Flat, Offset.Negated, Offset.Valid;
    TableEntries(dirs, r.dir);
    FlatNegated(At(dirs[r.dir], k));
    FlatNegated(At(dirs[(r.dir + 2) % 8], k));
    FlatNegated(At(dirs[(r.dir + 6) % 8], k));
  }

  lemma FlatNegated(o: Offset)
    ensures o.Negated().Flat() == -o.Flat()
    ensures o.Valid() ==> o.Negated().Valid()
  {
  }

  lemma TableEntries(dirs: Directions, d: nat)
    requires |dirs| == 8 && d < 8
    ensures Table(dirs)[d + 2] == dirs[d]
    ensures Table(dirs)[d + 4] == dirs[(d + 2) % 8]
    ensures Table(dirs)[d] == dirs[(d + 6) % 8]
  {
  }

  /** The six taps at distance `k`, in the branch that has both strengths. */
  method VisitDistance(a: Acc, taps: seq<int>, table: Directions, r: Request, px: nat, y: nat, x: nat, k: nat,
                       priTap: nat, ghost dirs: Directions) returns (b: Acc)
    requires PixelTaps(taps) && y < 8 && x < 8 && px == Centre(taps, y, x) && px < 4096
    requires ValidDirections(dirs) && table == Table(dirs) && r.Valid() && r.pri != 0 && r.sec != 0
    requires k < 2 && priTap == PriTap(r, k)
    requires Represents(a, taps, y, x, r.damping, TapsUpTo(dirs, r, k))
    ensures Represents(b, taps, y, x, r.damping, TapsUpTo(dirs, r, k + 1))
  {
    hide Shr, Pow2, Log2, Contribution, Table, Sum, Smallest, Largest;
    var priShift := Max(0, r.damping - Log2(r.pri));
    var secShift := r.damping - Log2(r.sec);
    ghost var ts, u := TapsUpTo(dirs, r, k), TapsAt(dirs, r, k);
    TableOffsets(dirs, r, k);
    var off1 := At(table[r.dir + 2], k).Flat();
    b := VisitTap(a, taps, px, y, x, off1, priTap, r.pri, priShift, r.damping, ts, u[0]);
    b := VisitTap(b, taps, px, y, x, -off1, priTap, r.pri, priShift, r.damping, ts + [u[0]], u[1]);
    var off2, off3 := At(table[r.dir + 4], k).Flat(), At(table[r.dir], k).Flat();
    var secTap := 2 - k;
    b := VisitTap(b, taps, px, y, x, off2, secTap, r.sec, secShift, r.damping, ts + [u[0]] + [u[1]], u[2]);
    b := VisitTap(b, taps, px, y, x, -off2, secTap, r.sec, secShift, r.damping, ts + [u[0]] + [u[1]] + [u[2]], u[3]);
    b := VisitTap(b, taps, px, y, x, off3, secTap, r.sec, secShift, r.damping,
                  ts + [u[0]] + [u[1]] + [u[2]] + [u[3]], u[4]);
    b := VisitTap(b, taps, px, y, x, -off3, secTap, r.sec, secShift, r.damping,
                  ts + [u[0]] + [u[1]] + [u[2]] + [u[3]] + [u[4]], u[5]);
    assert ts + [u[0]] + [u[1]] + [u[2]] + [u[3]] + [u[4]] + [u[5]] == ts + u;
  }

  /** One pixel when both strengths are present: the only branch that clips. */
  method PixelBoth(taps: seq<int>, table: Directions, r: Request, px: nat, y: nat, x: nat, ghost dirs: Directions)
    returns (v: int)
    requires PixelTaps(taps) && y < 8 && x < 8 && px == Centre(taps, y, x) && px < 4096
    requires ValidDirections(dirs) && table == Table(dirs) && r.Valid() && r.pri != 0 && r.sec != 0
    ensures v == StandardPixel(taps, dirs, r, y, x)
  {
    var a := Acc(0, px, px);
    var priTap := 4 - Shr(r.pri, r.bpcMin8) % 2;
    assert Represents(a, taps, y, x, r.damping, TapsUpTo(dirs, r, 0)) && priTap == PriTap(r, 0);
    assert NextPriTap(priTap) == PriTap(r, 1);
    hide Shr, Represents, TapsUpTo, PriTap, NextPriTap, Table, StandardPixel, PixelTaps, Request.Valid, ValidDirections;
    for k := 0 to 2
      invariant Represents(a, taps, y, x, r.damping, TapsUpTo(dirs, r, k))
      invariant k < 2 ==> priTap == PriTap(r, k)
    {
      a := VisitDistance(a, taps, table, r, px, y, x, k, priTap, dirs);
      priTap := NextPriTap(priTap);
    }
    RepresentsPixel(a, taps, dirs, r, y, x);
    v := Clip(px + Round16(a.sum), a.min, a.max);
  }

  lemma RepresentsPixel(a: Acc, taps: seq<int>, dirs: Directions, r: Request, y: nat, x: nat)
    requires |taps| == TMP_SIZE && y < 8 && x < 8 && ValidDirections(dirs) && r.dir < 8
    requires Represents(a, taps, y, x, r.damping, TapsUpTo(dirs, r, 2))
    ensures Clip(Centre(taps, y, x) + Round16(a.sum), a.min, a.max) == StandardPixel(taps, dirs, r, y, x)
  {
    hide Sum, Smallest, Largest, Clip, TapsUpTo, TapsAt, Round16, Centre, ValidDirections;
    AllTaps(dirs, r);
    var ts := TapsUpTo(dirs, r, 2);
    assert StandardPixel(taps, dirs, r, y, x)
        == Clip(Centre(taps, y, x) + Round16(Sum(taps, y, x, r.damping, ts)),
                Smallest(taps, y, x, ts), Largest(taps, y, x, ts));
  }

  lemma AllTaps(dirs: Directions, r: Request)
    requires ValidDirections(dirs) && r.dir < 8
    ensures TapsUpTo(dirs, r, 2) == TapsAt(dirs, r, 0) + TapsAt(dirs, r, 1)
  {
    assert TapsUpTo(dirs, r, 1) == TapsAt(dirs, r, 0);
  }

  /** With only one of the strengths the weights total 12, so the clip may be left out. */
  lemma OneStrengthWeighsTwelve(dirs: Directions, r: Request)
    requires ValidDirections(dirs) && r.dir < 8 && (r.pri == 0 || r.sec == 0)
    ensures Weight(TapsUpTo(dirs, r, 2)) <= 12
  {
    WeightSix(TapsUpTo(dirs, r, 1), TapsAt(dirs, r, 1));
    WeightSix(TapsUpTo(dirs, r, 0), TapsAt(dirs, r, 0));
  }

  lemma WeightSix(ts: seq<Tap>, u: seq<Tap>)
    requires |u| == 6
    ensures Weight(ts + u) == Weight(ts)
              + EffectiveWeight(u[0]) + EffectiveWeight(u[1]) + EffectiveWeight(u[2])
              + EffectiveWeight(u[3]) + EffectiveWeight(u[4]) + EffectiveWeight(u[5])
  {
    assert u == [u[0], u[1], u[2], u[3], u[4], u[5]];
    WeightAppend(ts, u[0]);
    WeightAppend(ts + [u[0]], u[1]);
    WeightAppend(ts + [u[0]] + [u[1]], u[2]);
    WeightAppend(ts + [u[0]] + [u[1]] + [u[2]], u[3]);
    WeightAppend(ts + [u[0]] + [u[1]] + [u[2]] + [u[3]], u[4]);
    WeightAppend(ts + [u[0]] + [u[1]] + [u[2]] + [u[3]] + [u[4]], u[5]);
    assert ts + u == ts + [u[0]] + [u[1]] + [u[2]] + [u[3]] + [u[4]] + [u[5]];
  }

  /** The unclipped result of the two single-strength branches is the standard's pixel. */
  lemma UnclippedIsStandard(taps: seq<int>, dirs: Directions, r: Request, y: nat, x: nat)
    requires |taps| == TMP_SIZE && y < 8 && x < 8 && ValidDirections(dirs) && r.dir < 8
    requires r.pri == 0 || r.sec == 0
    ensures StandardPixel(taps, dirs, r, y, x)
         == Centre(taps, y, x) + Round16(Sum(taps, y, x, r.damping, TapsUpTo(dirs, r, 2)))
  {
    AllTaps(dirs, r);
    OneStrengthWeighsTwelve(dirs, r);
    ClipRedundant(taps, y, x, r.damping, TapsUpTo(dirs, r, 2));
  }

  /** What distance `k` adds to the sum. */
  lemma SumStep(taps: seq<int>, dirs: Directions, r: Request, y: nat, x: nat, k: nat)
    requires |taps| == TMP_SIZE && y < 8 && x < 8 && ValidDirections(dirs) && r.dir < 8 && k < 2
    ensures Sum(taps, y, x, r.damping, TapsUpTo(dirs, r, 0)) == 0
    ensures var u := TapsAt(dirs, r, k);
            ValidTaps(u) && Sum(taps, y, x, r.damping, TapsUpTo(dirs, r, k + 1))
              == Sum(taps, y, x, r.damping, TapsUpTo(dirs, r, k))
              + (if r.pri == 0 then 0
                 else Contribution(taps, y, x, r.damping, u[0]) + Contribution(taps, y, x, r.damping, u[1]))
              + (if r.sec == 0 then 0
                 else Contribution(taps, y, x, r.damping, u[2]) + Contribution(taps, y, x, r.damping, u[3])
                      + Contribution(taps, y, x, r.damping, u[4]) + Contribution(taps, y, x, r.damping, u[5]))
  {
    TableOffsets(dirs, r, k);
    SumSix(taps, y, x, r.damping, TapsUpTo(dirs, r, k), TapsAt(dirs, r, k));
  }

  /** One weighted tap of a branch that keeps no extremes. */
  method TapTerm(taps: seq<int>, px: nat, y: nat, x: nat, off: int, weight: nat, strength: nat, shift: nat,
                 ghost damping: int, ghost t: Tap) returns (c: int)
    requires PixelTaps(taps) && y < 8 && x < 8 && px == Centre(taps, y, x) && px < 4096
    requires t.at.Valid() && off == t.at.Flat() && weight == t.weight && strength == t.strength
    requires 0 < strength < 32768 && damping <= 14 && shift == Max(0, damping - Log2(strength))
    ensures c == Contribution(taps, y, x, damping, t)
  {
    c := weight * Constrain(taps[y * TMP_STRIDE + x + 2 * TMP_STRIDE + 2 + off] - px, strength, shift);
    KernelTap(taps, y, x, damping, t);
  }

  /** One pixel with the primary strength alone. */
  method PixelPri(taps: seq<int>, table: Directions, r: Request, px: nat, y: nat, x: nat, ghost dirs: Directions)
    returns (v: int)
    requires PixelTaps(taps) && y < 8 && x < 8 && px == Centre(taps, y, x) && px < 4096
    requires ValidDirections(dirs) && table == Table(dirs) && r.Valid() && r.pri != 0 && r.sec == 0
    ensures v == StandardPixel(taps, dirs, r, y, x)
  {
    hide Shr, Pow2, Log2, Table, Sum, Contribution, StandardPixel, Offset.Flat, Offset.Negated;
    var priShift := Max(0, r.damping - Log2(r.pri));
    var sum := 0;
    SumStep(taps, dirs, r, y, x, 0);
    var priTap := 4 - Shr(r.pri, r.bpcMin8) % 2;
    for k := 0 to 2
      invariant sum == Sum(taps, y, x, r.damping, TapsUpTo(dirs, r, k))
      invariant k < 2 ==> priTap == PriTap(r, k)
    {
      ghost var u := TapsAt(dirs, r, k);
      TableOffsets(dirs, r, k);
      var off := At(table[r.dir + 2], k).Flat();
      var c0 := TapTerm(taps, px, y, x, off, priTap, r.pri, priShift, r.damping, u[0]);
      var c1 := TapTerm(taps, px, y, x, -off, priTap, r.pri, priShift, r.damping, u[1]);
      SumStep(taps, dirs, r, y, x, k);
      sum := sum + c0 + c1;
      priTap := NextPriTap(priTap);
    }
    UnclippedIsStandard(taps, dirs, r, y, x);
    v := px + Round16(sum);
  }

  /** One pixel with the secondary strength alone. */
  method PixelSec(taps: seq<int>, table: Directions, r: Request, px: nat, y: nat, x: nat, ghost dirs: Directions)
    returns (v: int)
    requires PixelTaps(taps) && y < 8 && x < 8 && px == Centre(taps, y, x) && px < 4096
    requires ValidDirections(dirs) && table == Table(dirs) && r.Valid() && r.pri == 0
    ensures v == StandardPixel(taps, dirs, r, y, x)
  {
    hide Shr, Pow2, Log2, Table, Sum, Contribution, StandardPixel, Offset.Flat, Offset.Negated;
    var secShift := r.damping - Log2(r.sec);
    var sum := 0;
    SumStep(taps, dirs, r, y, x, 0);
    for k := 0 to 2
      invariant sum == Sum(taps, y, x, r.damping, TapsUpTo(dirs, r, k))
    {
      ghost var u := TapsAt(dirs, r, k);
      TableOffsets(dirs, r, k);
      var off1, off2 := At(table[r.dir + 4], k).Flat(), At(table[r.dir], k).Flat();
      var secTap := 2 - k;
      var c2 := TapTerm(taps, px, y, x, off1, secTap, r.sec, secShift, r.damping, u[2]);
      var c3 := TapTerm(taps, px, y, x, -off1, secTap, r.sec, secShift, r.damping, u[3]);
      var c4 := TapTerm(taps, px, y, x, off2, secTap, r.sec, secShift, r.damping, u[4]);
      var c5 := TapTerm(taps, px, y, x, -off2, secTap, r.sec, secShift, r.damping, u[5]);
      SumStep(taps, dirs, r, y, x, k);
      sum := sum + c2 + c3 + c4 + c5;
    }
    UnclippedIsStandard(taps, dirs, r, y, x);
    v := px + Round16(sum);
  }

  /** One pixel, by the branch its strengths select. */
  method FilterPixel(taps: seq<int>, table: Directions, r: Request, px: nat, y: nat, x: nat, ghost dirs: Directions)
    returns (v: int)
    requires PixelTaps(taps) && y < 8 && x < 8 && px == Centre(taps, y, x) && px < 4096
    requires ValidDirections(dirs) && table == Table(dirs) && r.Valid()
    ensures v == StandardPixel(taps, dirs, r, y, x)
  {
    if r.pri != 0 {
      if r.sec != 0 {
        v := PixelBoth(taps, table, r, px, y, x, dirs);
      } else {
        v := PixelPri(taps, table, r, px, y, x, dirs);
      }
    } else {
      v := PixelSec(taps, table, r, px, y, x, dirs);
    }
  }

  /** The taps that will be gathered are pixels or the sentinel, and the block itself consists of pixels. */
  ghost predicate GathersPixels(pic: array3<int>, pl: nat, r0: nat, c0: nat, left: array4<int>, bit: nat,
                                line: array4<int>, tf: nat, w: nat, h: nat, e: Edges)
    requires BlockSize(w, h) && Fits(pic, pl, r0, c0, w, h, e) && Backups(pic, left, line, bit, tf)
    reads pic, left, line
  {
    forall i, j | 0 <= i < TMP_STRIDE && 0 <= j < TMP_STRIDE ::
      IsTap(Cell(pic, pl, r0, c0, left, bit, line, tf, w, h, e, i, j), 2 <= i < h + 2 && 2 <= j < w + 2)
  }

  /** A pixel, or outside the block the sentinel. */
  predicate IsTap(v: int, inBlock: bool) { 0 <= v < 4096 || (v == SENTINEL && !inBlock) }

  /** `v` is the pixel at (y, x) of the block. */
  ghost predicate IsCentre(taps: seq<int>, v: int, y: int, x: int) {
    |taps| == TMP_SIZE && 0 <= y < 8 && 0 <= x < 8 && 0 <= v == Centre(taps, y, x) < 4096
  }

  /** Row `y` of the block at (r0, c0). */
  method KernelRow(pic: array3<int>, pl: nat, r0: nat, c0: nat, w: nat, taps: seq<int>, table: Directions, r: Request,
                   y: nat, ghost dirs: Directions)
    requires y < 8 && w <= 8 && pl < pic.Length0 && r0 + y < pic.Length1 && c0 + w <= pic.Length2
    requires PixelTaps(taps) && ValidDirections(dirs) && table == Table(dirs) && r.Valid()
    requires forall i, j | i == r0 + y && c0 <= j < c0 + w :: IsCentre(taps, pic[pl, i, j], i - r0, j - c0)
    modifies pic
    ensures forall p, i, j | 0 <= p < pic.Length0 && 0 <= i < pic.Length1 && 0 <= j < pic.Length2 ::
              pic[p, i, j] == if p == pl && i == r0 + y && c0 <= j < c0 + w
                              then StandardPixel(taps, dirs, r, i - r0, j - c0)
                              else old(pic[p, i, j])
  {
    assert |taps| == TMP_SIZE && r.dir < 8;
    hide StandardPixel, Table, Centre, PixelTaps, Request.Valid, ValidDirections;
    for x := 0 to w
      invariant forall p, i, j | 0 <= p < pic.Length0 && 0 <= i < pic.Length1 && 0 <= j < pic.Length2 ::
                  pic[p, i, j] == if p == pl && i == r0 + y && c0 <= j < c0 + x
                                  then StandardPixel(taps, dirs, r, i - r0, j - c0) else old(pic[p, i, j])
    {
      var px := pic[pl, r0 + y, c0 + x];
      ghost var i, j := r0 + y, c0 + x;
      assert IsCentre(taps, old(pic[pl, i, j]), i - r0, j - c0);
      var v := FilterPixel(taps, table, r, px, y, x, dirs);
      pic[pl, r0 + y, c0 + x] := v;
    }
  }

  lemma GatheredArePixels(t: seq<int>, pic: array3<int>, pl: nat, r0: nat, c0: nat, left: array4<int>, bit: nat,
                          line: array4<int>, tf: nat, w: nat, h: nat, e: Edges)
    requires BlockSize(w, h) && Fits(pic, pl, r0, c0, w, h, e) && Backups(pic, left, line, bit, tf)
    requires |t| == TMP_SIZE && GathersPixels(pic, pl, r0, c0, left, bit, line, tf, w, h, e)
    requires forall k | 0 <= k < TMP_SIZE ::
               t[k] == Cell(pic, pl, r0, c0, left, bit, line, tf, w, h, e, k / TMP_STRIDE, k % TMP_STRIDE)
    ensures PixelTaps(t)
    ensures forall i, j | r0 <= i < r0 + h && c0 <= j < c0 + w :: IsCentre(t, pic[pl, i, j], i - r0, j - c0)
  {
    forall k | 0 <= k < TMP_SIZE ensures t[k] == SENTINEL || 0 <= t[k] < 4096 {
      hide Cell;
      var i, j := k / TMP_STRIDE, k % TMP_STRIDE;
      assert IsTap(Cell(pic, pl, r0, c0, left, bit, line, tf, w, h, e, i, j), 2 <= i < h + 2 && 2 <= j < w + 2);
    }
    forall i, j | r0 <= i < r0 + h && c0 <= j < c0 + w ensures IsCentre(t, pic[pl, i, j], i - r0, j - c0) {
      var y, x := i - r0, j - c0;
      var k := (y + 2) * TMP_STRIDE + x + 2;
      assert k / TMP_STRIDE == y + 2 && k % TMP_STRIDE == x + 2;
      assert IsTap(Cell(pic, pl, r0, c0, left, bit, line, tf, w, h, e, y + 2, x + 2), true);
    }
  }

  /** The kernel on one block, in place: gathers the taps, then overwrites every pixel of the block with
      the standard's result for those taps and nothing else. */
  method CdefFilterBlock(pic: array3<int>, pl: nat, r0: nat, c0: nat, left: array4<int>, bit: nat,
                         line: array4<int>, tf: nat, w: nat, h: nat, e: Edges,
                         table: Directions, r: Request, ghost dirs: Directions) returns (ghost taps: seq<int>)
    requires BlockSize(w, h) && Fits(pic, pl, r0, c0, w, h, e) && Backups(pic, left, line, bit, tf)
    requires GathersPixels(pic, pl, r0, c0, left, bit, line, tf, w, h, e)
    requires ValidDirections(dirs) && table == Table(dirs) && r.Valid()
    modifies pic
    ensures |taps| == TMP_SIZE && PixelTaps(taps)
    ensures forall k | 0 <= k < TMP_SIZE ::
              taps[k] == old(Cell(pic, pl, r0, c0, left, bit, line, tf, w, h, e, k / TMP_STRIDE, k % TMP_STRIDE))
    ensures forall p, i, j | 0 <= p < pic.Length0 && 0 <= i < pic.Length1 && 0 <= j < pic.Length2 ::
              pic[p, i, j] == if p == pl && r0 <= i < r0 + h && c0 <= j < c0 + w
                              then StandardPixel(taps, dirs, r, i - r0, j - c0)
                              else old(pic[p, i, j])
  {
    assert |dirs| == 8 && r.dir < 8;
    hide StandardPixel, Table, Centre, PixelTaps, GathersPixels, IsCentre, Request.Valid, ValidDirections, Cell;
    var tmp := Padding(pic, pl, r0, c0, left, bit, line, tf, w, h, e);
    var t := tmp[..];
    taps := t;
    GatheredArePixels(t, pic, pl, r0, c0, left, bit, line, tf, w, h, e);
    for y := 0 to h
      invariant forall p, i, j | 0 <= p < pic.Length0 && 0 <= i < pic.Length1 && 0 <= j < pic.Length2 ::
                  pic[p, i, j] == if p == pl && r0 <= i < r0 + y && c0 <= j < c0 + w
                                  then StandardPixel(t, dirs, r, i - r0, j - c0) else old(pic[p, i, j])
    {
      KernelRow(pic, pl, r0, c0, w, t, table, r, y, dirs);
    }
  }
}
