/** The in-place pass run with the real kernel: what the standard's CDEF gives when it reads a frozen
    frame and treats exactly the taps outside the frame as unavailable. */
module CdefStandard {
  import CdefDirection
  import opened CdefPadding
  import opened IntOps
  import opened LoopFilterMask
  import opened CdefApply
  import opened CdefKernel
  import opened Picture

  /** Pixels of a frame have at most 12 bits. */
  ghost predicate PixelImage(f: FrameInfo, o: Image) {
    forall pl, r, c | f.InPlane(pl, r, c) :: 0 <= o(pl, r, c) < 4096
  }

  /** A tap of the frozen buffer is available exactly when its position lies in the frame, and then it
      is the frame's pixel there: the four edge flags say precisely where the frame ends. */
  lemma TapIsFramePixel(f: FrameInfo, o: Image, pl: nat, y: nat, x: nat, i: nat, j: nat, at: Offset)
    requires f.Valid() && PixelImage(f, o) && pl < f.Planes() && y < f.Rows() && x < f.Cols()
    requires i < f.BlockH(pl) && j < f.BlockW(pl) && at.Valid()
    ensures var r, c := f.TopRow(pl, y) + i + at.di, f.LeftCol(pl, x) + j + at.dj;
            && (IsAvailable(FrozenTaps(f, o, pl, y, x), i, j, at) <==> f.InPlane(pl, r, c))
            && (f.InPlane(pl, r, c) ==> Value(FrozenTaps(f, o, pl, y, x), i, j, at) == o(pl, r, c))
  {
    var k := (i + 2 + at.di) * TMP_STRIDE + j + 2 + at.dj;
    assert k / TMP_STRIDE == i + 2 + at.di && k % TMP_STRIDE == j + 2 + at.dj;
    assert FrozenTaps(f, o, pl, y, x)[k] == FrozenCell(f, o, pl, y, x, i + 2 + at.di, j + 2 + at.dj);
    hide FrozenTaps;
  }

  lemma FrozenTapsFit(f: FrameInfo, o: Image, pl: nat, y: nat, x: nat)
    requires f.Valid() && PixelImage(f, o) && pl < f.Planes() && y < f.Rows() && x < f.Cols()
    ensures PixelTaps(FrozenTaps(f, o, pl, y, x))
  {
    forall k | 0 <= k < TMP_SIZE
      ensures FrozenTaps(f, o, pl, y, x)[k] == SENTINEL || 0 <= FrozenTaps(f, o, pl, y, x)[k] < 4096
    {
      var i, j := k / TMP_STRIDE, k % TMP_STRIDE;
      var r, c := f.TopRow(pl, y) + i - 2, f.LeftCol(pl, x) + j - 2;
      if i < f.BlockH(pl) + 4 && j < f.BlockW(pl) + 4
         && Available(FrameEdges(f, y, x), f.BlockW(pl), f.BlockH(pl), i, j) {
        assert f.InPlane(pl, r, c);
      }
    }
  }

  lemma Log2Small()
    ensures Log2(1) == 0 && Log2(2) == 1 && Log2(4) == 2 && Log2(8) == 3
            && Log2(16) == 4 && Log2(32) == 5 && Log2(64) == 6
  {
  }

  /** What the pass asks of the kernel for block (y, x) of plane `pl`. */
  ghost function PassRequest(f: FrameInfo, dsp: Dsp, o: Image, lvl: nat, pl: nat, y: nat, x: nat): (q: Request)
    ensures q.dir < 8
  {
    Request(if pl == 0 then LumaPri(f, dsp, o, lvl, y, x) else PriLevel(f, lvl), SecLevel(f, lvl),
            KernelDir(f, dsp, o, lvl, pl, y, x), f.Damping() - if pl == 0 then 0 else 1, f.bpcMin8)
  }

  /** What the entry 4 * p + s stands for, with the search's result for the luma block: the strengths in the
      scale of the bit depth, in luma the primary one adjusted to the variance (`k` is how often it has
      doubled from 64 on); the direction, turned for 4:2:2 chroma, or 0 without a primary strength; and the
      damping in the scale of the bit depth, one less for chroma. */
  lemma RequestOfEntry(f: FrameInfo, dsp: Dsp, o: Image, p: nat, s: nat, pl: nat, y: nat, x: nat, k: nat)
    requires f.Valid() && s < 4 && k <= 12
    requires var v := dsp.dir(FrozenLuma(o, y, x)).1; v > 0 ==> IsDoublings(v, k)
    ensures var (q, dir, v) := (PassRequest(f, dsp, o, 4 * p + s, pl, y, x), dsp.dir(FrozenLuma(o, y, x)).0,
                                dsp.dir(FrozenLuma(o, y, x)).1);
            var full := p * Pow2(f.bpcMin8);
            && (pl > 0 ==> q.pri == full)
            && (pl == 0 && v > 0 ==> 16 * q.pri <= full * (4 + k) + 8 < 16 * (q.pri + 1))
            && (pl == 0 && v == 0 ==> q.pri == 0)
            && q.sec == (if s == 3 then 4 else s) * Pow2(f.bpcMin8)
            && q.dir == (if p == 0 then 0 else if pl > 0 && f.layout == I422 then UV_DIRS_422[dir] else dir)
            && q.damping == f.cdefDamping + f.bpcMin8 - (if pl > 0 then 1 else 0) && q.bpcMin8 == f.bpcMin8
  {
    LevelStrengths(f, p, s);
    assert Pow2(f.bpcMin8) >= 1;
    assert p * Pow2(f.bpcMin8) == 0 <==> p == 0;
    var v := dsp.dir(FrozenLuma(o, y, x)).1;
    if v > 0 {
      AdjustedScale(PriLevel(f, 4 * p + s), v, k);
    }
    hide Pow2, PriLevel, SecLevel, AdjustStrength, FrozenLuma;
  }

  ghost predicate IsDoublings(v: nat, k: nat) {
    (k > 0 ==> 64 * Pow2(k) <= v) && (k < 12 ==> v < 128 * Pow2(k))
  }

  /** More bits change no shift: strength and damping are scaled alike. */
  lemma DepthKeepsShift(strength: nat, damping: int, b: nat)
    requires strength > 0
    ensures damping + b - Log2(strength * Pow2(b)) == damping - Log2(strength)
  {
    hide Pow2, Log2;
    var n := Log2(strength);
    Log2Bounds(strength);
    Pow2Sum(n, b);
    Scales(Pow2(n), strength, Pow2(b));
    Log2Unique(strength * Pow2(b), n + b);
  }

  lemma Scales(a: nat, s: nat, d: nat)
    requires a <= s < 2 * a && d > 0
    ensures a * d <= s * d < 2 * (a * d)
  {
    assert (s - a) * d >= 0 && (2 * a - s) * d > 0;
    assert (2 * a - s) * d == 2 * (a * d) - s * d && (s - a) * d == s * d - a * d;
  }

  /** Whatever entry the header holds, the kernel is called with strengths and a damping for which no
      shift is negative and the sentinel vanishes. Header damping runs from 3 to 6. */
  lemma CallsAreValid(f: FrameInfo, dsp: Dsp, o: Image, lvl: nat, pl: nat, y: nat, x: nat)
    requires f.Valid() && 3 <= f.cdefDamping <= 6 && lvl < 64
    requires KernelRuns(f, dsp, o, lvl, pl, y, x)
    ensures PassRequest(f, dsp, o, lvl, pl, y, x).Valid()
  {
    Log2Small();
    if pl == 0 && PriLevel(f, lvl) != 0 {
      AdjustedAtMost(PriLevel(f, lvl), dsp.dir(FrozenLuma(o, y, x)).1);
    }
  }

  /** The adjustment to the variance never raises a strength. */
  lemma AdjustedAtMost(strength: nat, variance: nat)
    ensures AdjustStrength(strength, variance) <= strength
  {
    if variance != 0 {
      var i := if variance / 64 != 0 then Min(Log2(variance / 64), 12) else 0;
      assert strength * (4 + i) <= strength * 16;
    }
  }

  // ----- The standard's filter on a whole frame -----

  ghost function ImageContribution(f: FrameInfo, o: Image, pl: nat, r: int, c: int, damping: int, t: Tap): int {
    if f.InPlane(pl, r + t.at.di, c + t.at.dj)
    then t.weight * StandardConstrain(o(pl, r + t.at.di, c + t.at.dj) - o(pl, r, c), t.strength, damping)
    else 0
  }

  ghost function ImageSum(f: FrameInfo, o: Image, pl: nat, r: int, c: int, damping: int, ts: seq<Tap>): int {
    if ts == [] then 0
    else ImageSum(f, o, pl, r, c, damping, ts[..|ts| - 1]) + ImageContribution(f, o, pl, r, c, damping, ts[|ts| - 1])
  }

  ghost function ImageLargest(f: FrameInfo, o: Image, pl: nat, r: int, c: int, ts: seq<Tap>): int {
    if ts == [] then o(pl, r, c)
    else
      var rest, at := ImageLargest(f, o, pl, r, c, ts[..|ts| - 1]), ts[|ts| - 1].at;
      if f.InPlane(pl, r + at.di, c + at.dj) then Max(o(pl, r + at.di, c + at.dj), rest) else rest
  }

  ghost function ImageSmallest(f: FrameInfo, o: Image, pl: nat, r: int, c: int, ts: seq<Tap>): int {
    if ts == [] then o(pl, r, c)
    else
      var rest, at := ImageSmallest(f, o, pl, r, c, ts[..|ts| - 1]), ts[|ts| - 1].at;
      if f.InPlane(pl, r + at.di, c + at.dj) then Min(o(pl, r + at.di, c + at.dj), rest) else rest
  }

  /** The pixel at (r, c) after the standard's filter: taps outside the frame are left out, and the
      result is always clipped to the range of the pixel and its taps. */
  ghost function ImagePixel(f: FrameInfo, o: Image, dirs: Directions, q: Request, pl: nat, r: int, c: int): int
    requires |dirs| == 8 && q.dir < 8
  {
    var ts := TapsAt(dirs, q, 0) + TapsAt(dirs, q, 1);
    Clip(o(pl, r, c) + Round16(ImageSum(f, o, pl, r, c, q.damping, ts)),
         ImageSmallest(f, o, pl, r, c, ts), ImageLargest(f, o, pl, r, c, ts))
  }

  lemma BlockPixelInPlane(f: FrameInfo, pl: nat, y: nat, x: nat, i: nat, j: nat)
    requires f.Valid() && pl < f.Planes() && y < f.Rows() && x < f.Cols() && i < f.BlockH(pl) && j < f.BlockW(pl)
    ensures f.InPlane(pl, f.TopRow(pl, y) + i, f.LeftCol(pl, x) + j)
  {
  }

  /** Gathering the taps loses nothing: sum and extremes are those of the frame itself. */
  lemma {:induction false} GatheredTapsAgree(f: FrameInfo, o: Image, pl: nat, y: nat, x: nat, i: nat, j: nat,
                                             damping: int, ts: seq<Tap>)
    requires f.Valid() && PixelImage(f, o) && pl < f.Planes() && y < f.Rows() && x < f.Cols()
    requires i < f.BlockH(pl) && j < f.BlockW(pl) && ValidTaps(ts)
    ensures var taps, r, c := FrozenTaps(f, o, pl, y, x), f.TopRow(pl, y) + i, f.LeftCol(pl, x) + j;
            && Centre(taps, i, j) == o(pl, r, c)
            && Sum(taps, i, j, damping, ts) == ImageSum(f, o, pl, r, c, damping, ts)
            && Smallest(taps, i, j, ts) == ImageSmallest(f, o, pl, r, c, ts)
            && Largest(taps, i, j, ts) == ImageLargest(f, o, pl, r, c, ts)
  {
    hide StandardConstrain, FrozenTaps, Value, IsAvailable, FrameInfo.InPlane;
    BlockPixelInPlane(f, pl, y, x, i, j);
    TapIsFramePixel(f, o, pl, y, x, i, j, Offset(0, 0));
    if ts != [] {
      GatheredTapsAgree(f, o, pl, y, x, i, j, damping, ts[..|ts| - 1]);
      TapIsFramePixel(f, o, pl, y, x, i, j, ts[|ts| - 1].at);
    }
  }

  /** The kernel behind the function pointer is the one of this project. */
  ghost predicate RealKernel(dsp: Dsp, dirs: Directions, bpcMin8: nat)
    requires ValidDirections(dirs)
  {
    forall taps, pri, sec, dir: Direction, damping, i, j | PixelTaps(taps) && i < 8 && j < 8 ::
      dsp.fb(taps, pri, sec, dir, damping, i, j)
        == StandardPixel(taps, dirs, Request(pri, sec, dir, damping, bpcMin8), i, j)
  }

  /** Where the kernel is not called, both strengths are zero ... */
  lemma NoCallNoStrength(f: FrameInfo, dsp: Dsp, o: Image, lvl: nat, pl: nat, y: nat, x: nat)
    requires !KernelRuns(f, dsp, o, lvl, pl, y, x)
    ensures PassRequest(f, dsp, o, lvl, pl, y, x).pri == 0 && PassRequest(f, dsp, o, lvl, pl, y, x).sec == 0
  {
  }

  /** ... and the standard's filter keeps the pixel. */
  lemma NoStrengthKeeps(f: FrameInfo, o: Image, dirs: Directions, q: Request, pl: nat, r: int, c: int)
    requires |dirs| == 8 && q.dir < 8 && q.pri == 0 && q.sec == 0
    ensures ImagePixel(f, o, dirs, q, pl, r, c) == o(pl, r, c)
  {
    var ts := TapsAt(dirs, q, 0) + TapsAt(dirs, q, 1);
    assert forall i | 0 <= i < |ts| :: ts[i].strength == 0;
    hide TapsAt;
    NothingAdded(f, o, pl, r, c, q.damping, ts);
    RoundsToNearest(0);
  }

  lemma {:induction false} NothingAdded(f: FrameInfo, o: Image, pl: nat, r: int, c: int, damping: int, ts: seq<Tap>)
    requires forall i | 0 <= i < |ts| :: ts[i].strength == 0
    ensures ImageSum(f, o, pl, r, c, damping, ts) == 0
    ensures ImageSmallest(f, o, pl, r, c, ts) <= o(pl, r, c) <= ImageLargest(f, o, pl, r, c, ts)
  {
    if ts != [] {
      NothingAdded(f, o, pl, r, c, damping, ts[..|ts| - 1]);
    }
  }

  /** Every pixel the pass must produce is the standard's filter applied to the frozen frame, with the
      strengths, direction and damping of its block. */
  lemma PassIsStandard(f: FrameInfo, dsp: Dsp, lf: seq<Av1Filter>, o: Image, dirs: Directions, pl: nat, r: nat, c: nat)
    requires f.Valid() && ValidMasks(f, lf) && PixelImage(f, o) && f.InPlane(pl, r, c)
    requires ValidDirections(dirs) && RealKernel(dsp, dirs, f.bpcMin8)
    ensures var y, x := BlockRow(f, pl, r), BlockCol(f, pl, c);
            FilteredPixel(f, dsp, lf, o, pl, r, c)
              == ImagePixel(f, o, dirs, PassRequest(f, dsp, o, Level(f, lf, pl, y, x), pl, y, x), pl, r, c)
  {
    hide Sum, Smallest, Largest, ImageSum, ImageSmallest, ImageLargest, Round16, TapsAt, AdjustStrength,
         Level, Centre, FrozenTaps, LumaPri, KernelDir, PixelTaps, FrozenLuma, PriLevel, SecLevel;
    var y, x := BlockRow(f, pl, r), BlockCol(f, pl, c);
    var lvl := Level(f, lf, pl, y, x);
    var q := PassRequest(f, dsp, o, lvl, pl, y, x);
    if !KernelRuns(f, dsp, o, lvl, pl, y, x) {
      NoCallNoStrength(f, dsp, o, lvl, pl, y, x);
      NoStrengthKeeps(f, o, dirs, q, pl, r, c);
    } else {
      var i, j := r - f.TopRow(pl, y), c - f.LeftCol(pl, x);
      FrozenTapsFit(f, o, pl, y, x);
      AllTaps(dirs, q);
      GatheredTapsAgree(f, o, pl, y, x, i, j, q.damping, TapsUpTo(dirs, q, 2));
    }
  }

  /** The search behind the function pointer is the one of this project. */
  ghost predicate RealSearch(dsp: Dsp, bpcMin8: nat) {
    forall img | CdefDirection.ValidImage(img, bpcMin8) ::
      var v, dir := CdefDirection.Levelled(img, bpcMin8), dsp.dir(img).0;
      && CdefDirection.IsBest(v, dir)
      && dsp.dir(img).1 == (CdefDirection.Cost(v, dir) - CdefDirection.Cost(v, CdefDirection.Across(dir))) / 1024
  }

  /** Where the frozen frame is constant along the lines of one direction only, luma is filtered along it. */
  lemma FilteredAlongLines(f: FrameInfo, dsp: Dsp, o: Image, lvl: nat, y: nat, x: nat, d: Direction)
    requires RealSearch(dsp, f.bpcMin8) && PriLevel(f, lvl) != 0
    requires CdefDirection.ValidImage(FrozenLuma(o, y, x), f.bpcMin8)
    requires var v := CdefDirection.Levelled(FrozenLuma(o, y, x), f.bpcMin8);
             forall e: Direction :: CdefDirection.ConstantAlong(v, e) <==> e == d
    ensures KernelDir(f, dsp, o, lvl, 0, y, x) == d
  {
    var img := FrozenLuma(o, y, x);
    assert |CdefDirection.Levelled(img, f.bpcMin8)| == 64;
    hide CdefDirection.Levelled, CdefDirection.ConstantAlong, CdefDirection.IsBest,
         CdefDirection.ValidImage, FrozenLuma;
    CdefDirection.ConstantDirectionIsFound(CdefDirection.Levelled(img, f.bpcMin8), d, dsp.dir(img).0);
  }

  // ----- The kernel of this project behind the function pointer -----

  /** On a ready block the kernel gathers only pixels and sentinels, whatever else the backups hold. */
  lemma ReadyGathersPixels(f: FrameInfo, pic: array3<int>, bak: array4<int>, bit: nat, line: array4<int>, tf: nat,
                           pl: nat, y: nat, x: nat, o: Image)
    requires ValidArrays(f, pic, line) && ValidBackup(bak) && bit < 2 && tf < 2
    requires pl < f.Planes() && y < f.Rows() && x < f.Cols() && PixelImage(f, o)
    requires Ready(f, o, pic, bak, bit, line, tf, pl, y, x)
    ensures BlockSize(f.BlockW(pl), f.BlockH(pl))
    ensures Fits(pic, pl, f.TopRow(pl, y), f.LeftCol(pl, x), f.BlockW(pl), f.BlockH(pl), FrameEdges(f, y, x))
    ensures Backups(pic, bak, line, bit, tf)
    ensures GathersPixels(pic, pl, f.TopRow(pl, y), f.LeftCol(pl, x), bak, bit, line, tf,
                          f.BlockW(pl), f.BlockH(pl), FrameEdges(f, y, x))
  {
    forall i, j | 0 <= i < TMP_STRIDE && 0 <= j < TMP_STRIDE
      ensures IsTap(Cell(pic, pl, f.TopRow(pl, y), f.LeftCol(pl, x), bak, bit, line, tf, f.BlockW(pl), f.BlockH(pl),
                         FrameEdges(f, y, x), i, j),
                    2 <= i < f.BlockH(pl) + 2 && 2 <= j < f.BlockW(pl) + 2)
    {
      hide Cell, FrozenCell, Ready, FrameInfo.InPlane;
      CellIsFrozen(f, o, pic, bak, bit, line, tf, pl, y, x, i, j);
      FrozenCellIsTap(f, o, pl, y, x, i, j);
    }
  }

  lemma FrozenCellIsTap(f: FrameInfo, o: Image, pl: nat, y: nat, x: nat, i: nat, j: nat)
    requires f.Valid() && PixelImage(f, o) && pl < f.Planes() && y < f.Rows() && x < f.Cols()
    ensures IsTap(FrozenCell(f, o, pl, y, x, i, j), 2 <= i < f.BlockH(pl) + 2 && 2 <= j < f.BlockW(pl) + 2)
  {
    var r, c := f.TopRow(pl, y) + i - 2, f.LeftCol(pl, x) + j - 2;
    if i < f.BlockH(pl) + 4 && j < f.BlockW(pl) + 4
       && Available(FrameEdges(f, y, x), f.BlockW(pl), f.BlockH(pl), i, j) {
      assert f.InPlane(pl, r, c);
    }
  }

  /** The real kernel may stand behind the function pointer: it does what `ApplyKernel` does. */
  method ApplyRealKernel(ghost dsp: Dsp, table: Directions, ghost dirs: Directions, pic: array3<int>,
                         pl: nat, r0: nat, c0: nat, bak: array4<int>, bit: nat, line: array4<int>, tf: nat,
                         w: nat, h: nat, e: Edges, q: Request) returns (ghost taps: seq<int>)
    requires BlockSize(w, h) && Fits(pic, pl, r0, c0, w, h, e) && Backups(pic, bak, line, bit, tf)
    requires GathersPixels(pic, pl, r0, c0, bak, bit, line, tf, w, h, e)
    requires ValidDirections(dirs) && table == Table(dirs) && RealKernel(dsp, dirs, q.bpcMin8) && q.Valid()
    modifies pic
    ensures |taps| == TMP_SIZE
    ensures forall k | 0 <= k < TMP_SIZE ::
              taps[k] == old(Cell(pic, pl, r0, c0, bak, bit, line, tf, w, h, e, k / TMP_STRIDE, k % TMP_STRIDE))
    ensures forall p, r, c | 0 <= p < pic.Length0 && 0 <= r < pic.Length1 && 0 <= c < pic.Length2 ::
              pic[p, r, c] == if p == pl && r0 <= r < r0 + h && c0 <= c < c0 + w
                              then dsp.fb(taps, q.pri, q.sec, q.dir, q.damping, r - r0, c - c0)
                              else old(pic[p, r, c])
  {
    assert q.dir < 8 && h <= 8 && w <= 8;
    hide StandardPixel, Cell, PixelTaps, Request.Valid, ValidDirections, RealKernel, Fits, Backups, GathersPixels;
    taps := CdefFilterBlock(pic, pl, r0, c0, bak, bit, line, tf, w, h, e, table, q, dirs);
    forall i: nat, j: nat | i < 8 && j < 8
      ensures dsp.fb(taps, q.pri, q.sec, q.dir, q.damping, i, j) == StandardPixel(taps, dirs, q, i, j)
    {
      KernelValue(dsp, dirs, q, taps, i, j);
    }
  }

  lemma KernelValue(dsp: Dsp, dirs: Directions, q: Request, taps: seq<int>, i: nat, j: nat)
    requires ValidDirections(dirs) && RealKernel(dsp, dirs, q.bpcMin8) && PixelTaps(taps) && q.dir < 8 && i < 8 && j < 8
    ensures dsp.fb(taps, q.pri, q.sec, q.dir, q.damping, i, j) == StandardPixel(taps, dirs, q, i, j)
  {
    hide StandardPixel, PixelTaps;
    var dir: Direction := q.dir;
    assert q == Request(q.pri, q.sec, dir, q.damping, q.bpcMin8);
  }

  /** A call whose gathered cells are known in advance. */
  method ApplyToKnown(ghost dsp: Dsp, table: Directions, ghost dirs: Directions, pic: array3<int>,
                      pl: nat, r0: nat, c0: nat, bak: array4<int>, bit: nat, line: array4<int>, tf: nat,
                      w: nat, h: nat, e: Edges, q: Request, ghost known: seq<int>)
    requires BlockSize(w, h) && Fits(pic, pl, r0, c0, w, h, e) && Backups(pic, bak, line, bit, tf)
    requires GathersPixels(pic, pl, r0, c0, bak, bit, line, tf, w, h, e)
    requires ValidDirections(dirs) && table == Table(dirs) && RealKernel(dsp, dirs, q.bpcMin8) && q.Valid()
    requires |known| == TMP_SIZE
    requires forall k | 0 <= k < TMP_SIZE ::
               known[k] == Cell(pic, pl, r0, c0, bak, bit, line, tf, w, h, e, k / TMP_STRIDE, k % TMP_STRIDE)
    modifies pic
    ensures forall p, r, c | 0 <= p < pic.Length0 && 0 <= r < pic.Length1 && 0 <= c < pic.Length2 ::
              pic[p, r, c] == if p == pl && r0 <= r < r0 + h && c0 <= c < c0 + w
                              then dsp.fb(known, q.pri, q.sec, q.dir, q.damping, r - r0, c - c0)
                              else old(pic[p, r, c])
  {
    hide Cell, Fits, Backups, GathersPixels, Request.Valid, ValidDirections, RealKernel;
    ghost var taps := ApplyRealKernel(dsp, table, dirs, pic, pl, r0, c0, bak, bit, line, tf, w, h, e, q);
    assert taps == known;
  }

  /** Where the pass calls a kernel, with a request the pass makes, the real kernel does what the pass needs. */
  method RunRealKernel(f: FrameInfo, ghost dsp: Dsp, table: Directions, ghost dirs: Directions,
                       pic: array3<int>, bak: array4<int>, bit: nat, line: array4<int>, tf: nat,
                       pl: nat, y: nat, x: nat, e: Edges, q: Request, ghost o: Image)
    requires ValidArrays(f, pic, line) && ValidBackup(bak) && bit < 2 && tf < 2
    requires pl < f.Planes() && y < f.Rows() && x < f.Cols() && e == FrameEdges(f, y, x)
    requires Ready(f, o, pic, bak, bit, line, tf, pl, y, x) && PixelImage(f, o)
    requires ValidDirections(dirs) && table == Table(dirs) && RealKernel(dsp, dirs, q.bpcMin8) && q.Valid()
    modifies pic
    ensures forall p, r, c | f.InPlane(p, r, c) ::
              pic[p, r, c] == if p == pl && InBlock(f, pl, y, x, r, c)
                              then dsp.fb(FrozenTaps(f, o, pl, y, x), q.pri, q.sec, q.dir, q.damping,
                                          r - f.TopRow(pl, y), c - f.LeftCol(pl, x))
                              else old(pic[p, r, c])
  {
    hide RealKernel, Request.Valid, ValidDirections, Cell, GathersPixels;
    ReadyGathersPixels(f, pic, bak, bit, line, tf, pl, y, x, o);
    GatheredAreFrozen(f, pic, bak, bit, line, tf, pl, y, x, e, o);
    ApplyToKnown(dsp, table, dirs, pic, pl, f.TopRow(pl, y), f.LeftCol(pl, x), bak, bit, line, tf,
                 f.BlockW(pl), f.BlockH(pl), e, q, FrozenTaps(f, o, pl, y, x));
  }

  /** The search may stand behind the other function pointer. */
  method FindRealDirection(f: FrameInfo, ghost dsp: Dsp, pic: array3<int>, y: nat, x: nat, ghost o: Image)
    returns (dir: Direction, variance: nat)
    requires f.Valid() && pic.Length0 == 3 && pic.Length1 == 4 * f.bh && pic.Length2 == 4 * f.bw
    requires y < f.Rows() && x < f.Cols() && Untouched(f, o, pic, 0, y, x)
    requires RealSearch(dsp, f.bpcMin8) && CdefDirection.ValidImage(FrozenLuma(o, y, x), f.bpcMin8)
    ensures (dir, variance) == dsp.dir(FrozenLuma(o, y, x))
  {
    var block := LumaBlock(pic, 8 * y, 8 * x);
    assert block == FrozenLuma(o, y, x) by {
      assert forall k | 0 <= k < 64 :: InBlock(f, 0, y, x, 8 * y + k / 8, 8 * x + k % 8);
    }
    hide Untouched, CdefDirection.ValidImage, CdefDirection.Levelled, FrozenLuma, LumaBlock;
    var d, v := CdefDirection.FindDirection(block, f.bpcMin8);
    CdefDirection.BestIsUnique(CdefDirection.Levelled(block, f.bpcMin8), d, dsp.dir(block).0);
    dir, variance := d, v as int;
  }

  /** The two pointers as functions. */
  ghost function RealDsp(dirs: Directions, bpcMin8: nat): Dsp
    requires ValidDirections(dirs)
  {
    Dsp(img => if CdefDirection.ValidImage(img, bpcMin8) then
                 var v := CdefDirection.Levelled(img, bpcMin8);
                 var d := CdefDirection.Best(v, 8);
                 (d, CdefDirection.Lead(v, d))
               else (0, 0),
        (taps: seq<int>, pri: nat, sec: nat, dir: nat, damping: int, i: nat, j: nat) =>
          if |taps| == TMP_SIZE && i < 8 && j < 8 && dir < 8
          then StandardPixel(taps, dirs, Request(pri, sec, dir, damping, bpcMin8), i, j) else 0)
  }

  /** So the hypotheses about the pointers can be met, for every table of directions and every bit depth. */
  lemma RealDspIsReal(dirs: Directions, bpcMin8: nat)
    requires ValidDirections(dirs)
    ensures RealKernel(RealDsp(dirs, bpcMin8), dirs, bpcMin8) && RealSearch(RealDsp(dirs, bpcMin8), bpcMin8)
  {
    hide StandardPixel;
    var dsp := RealDsp(dirs, bpcMin8);
    forall img | CdefDirection.ValidImage(img, bpcMin8)
      ensures var v, dir := CdefDirection.Levelled(img, bpcMin8), dsp.dir(img).0;
              && CdefDirection.IsBest(v, dir)
              && dsp.dir(img).1
                   == (CdefDirection.Cost(v, dir) - CdefDirection.Cost(v, CdefDirection.Across(dir))) / 1024
    {
      hide CdefDirection.ValidImage, CdefDirection.Levelled, CdefDirection.Cost;
      CdefDirection.BestIsBest(CdefDirection.Levelled(img, bpcMin8));
    }
  }

  // ----- Filtered pixels stay in range -----

  ghost predicate PixelsBelow(f: FrameInfo, o: Image, m: nat) {
    forall pl, r, c | f.InPlane(pl, r, c) :: 0 <= o(pl, r, c) < m
  }

  lemma {:induction false} ExtremesBelow(f: FrameInfo, o: Image, pl: nat, r: int, c: int, ts: seq<Tap>, m: nat)
    requires PixelsBelow(f, o, m) && f.InPlane(pl, r, c)
    ensures 0 <= ImageSmallest(f, o, pl, r, c, ts) < m && 0 <= ImageLargest(f, o, pl, r, c, ts) < m
  {
    if ts != [] {
      ExtremesBelow(f, o, pl, r, c, ts[..|ts| - 1], m);
    }
  }

  /** The pass makes pixels of pixels: it never leaves the range the frozen frame is in. */
  lemma FilteredPixelsBelow(f: FrameInfo, dsp: Dsp, lf: seq<Av1Filter>, o: Image, dirs: Directions, m: nat,
                            pl: nat, r: nat, c: nat)
    requires f.Valid() && ValidMasks(f, lf) && m <= 4096 && PixelsBelow(f, o, m) && f.InPlane(pl, r, c)
    requires ValidDirections(dirs) && RealKernel(dsp, dirs, f.bpcMin8)
    ensures 0 <= FilteredPixel(f, dsp, lf, o, pl, r, c) < m
  {
    assert PixelImage(f, o);
    PassIsStandard(f, dsp, lf, o, dirs, pl, r, c);
    hide FilteredPixel, RealKernel, ImageSum, Round16, KernelRuns, Level, PassRequest;
    var y, x := BlockRow(f, pl, r), BlockCol(f, pl, c);
    var q := PassRequest(f, dsp, o, Level(f, lf, pl, y, x), pl, y, x);
    ExtremesBelow(f, o, pl, r, c, TapsAt(dirs, q, 0) + TapsAt(dirs, q, 1), m);
  }
}
