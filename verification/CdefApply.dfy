/** CDEF over a range of rows, in place. Every block must be filtered from the picture as it was
    before the pass, so the rows above and the columns to the left are read from backups. */
module CdefApply {
  import CdefDirection
  import opened CdefPadding
  import opened IntOps
  import opened LoopFilterMask
  import opened Picture

  /** A filter direction. */
  type Direction = CdefDirection.Direction

  /** The kernels the pass is given as function pointers. `dir` maps the 64 luma pixels of a block
      to a direction and a variance. `fb` maps a tap buffer, the primary and secondary strengths,
      the direction, the damping and a position to the filtered pixel there. */
  datatype Dsp = Dsp(dir: seq<int> -> (Direction, nat),
                     fb: (seq<int>, nat, nat, nat, int, nat, nat) -> int)

  /** Frame dimensions are in units of 4 luma pixels. */
  datatype FrameInfo = FrameInfo(bw: nat, bh: nat, sb128w: nat, layout: Layout, bpcMin8: nat,
                                 cdefDamping: nat, yStrength: seq<nat>, uvStrength: seq<nat>)
  {
    ghost predicate Valid() {
      && 0 < bw <= 32 * sb128w && 0 < bh && bw % 2 == 0 && bh % 2 == 0
      && (bpcMin8 == 0 || bpcMin8 == 2 || bpcMin8 == 4)
      && |yStrength| == 8 && |uvStrength| == 8
      && (layout == I400 ==> forall i | 0 <= i < 8 :: uvStrength[i] == 0)
    }

    /** The picture in 8x8 luma blocks. */
    function Cols(): nat { bw / 2 }
    function Rows(): nat { bh / 2 }

    function Planes(): nat { if layout == I400 then 1 else 3 }

    function SsVer(pl: nat): bool { pl > 0 && layout == I420 }
    function SsHor(pl: nat): bool { pl > 0 && layout != I444 }

    /** The size, in plane `pl`, of an 8x8 luma block. */
    function BlockH(pl: nat): nat { if SsVer(pl) then 4 else 8 }
    function BlockW(pl: nat): nat { if SsHor(pl) then 4 else 8 }

    /** Products with the block size, by cases so that they stay linear. */
    function TopRow(pl: nat, y: int): int { if SsVer(pl) then 4 * y else 8 * y }
    function LeftCol(pl: nat, x: int): int { if SsHor(pl) then 4 * x else 8 * x }

    function Damping(): int { cdefDamping + bpcMin8 }

    function Scale(v: nat): nat {
      if bpcMin8 == 0 then v else if bpcMin8 == 2 then 4 * v else 16 * v
    }

    ghost predicate InPlane(pl: int, r: int, c: int) {
      0 <= pl < Planes() && 0 <= r < TopRow(pl, Rows()) && 0 <= c < LeftCol(pl, Cols())
    }
  }

  /** The set of planes a backup is made for: luma, both chroma planes, or both. */
  datatype Flags = Flags(y: bool, uv: bool) {
    predicate Empty() { !y && !uv }
    predicate Has(pl: nat) { if pl == 0 then y else uv }
    function Without(other: Flags): Flags { Flags(y && !other.y, uv && !other.uv) }
  }

  function AdjustStrength(strength: nat, variance: nat): nat {
    if variance == 0 then 0
    else
      var i := if variance / 64 != 0 then Min(Log2(variance / 64), 12) else 0;
      (strength * (4 + i) + 8) / 16
  }

  /** A strength is scaled by four to sixteen sixteenths, rounded, one sixteenth more for each doubling of the
      variance from 64 on; without any variance nothing is left of it. */
  lemma AdjustedScale(strength: nat, variance: nat, k: nat)
    requires variance > 0 && k <= 12
    requires (k > 0 ==> 64 * Pow2(k) <= variance) && (k < 12 ==> variance < 128 * Pow2(k))
    ensures var r := AdjustStrength(strength, variance);
            16 * r <= strength * (4 + k) + 8 < 16 * (r + 1)
    ensures AdjustStrength(strength, 0) == 0
  {
    hide Pow2, Log2;
    if variance / 64 != 0 {
      LeadingBit(variance / 64, k);
    }
  }

  lemma LeadingBit(n: nat, k: nat)
    requires 0 < n && k <= 12 && (k > 0 ==> Pow2(k) <= n) && (k < 12 ==> n < 2 * Pow2(k))
    ensures Min(Log2(n), 12) == k
  {
    Log2Bounds(n);
    if k < 12 {
      assert Pow2(0) == 1;
      Log2Unique(n, k);
    } else {
      Pow2Less(Log2(n), 12);
    }
  }

  function PriLevel(f: FrameInfo, lvl: nat): nat { f.Scale(lvl / 4) }

  function SecLevel(f: FrameInfo, lvl: nat): nat {
    f.Scale(lvl % 4 + if lvl % 4 == 3 then 1 else 0)
  }

  /** An entry holds the primary strength in steps of four and the secondary one, of which three stands for
      four; both count in the scale of the bit depth. */
  lemma LevelStrengths(f: FrameInfo, p: nat, s: nat)
    requires f.Valid() && s < 4
    ensures PriLevel(f, 4 * p + s) == p * Pow2(f.bpcMin8)
    ensures SecLevel(f, 4 * p + s) == (if s == 3 then 4 else s) * Pow2(f.bpcMin8)
  {
    assert Pow2(0) == 1 && Pow2(2) == 4 && Pow2(4) == 16;
    assert (4 * p + s) / 4 == p && (4 * p + s) % 4 == s;
    hide Pow2;
  }

  /** The size of a block in a plane: 4:2:0 halves chroma both ways, 4:2:2 in width only. */
  lemma BlockSizes(f: FrameInfo, pl: nat)
    requires pl < f.Planes()
    ensures f.BlockW(pl) * f.BlockH(pl) == PlaneSamples(f.layout, pl)
    ensures f.BlockH(pl) == (if pl > 0 && f.layout == I420 then 4 else 8) && BlockSize(f.BlockW(pl), f.BlockH(pl))
    ensures f.Planes() == if PlaneSamples(f.layout, 1) == 0 then 1 else 3
    ensures forall n: nat :: f.TopRow(pl, n) == n * f.BlockH(pl) && f.LeftCol(pl, n) == n * f.BlockW(pl)
  {
  }

  const UV_DIRS: seq<Direction> := [0, 1, 2, 3, 4, 5, 6, 7]
  const UV_DIRS_422: seq<Direction> := [7, 0, 2, 4, 5, 6, 6, 6]

  function UvDir(f: FrameInfo, dir: Direction): Direction {
    if f.layout == I422 then UV_DIRS_422[dir] else UV_DIRS[dir]
  }

  // ----- What the pass must compute, from a picture that never changes -----

  /** A picture as a value: plane, row, column. */
  type Image = (int, int, int) -> int

  ghost predicate ValidMasks(f: FrameInfo, lf: seq<Av1Filter>) {
    |lf| == f.sb128w && forall i | 0 <= i < |lf| :: lf[i].Valid()
  }

  function CdefIdx(f: FrameInfo, lf: seq<Av1Filter>, y: nat, x: nat): (idx: int)
    requires f.Valid() && ValidMasks(f, lf) && x < f.Cols()
    ensures -1 <= idx < 8
  {
    lf[x / 16].cdefIdx[UnitOf(2 * x, 2 * y)]
  }

  /** The luma and chroma levels that apply to block (y, x), or zeros if it is not filtered. */
  function Levels(f: FrameInfo, lf: seq<Av1Filter>, y: nat, x: nat): (nat, nat)
    requires f.Valid() && ValidMasks(f, lf) && x < f.Cols()
  {
    var idx := CdefIdx(f, lf, y, x);
    if idx != -1 && Coded(lf[x / 16], 2 * x, 2 * y) then (f.yStrength[idx], f.uvStrength[idx]) else (0, 0)
  }

  function FrameEdges(f: FrameInfo, y: nat, x: nat): Edges {
    Edges(x > 0, x + 1 < f.Cols(), y > 0, y + 1 < f.Rows())
  }

  ghost function FrozenCell(f: FrameInfo, o: Image, pl: nat, y: nat, x: nat, i: nat, j: nat): int {
    if f.BlockH(pl) + 4 <= i || f.BlockW(pl) + 4 <= j then 0
    else if !Available(FrameEdges(f, y, x), f.BlockW(pl), f.BlockH(pl), i, j) then SENTINEL
    else o(pl, f.TopRow(pl, y) + i - 2, f.LeftCol(pl, x) + j - 2)
  }

  /** The taps around block (y, x) of plane `pl`, all read from the same picture. */
  ghost function FrozenTaps(f: FrameInfo, o: Image, pl: nat, y: nat, x: nat): seq<int> {
    seq(TMP_SIZE, k requires 0 <= k => FrozenCell(f, o, pl, y, x, k / TMP_STRIDE, k % TMP_STRIDE))
  }

  ghost function FrozenLuma(o: Image, y: nat, x: nat): seq<int> {
    seq(64, k requires 0 <= k => o(0, 8 * y + k / 8, 8 * x + k % 8))
  }

  /** The direction search gets the block row by row. */
  lemma LumaIsRaster(o: Image, y: nat, x: nat, i: nat, j: nat)
    requires i < 8 && j < 8
    ensures FrozenLuma(o, y, x)[8 * i + j] == o(0, 8 * y + i, 8 * x + j)
    ensures forall d: Direction :: CdefDirection.Line(d, 8 * i + j) == CdefDirection.LineAt(d, i, j)
  {
    assert (8 * i + j) / 8 == i && (8 * i + j) % 8 == j;
    hide CdefDirection.LineAt;
  }

  /** The luma primary strength in force, after adjustment to the variance of the block. */
  ghost function LumaPri(f: FrameInfo, dsp: Dsp, o: Image, yLvl: nat, y: nat, x: nat): nat {
    if PriLevel(f, yLvl) != 0 then AdjustStrength(PriLevel(f, yLvl), dsp.dir(FrozenLuma(o, y, x)).1) else 0
  }

  /** The direction passed to the kernel; without a primary strength it is 0. */
  ghost function KernelDir(f: FrameInfo, dsp: Dsp, o: Image, lvl: nat, pl: nat, y: nat, x: nat): Direction {
    if PriLevel(f, lvl) == 0 then 0
    else
      var dir := dsp.dir(FrozenLuma(o, y, x)).0;
      if pl == 0 then dir else UvDir(f, dir)
  }

  ghost predicate KernelRuns(f: FrameInfo, dsp: Dsp, o: Image, lvl: nat, pl: nat, y: nat, x: nat) {
    if pl == 0 then LumaPri(f, dsp, o, lvl, y, x) != 0 || SecLevel(f, lvl) != 0 else lvl != 0
  }

  /** Pixel (i, j) of block (y, x) of plane `pl` after a kernel call with level `lvl` on the picture `o`. */
  ghost function KernelPixel(f: FrameInfo, dsp: Dsp, o: Image, lvl: nat,
                             pl: nat, y: nat, x: nat, i: nat, j: nat): int
  {
    dsp.fb(FrozenTaps(f, o, pl, y, x),
           if pl == 0 then LumaPri(f, dsp, o, lvl, y, x) else PriLevel(f, lvl),
           SecLevel(f, lvl), KernelDir(f, dsp, o, lvl, pl, y, x),
           f.Damping() - if pl == 0 then 0 else 1, i, j)
  }

  ghost function FilteredAt(f: FrameInfo, dsp: Dsp, o: Image, lvl: nat,
                            pl: nat, y: nat, x: nat, i: nat, j: nat): int
  {
    if KernelRuns(f, dsp, o, lvl, pl, y, x) then KernelPixel(f, dsp, o, lvl, pl, y, x, i, j)
    else o(pl, f.TopRow(pl, y) + i, f.LeftCol(pl, x) + j)
  }

  /** The level that applies to plane `pl` of block (y, x). */
  function Level(f: FrameInfo, lf: seq<Av1Filter>, pl: nat, y: nat, x: nat): nat
    requires f.Valid() && ValidMasks(f, lf) && x < f.Cols()
  {
    if pl == 0 then Levels(f, lf, y, x).0 else Levels(f, lf, y, x).1
  }

  /** There is no block left of (y, x), or it is not filtered in plane `pl`. */
  ghost predicate UnfilteredToLeft(f: FrameInfo, lf: seq<Av1Filter>, pl: nat, y: nat, x: nat)
    requires f.Valid() && ValidMasks(f, lf) && x <= f.Cols()
  {
    x > 0 ==> Level(f, lf, pl, y, x - 1) == 0
  }

  ghost function BlockRow(f: FrameInfo, pl: nat, r: nat): nat { if f.SsVer(pl) then r / 4 else r / 8 }
  ghost function BlockCol(f: FrameInfo, pl: nat, c: nat): nat { if f.SsHor(pl) then c / 4 else c / 8 }

  /** The pixel at (r, c) of plane `pl` after CDEF of the picture `o`: its whole block is filtered at once. */
  ghost function FilteredPixel(f: FrameInfo, dsp: Dsp, lf: seq<Av1Filter>, o: Image,
                               pl: nat, r: nat, c: nat): int
    requires f.Valid() && ValidMasks(f, lf) && f.InPlane(pl, r, c)
  {
    var y, x := BlockRow(f, pl, r), BlockCol(f, pl, c);
    FilteredAt(f, dsp, o, Level(f, lf, pl, y, x), pl, y, x, r - f.TopRow(pl, y), c - f.LeftCol(pl, x))
  }

  // ----- Backups -----

  ghost predicate ValidArrays(f: FrameInfo, pic: array3<int>, line: array4<int>) {
    && f.Valid()
    && pic.Length0 == 3 && pic.Length1 == 4 * f.bh && pic.Length2 == 4 * f.bw
    && line.Length0 == 2 && line.Length1 == 3 && line.Length2 == 2 && line.Length3 == pic.Length2
  }

  ghost predicate ValidBackup(bak: array4<int>) {
    bak.Length0 == 2 && bak.Length1 == 3 && bak.Length2 == 8 && bak.Length3 == 2
  }

  /** Saves the last two rows of a row of blocks, whole rows at a time. `rows` are the top rows of
      the blocks in each plane. */
  method Backup2Lines(f: FrameInfo, line: array4<int>, tf: nat, pic: array3<int>, rowY: nat, rowUv: nat)
    requires ValidArrays(f, pic, line) && tf < 2
    requires rowY + 8 <= pic.Length1 && rowUv + f.BlockH(1) <= pic.Length1
    modifies line
    ensures forall t, pl, k, c | 0 <= t < 2 && 0 <= pl < 3 && 0 <= k < 2 && 0 <= c < pic.Length2 ::
              line[t, pl, k, c] ==
                if t == tf && pl < f.Planes()
                then pic[pl, (if pl == 0 then rowY else rowUv) + f.BlockH(pl) - 2 + k, c]
                else old(line[t, pl, k, c])
  {
    forall k, c | 0 <= k < 2 && 0 <= c < pic.Length2 {
      line[tf, 0, k, c] := pic[0, rowY + 6 + k, c];
    }
    if f.layout == I400 {
      return;
    }
    var uvFirst := if f.layout == I420 then 2 else 6;
    for pl := 1 to 3
      invariant forall t, p, k, c | 0 <= t < 2 && 0 <= p < 3 && 0 <= k < 2 && 0 <= c < pic.Length2 ::
                  line[t, p, k, c] ==
                    if t == tf && p < pl
                    then pic[p, (if p == 0 then rowY else rowUv) + f.BlockH(p) - 2 + k, c]
                    else old(line[t, p, k, c])
    {
      forall k, c | 0 <= k < 2 && 0 <= c < pic.Length2 {
        line[tf, pl, k, c] := pic[pl, rowUv + uvFirst + k, c];
      }
    }
  }

  /** Saves, for the planes in `flag`, the two columns left of `xOff` (in luma pixels) from the
      left edge of a block. */
  method Backup2x8(f: FrameInfo, bak: array4<int>, b: nat, pic: array3<int>,
                   rowY: nat, colY: nat, rowUv: nat, colUv: nat, xOff: nat, flag: Flags)
    requires ValidBackup(bak) && b < 2 && pic.Length0 == 3
    requires xOff == 0 || xOff == 8
    requires flag.y ==> rowY + 8 <= pic.Length1 && 2 <= colY + xOff <= pic.Length2
    requires flag.uv && f.layout != I400 ==>
               && rowUv + f.BlockH(1) <= pic.Length1
               && 2 <= colUv + (if f.SsHor(1) then xOff / 2 else xOff) <= pic.Length2
    modifies bak
    ensures forall i, k | flag.y && 0 <= i < 8 && 0 <= k < 2 :: bak[b, 0, i, k] == pic[0, rowY + i, colY + xOff + k - 2]
    ensures forall pl, i, k | flag.uv && 0 < pl < f.Planes() && 0 <= i < f.BlockH(1) && 0 <= k < 2 ::
              bak[b, pl, i, k] == pic[pl, rowUv + i, colUv + (if f.SsHor(1) then xOff / 2 else xOff) + k - 2]
    ensures forall t, pl, i, k | 0 <= t < 2 && 0 <= pl < 3 && 0 <= i < 8 && 0 <= k < 2 &&
                                 !(t == b && flag.Has(pl) && pl < f.Planes() && i < f.BlockH(pl)) ::
              bak[t, pl, i, k] == old(bak[t, pl, i, k])
  {
    if flag.y {
      for y := 0 to 8
        invariant forall t, pl, i, k | 0 <= t < 2 && 0 <= pl < 3 && 0 <= i < 8 && 0 <= k < 2 ::
                    bak[t, pl, i, k] == if t == b && pl == 0 && i < y then pic[0, rowY + i, colY + xOff + k - 2]
                                        else old(bak[t, pl, i, k])
      {
        forall k | 0 <= k < 2 {
          bak[b, 0, y, k] := pic[0, rowY + y, colY + xOff + k - 2];
        }
      }
    }
    if f.layout == I400 || !flag.uv {
      return;
    }
    label Luma:
    var uvOff := if f.SsHor(1) then xOff / 2 else xOff;
    for y := 0 to f.BlockH(1)
      invariant forall t, pl, i, k | 0 <= t < 2 && 0 <= pl < 3 && 0 <= i < 8 && 0 <= k < 2 ::
                  bak[t, pl, i, k] == if t == b && 0 < pl && i < y then pic[pl, rowUv + i, colUv + uvOff + k - 2]
                                      else old@Luma(bak[t, pl, i, k])
    {
      forall pl, k | 1 <= pl < 3 && 0 <= k < 2 {
        bak[b, pl, y, k] := pic[pl, rowUv + y, colUv + uvOff + k - 2];
      }
    }
  }

  // ----- One block -----

  /** Runs one kernel call: gathers the taps, then overwrites the block. `taps` is what the kernel saw. */
  method ApplyKernel(dsp: Dsp, pic: array3<int>, pl: nat, r0: nat, c0: nat, bak: array4<int>, bit: nat,
                     line: array4<int>, tf: nat, w: nat, h: nat, e: Edges,
                     pri: nat, sec: nat, dir: nat, damping: int) returns (ghost taps: seq<int>)
    requires BlockSize(w, h) && Fits(pic, pl, r0, c0, w, h, e) && Backups(pic, bak, line, bit, tf)
    modifies pic
    ensures |taps| == TMP_SIZE
    ensures forall k | 0 <= k < TMP_SIZE ::
              taps[k] == old(Cell(pic, pl, r0, c0, bak, bit, line, tf, w, h, e, k / TMP_STRIDE, k % TMP_STRIDE))
    ensures forall p, r, c | 0 <= p < pic.Length0 && 0 <= r < pic.Length1 && 0 <= c < pic.Length2 ::
              pic[p, r, c] == if p == pl && r0 <= r < r0 + h && c0 <= c < c0 + w
                              then dsp.fb(taps, pri, sec, dir, damping, r - r0, c - c0)
                              else old(pic[p, r, c])
  {
    assert pl < pic.Length0 && r0 + h <= pic.Length1 && c0 + w <= pic.Length2;
    hide Cell, Fits, Backups;
    var tmp := Padding(pic, pl, r0, c0, bak, bit, line, tf, w, h, e);
    var gathered := tmp[..];
    taps := gathered;
    forall i, j | 0 <= i < h && 0 <= j < w {
      pic[pl, r0 + i, c0 + j] := dsp.fb(gathered, pri, sec, dir, damping, i, j);
    }
  }

  /** The 64 luma pixels of the block at (r0, c0), as the direction search reads them. */
  function LumaBlock(pic: array3<int>, r0: nat, c0: nat): seq<int>
    requires 0 < pic.Length0 && r0 + 8 <= pic.Length1 && c0 + 8 <= pic.Length2
    reads pic
  {
    seq(64, k requires 0 <= k < 64 reads pic => pic[0, r0 + k / 8, c0 + k % 8])
  }

  /** Everything a kernel call on block (y, x) of plane `pl` reads agrees with the picture `o`:
      the block and what lies right of it and below it in the picture itself, the two rows above
      in the line backup, and the two columns to the left in the column backup. */
  ghost predicate Ready(f: FrameInfo, o: Image, pic: array3<int>, bak: array4<int>, bit: nat,
                        line: array4<int>, tf: nat, pl: nat, y: nat, x: nat)
    requires ValidArrays(f, pic, line) && ValidBackup(bak) && bit < 2 && tf < 2
    requires pl < f.Planes() && y < f.Rows() && x < f.Cols()
    reads pic, bak, line
  {
    var r0, r1, c0, c1 := f.TopRow(pl, y), f.TopRow(pl, y + 1), f.LeftCol(pl, x), f.LeftCol(pl, x + 1);
    && (forall r, c | f.InPlane(pl, r, c) && r0 <= r < r1 + 2 && (if r < r1 then c0 else c0 - 2) <= c < c1 + 2 ::
          pic[pl, r, c] == o(pl, r, c))
    && (y > 0 ==> forall k, c | 0 <= k < 2 && c0 - 2 <= c < c1 + 2 && f.InPlane(pl, r0, c) ::
          line[tf, pl, k, c] == o(pl, r0 - 2 + k, c))
    && (x > 0 ==> forall i, k | 0 <= i < f.BlockH(pl) && 0 <= k < 2 ::
          bak[bit, pl, i, k] == o(pl, r0 + i, c0 - 2 + k))
  }

  ghost predicate InBlock(f: FrameInfo, pl: nat, y: int, x: int, r: int, c: int) {
    f.TopRow(pl, y) <= r < f.TopRow(pl, y + 1) && f.LeftCol(pl, x) <= c < f.LeftCol(pl, x + 1)
  }

  /** Block (y, x) still holds the pixels of `o` in every plane from `first` on. */
  ghost predicate Untouched(f: FrameInfo, o: Image, pic: array3<int>, first: nat, y: nat, x: nat)
    requires f.Valid() && pic.Length0 == 3 && pic.Length1 == 4 * f.bh && pic.Length2 == 4 * f.bw
    reads pic
  {
    forall pl, r, c | f.InPlane(pl, r, c) && first <= pl && InBlock(f, pl, y, x, r, c) :: pic[pl, r, c] == o(pl, r, c)
  }

  /** Wherever a cell of the tap buffer is gathered from, it holds what the frozen picture has there. */
  lemma CellIsFrozen(f: FrameInfo, o: Image, pic: array3<int>, bak: array4<int>, bit: nat,
                     line: array4<int>, tf: nat, pl: nat, y: nat, x: nat, i: nat, j: nat)
    requires ValidArrays(f, pic, line) && ValidBackup(bak) && bit < 2 && tf < 2
    requires pl < f.Planes() && y < f.Rows() && x < f.Cols()
    requires Ready(f, o, pic, bak, bit, line, tf, pl, y, x)
    ensures Cell(pic, pl, f.TopRow(pl, y), f.LeftCol(pl, x), bak, bit, line, tf, f.BlockW(pl), f.BlockH(pl),
                 FrameEdges(f, y, x), i, j)
         == FrozenCell(f, o, pl, y, x, i, j)
  {
    var w, h, r, c := f.BlockW(pl), f.BlockH(pl), f.TopRow(pl, y) + i - 2, f.LeftCol(pl, x) + j - 2;
    if i < h + 4 && j < w + 4 && Available(FrameEdges(f, y, x), w, h, i, j) {
      assert f.InPlane(pl, f.TopRow(pl, y), c);
      if 2 <= i {
        assert f.InPlane(pl, r, c);
      }
    }
  }

  /** So all the gathered cells are those of the frozen picture. */
  lemma GatheredAreFrozen(f: FrameInfo, pic: array3<int>, bak: array4<int>, bit: nat, line: array4<int>, tf: nat,
                          pl: nat, y: nat, x: nat, e: Edges, o: Image)
    requires ValidArrays(f, pic, line) && ValidBackup(bak) && bit < 2 && tf < 2
    requires pl < f.Planes() && y < f.Rows() && x < f.Cols() && e == FrameEdges(f, y, x)
    requires Ready(f, o, pic, bak, bit, line, tf, pl, y, x)
    ensures forall k | 0 <= k < TMP_SIZE ::
              FrozenTaps(f, o, pl, y, x)[k]
                == Cell(pic, pl, f.TopRow(pl, y), f.LeftCol(pl, x), bak, bit, line, tf, f.BlockW(pl), f.BlockH(pl), e,
                        k / TMP_STRIDE, k % TMP_STRIDE)
  {
    hide Cell, FrozenCell, Ready;
    forall k | 0 <= k < TMP_SIZE
      ensures FrozenTaps(f, o, pl, y, x)[k]
           == Cell(pic, pl, f.TopRow(pl, y), f.LeftCol(pl, x), bak, bit, line, tf, f.BlockW(pl), f.BlockH(pl), e,
                   k / TMP_STRIDE, k % TMP_STRIDE)
    {
      CellIsFrozen(f, o, pic, bak, bit, line, tf, pl, y, x, k / TMP_STRIDE, k % TMP_STRIDE);
    }
  }

  /** A kernel call on a ready block computes what the frozen picture gives. */
  method RunKernel(f: FrameInfo, dsp: Dsp, pic: array3<int>, bak: array4<int>, bit: nat,
                   line: array4<int>, tf: nat, pl: nat, y: nat, x: nat, e: Edges,
                   pri: nat, sec: nat, dir: nat, damping: int, ghost o: Image)
    requires ValidArrays(f, pic, line) && ValidBackup(bak) && bit < 2 && tf < 2
    requires pl < f.Planes() && y < f.Rows() && x < f.Cols() && e == FrameEdges(f, y, x)
    requires Ready(f, o, pic, bak, bit, line, tf, pl, y, x)
    modifies pic
    ensures forall p, r, c | f.InPlane(p, r, c) ::
              pic[p, r, c] == if p == pl && InBlock(f, pl, y, x, r, c)
                              then dsp.fb(FrozenTaps(f, o, pl, y, x), pri, sec, dir, damping,
                                          r - f.TopRow(pl, y), c - f.LeftCol(pl, x))
                              else old(pic[p, r, c])
  {
    hide Cell;
    ghost var frozen := FrozenTaps(f, o, pl, y, x);
    GatheredAreFrozen(f, pic, bak, bit, line, tf, pl, y, x, e, o);
    ghost var taps := ApplyKernel(dsp, pic, pl, f.TopRow(pl, y), f.LeftCol(pl, x), bak, bit, line, tf,
                                  f.BlockW(pl), f.BlockH(pl), e, pri, sec, dir, damping);
    assert taps == frozen;
  }

  method FindDirection(f: FrameInfo, dsp: Dsp, pic: array3<int>, y: nat, x: nat, ghost o: Image)
    returns (dir: Direction, variance: nat)
    requires f.Valid() && pic.Length0 == 3 && pic.Length1 == 4 * f.bh && pic.Length2 == 4 * f.bw
    requires y < f.Rows() && x < f.Cols() && Untouched(f, o, pic, 0, y, x)
    ensures (dir, variance) == dsp.dir(FrozenLuma(o, y, x))
  {
    var block := LumaBlock(pic, 8 * y, 8 * x);
    assert block == FrozenLuma(o, y, x) by {
      assert forall k | 0 <= k < 64 :: InBlock(f, 0, y, x, 8 * y + k / 8, 8 * x + k % 8);
    }
    var (d, v) := dsp.dir(block);
    dir, variance := d, v;
  }

  /** Runs the kernel on one plane of a coded block, with what the level says. */
  method RunPlane(f: FrameInfo, dsp: Dsp, pic: array3<int>, bak: array4<int>, bit: nat,
                  line: array4<int>, tf: nat, pl: nat, y: nat, x: nat, e: Edges, ghost lvl: nat,
                  pri: nat, sec: nat, dir: nat, damping: int, ghost o: Image)
    requires ValidArrays(f, pic, line) && ValidBackup(bak) && bit < 2 && tf < 2
    requires y < f.Rows() && x < f.Cols() && e == FrameEdges(f, y, x) && pl < f.Planes()
    requires pri == (if pl == 0 then LumaPri(f, dsp, o, lvl, y, x) else PriLevel(f, lvl)) && sec == SecLevel(f, lvl)
    requires dir == KernelDir(f, dsp, o, lvl, pl, y, x) && damping == f.Damping() - if pl == 0 then 0 else 1
    requires Ready(f, o, pic, bak, bit, line, tf, pl, y, x)
    modifies pic
    ensures forall p, r, c | f.InPlane(p, r, c) ::
              pic[p, r, c] == if p == pl && InBlock(f, pl, y, x, r, c)
                              then KernelPixel(f, dsp, o, lvl, pl, y, x, r - f.TopRow(pl, y), c - f.LeftCol(pl, x))
                              else old(pic[p, r, c])
    ensures forall p | 0 <= p < f.Planes() && p != pl && old(Ready(f, o, pic, bak, bit, line, tf, p, y, x)) ::
              Ready(f, o, pic, bak, bit, line, tf, p, y, x)
  {
    RunKernel(f, dsp, pic, bak, bit, line, tf, pl, y, x, e, pri, sec, dir, damping, o);
  }

  /** The luma part of a coded block: the primary strength follows the variance, and a zero primary
      strength forces direction 0. */
  method FilterLuma(f: FrameInfo, dsp: Dsp, pic: array3<int>, bak: array4<int>, bit: nat,
                    line: array4<int>, tf: nat, y: nat, x: nat, e: Edges, yLvl: nat,
                    dir: Direction, variance: nat, ghost o: Image)
    requires ValidArrays(f, pic, line) && ValidBackup(bak) && bit < 2 && tf < 2
    requires y < f.Rows() && x < f.Cols() && e == FrameEdges(f, y, x)
    requires PriLevel(f, yLvl) != 0 ==> (dir, variance) == dsp.dir(FrozenLuma(o, y, x))
    requires yLvl != 0 ==> Ready(f, o, pic, bak, bit, line, tf, 0, y, x)
    requires Untouched(f, o, pic, 0, y, x)
    modifies pic
    ensures forall pl, r, c | f.InPlane(pl, r, c) ::
              pic[pl, r, c] == if pl == 0 && InBlock(f, 0, y, x, r, c)
                               then FilteredAt(f, dsp, o, yLvl, 0, y, x, r - 8 * y, c - 8 * x)
                               else old(pic[pl, r, c])
    ensures forall pl | 0 < pl < f.Planes() && old(Ready(f, o, pic, bak, bit, line, tf, pl, y, x)) ::
              Ready(f, o, pic, bak, bit, line, tf, pl, y, x)
  {
    hide KernelPixel, Ready;
    var pri, sec := PriLevel(f, yLvl), SecLevel(f, yLvl);
    if pri != 0 {
      var adjusted := AdjustStrength(pri, variance);
      assert adjusted == LumaPri(f, dsp, o, yLvl, y, x);
      if adjusted != 0 || sec != 0 {
        RunPlane(f, dsp, pic, bak, bit, line, tf, 0, y, x, e, yLvl, adjusted, sec, dir, f.Damping(), o);
      }
    } else if sec != 0 {
      RunPlane(f, dsp, pic, bak, bit, line, tf, 0, y, x, e, yLvl, 0, sec, 0, f.Damping(), o);
    }
  }

  /** Runs the kernel on both chroma planes of a coded block. */
  method RunChroma(f: FrameInfo, dsp: Dsp, pic: array3<int>, bak: array4<int>, bit: nat,
                   line: array4<int>, tf: nat, y: nat, x: nat, e: Edges, uvLvl: nat,
                   dir: Direction, ghost o: Image)
    requires ValidArrays(f, pic, line) && ValidBackup(bak) && bit < 2 && tf < 2
    requires y < f.Rows() && x < f.Cols() && e == FrameEdges(f, y, x) && f.layout != I400
    requires PriLevel(f, uvLvl) != 0 ==> dir == dsp.dir(FrozenLuma(o, y, x)).0
    requires Ready(f, o, pic, bak, bit, line, tf, 1, y, x)
    requires Ready(f, o, pic, bak, bit, line, tf, 2, y, x)
    modifies pic
    ensures forall pl, r, c | f.InPlane(pl, r, c) ::
              pic[pl, r, c] == if pl > 0 && InBlock(f, pl, y, x, r, c)
                               then KernelPixel(f, dsp, o, uvLvl, pl, y, x, r - f.TopRow(pl, y), c - f.LeftCol(pl, x))
                               else old(pic[pl, r, c])
  {
    var pri, sec := PriLevel(f, uvLvl), SecLevel(f, uvLvl);
    var uvDir := if pri != 0 then UvDir(f, dir) else 0;
    assert uvDir == KernelDir(f, dsp, o, uvLvl, 1, y, x) == KernelDir(f, dsp, o, uvLvl, 2, y, x);
    hide PriLevel, SecLevel, KernelDir, KernelPixel, Ready, FrameEdges;
    for pl := 1 to 3
      invariant pl <= 2 ==> Ready(f, o, pic, bak, bit, line, tf, 2, y, x)
      invariant pl <= 1 ==> Ready(f, o, pic, bak, bit, line, tf, 1, y, x)
      invariant forall p, r, c | f.InPlane(p, r, c) ::
                  pic[p, r, c] == if 0 < p < pl && InBlock(f, p, y, x, r, c)
                                  then KernelPixel(f, dsp, o, uvLvl, p, y, x, r - f.TopRow(p, y), c - f.LeftCol(p, x))
                                  else old(pic[p, r, c])
    {
      RunPlane(f, dsp, pic, bak, bit, line, tf, pl, y, x, e, uvLvl, pri, sec, uvDir, f.Damping() - 1, o);
    }
  }

  /** The chroma part of a coded block. */
  method FilterChroma(f: FrameInfo, dsp: Dsp, pic: array3<int>, bak: array4<int>, bit: nat,
                      line: array4<int>, tf: nat, y: nat, x: nat, e: Edges, uvLvl: nat,
                      dir: Direction, ghost o: Image)
    requires ValidArrays(f, pic, line) && ValidBackup(bak) && bit < 2 && tf < 2
    requires y < f.Rows() && x < f.Cols() && e == FrameEdges(f, y, x)
    requires f.layout == I400 ==> uvLvl == 0
    requires PriLevel(f, uvLvl) != 0 ==> dir == dsp.dir(FrozenLuma(o, y, x)).0
    requires uvLvl != 0 ==> Ready(f, o, pic, bak, bit, line, tf, 1, y, x)
    requires uvLvl != 0 ==> Ready(f, o, pic, bak, bit, line, tf, 2, y, x)
    requires Untouched(f, o, pic, 1, y, x)
    modifies pic
    ensures forall pl, r, c | f.InPlane(pl, r, c) ::
              pic[pl, r, c] == if pl > 0 && InBlock(f, pl, y, x, r, c)
                               then FilteredAt(f, dsp, o, uvLvl, pl, y, x, r - f.TopRow(pl, y), c - f.LeftCol(pl, x))
                               else old(pic[pl, r, c])
  {
    if uvLvl != 0 {
      RunChroma(f, dsp, pic, bak, bit, line, tf, y, x, e, uvLvl, dir, o);
    }
  }

  /** Filters the planes of one coded block whose unit has the levels (yLvl, uvLvl). */
  method FilterBlock(f: FrameInfo, dsp: Dsp, pic: array3<int>, bak: array4<int>, bit: nat,
                     line: array4<int>, tf: nat, y: nat, x: nat, e: Edges, yLvl: nat, uvLvl: nat,
                     ghost o: Image)
    requires ValidArrays(f, pic, line) && ValidBackup(bak) && bit < 2 && tf < 2
    requires y < f.Rows() && x < f.Cols() && e == FrameEdges(f, y, x)
    requires f.layout == I400 ==> uvLvl == 0
    requires yLvl != 0 ==> Ready(f, o, pic, bak, bit, line, tf, 0, y, x)
    requires uvLvl != 0 ==> Ready(f, o, pic, bak, bit, line, tf, 1, y, x)
    requires uvLvl != 0 ==> Ready(f, o, pic, bak, bit, line, tf, 2, y, x)
    requires Untouched(f, o, pic, 0, y, x)
    modifies pic
    ensures forall pl, r, c | f.InPlane(pl, r, c) ::
              pic[pl, r, c] == if InBlock(f, pl, y, x, r, c)
                               then FilteredAt(f, dsp, o, if pl == 0 then yLvl else uvLvl, pl, y, x,
                                               r - f.TopRow(pl, y), c - f.LeftCol(pl, x))
                               else old(pic[pl, r, c])
  {
    hide FilteredAt, KernelPixel, PriLevel, FrozenLuma, LinesSaved;
    var dir: Direction, variance: nat := 0, 0;
    if PriLevel(f, yLvl) != 0 || PriLevel(f, uvLvl) != 0 {
      dir, variance := FindDirection(f, dsp, pic, y, x, o);
    }
    FilterLuma(f, dsp, pic, bak, bit, line, tf, y, x, e, yLvl, dir, variance, o);
    FilterChroma(f, dsp, pic, bak, bit, line, tf, y, x, e, uvLvl, dir, o);
  }

  // ----- One row of blocks -----

  /** What the picture holds once every block before (y, x) in raster order, from block row `first`
      on, has been filtered: rows above `first` keep `pre`, blocks still to come keep `o`. */
  ghost function Target(f: FrameInfo, dsp: Dsp, lf: seq<Av1Filter>, o: Image, pre: Image,
                        first: nat, y: nat, x: nat, pl: nat, r: nat, c: nat): int
    requires f.Valid() && ValidMasks(f, lf) && f.InPlane(pl, r, c)
  {
    if r < f.TopRow(pl, first) then pre(pl, r, c)
    else if r < f.TopRow(pl, y) || (r < f.TopRow(pl, y + 1) && c < f.LeftCol(pl, x))
    then FilteredPixel(f, dsp, lf, o, pl, r, c)
    else o(pl, r, c)
  }

  ghost predicate Progress(f: FrameInfo, dsp: Dsp, lf: seq<Av1Filter>, o: Image, pre: Image,
                           first: nat, y: nat, x: nat, pic: array3<int>)
    requires f.Valid() && ValidMasks(f, lf)
    requires pic.Length0 == 3 && pic.Length1 == 4 * f.bh && pic.Length2 == 4 * f.bw
    reads pic
  {
    forall pl, r, c | f.InPlane(pl, r, c) :: pic[pl, r, c] == Target(f, dsp, lf, o, pre, first, y, x, pl, r, c)
  }

  /** The line backup `tf` holds the two rows of `o` above block row `y`, if there is one. */
  ghost predicate LinesSaved(f: FrameInfo, o: Image, line: array4<int>, tf: nat, y: nat)
    requires f.Valid() && tf < 2
    requires line.Length0 == 2 && line.Length1 == 3 && line.Length2 == 2 && line.Length3 == 4 * f.bw
    reads line
  {
    0 < y < f.Rows() ==>
      forall pl, k, c | f.InPlane(pl, 0, c) && 0 <= k < 2 ::
        line[tf, pl, k, c] == o(pl, f.TopRow(pl, y) - 2 + k, c)
  }

  /** The column backup `bit` holds the two columns of `o` left of block (y, x), for the planes in `flag`. */
  ghost predicate ColumnsSaved(f: FrameInfo, o: Image, bak: array4<int>, bit: nat, flag: Flags, y: nat, x: nat)
    requires ValidBackup(bak) && bit < 2
    reads bak
  {
    forall pl, i, k | 0 <= pl < f.Planes() && flag.Has(pl) && 0 <= i < f.BlockH(pl) && 0 <= k < 2 ::
      bak[bit, pl, i, k] == o(pl, f.TopRow(pl, y) + i, f.LeftCol(pl, x) - 2 + k)
  }

  lemma ReadyFrom(f: FrameInfo, dsp: Dsp, lf: seq<Av1Filter>, o: Image, pre: Image, first: nat,
                  pic: array3<int>, bak: array4<int>, bit: nat, flag: Flags,
                  line: array4<int>, tf: nat, pl: nat, y: nat, x: nat)
    requires ValidArrays(f, pic, line) && ValidMasks(f, lf) && ValidBackup(bak) && bit < 2 && tf < 2
    requires pl < f.Planes() && first <= y < f.Rows() && x < f.Cols() && flag.Has(pl)
    requires Progress(f, dsp, lf, o, pre, first, y, x, pic)
    requires LinesSaved(f, o, line, tf, y)
    requires x > 0 ==> ColumnsSaved(f, o, bak, bit, flag, y, x)
    ensures Ready(f, o, pic, bak, bit, line, tf, pl, y, x)
  {
  }

  /** The block found by division is the block the pixel was known to lie in. */
  lemma PixelInBlock(f: FrameInfo, dsp: Dsp, lf: seq<Av1Filter>, o: Image, pl: nat, y: nat, x: nat, r: nat, c: nat)
    requires f.Valid() && ValidMasks(f, lf) && f.InPlane(pl, r, c)
    requires y < f.Rows() && x < f.Cols() && InBlock(f, pl, y, x, r, c)
    ensures FilteredPixel(f, dsp, lf, o, pl, r, c)
         == FilteredAt(f, dsp, o, Level(f, lf, pl, y, x), pl, y, x, r - f.TopRow(pl, y), c - f.LeftCol(pl, x))
  {
    assert BlockRow(f, pl, r) == y && BlockCol(f, pl, c) == x;
  }

  /** A block whose level is zero keeps its pixels. */
  lemma ZeroLevelPixel(f: FrameInfo, dsp: Dsp, lf: seq<Av1Filter>, o: Image, pl: nat, y: nat, x: nat, r: nat, c: nat)
    requires f.Valid() && ValidMasks(f, lf) && f.InPlane(pl, r, c)
    requires y < f.Rows() && x < f.Cols() && InBlock(f, pl, y, x, r, c)
    requires Level(f, lf, pl, y, x) == 0
    ensures FilteredPixel(f, dsp, lf, o, pl, r, c) == o(pl, r, c)
  {
    PixelInBlock(f, dsp, lf, o, pl, y, x, r, c);
  }

  /** A block all of whose levels are zero is already what it must become. */
  lemma SkipBlock(f: FrameInfo, dsp: Dsp, lf: seq<Av1Filter>, o: Image, pre: Image, first: nat,
                  y: nat, x: nat, pic: array3<int>)
    requires f.Valid() && ValidMasks(f, lf)
    requires pic.Length0 == 3 && pic.Length1 == 4 * f.bh && pic.Length2 == 4 * f.bw
    requires first <= y < f.Rows() && x < f.Cols()
    requires Levels(f, lf, y, x) == (0, 0)
    requires Progress(f, dsp, lf, o, pre, first, y, x, pic)
    ensures Progress(f, dsp, lf, o, pre, first, y, x + 1, pic)
  {
    forall pl, r, c | f.InPlane(pl, r, c)
      ensures pic[pl, r, c] == Target(f, dsp, lf, o, pre, first, y, x + 1, pl, r, c)
    {
      if InBlock(f, pl, y, x, r, c) {
        ZeroLevelPixel(f, dsp, lf, o, pl, y, x, r, c);
      }
    }
  }

  lemma RowDone(f: FrameInfo, dsp: Dsp, lf: seq<Av1Filter>, o: Image, pre: Image, first: nat,
                y: nat, pic: array3<int>)
    requires f.Valid() && ValidMasks(f, lf)
    requires pic.Length0 == 3 && pic.Length1 == 4 * f.bh && pic.Length2 == 4 * f.bw
    requires first <= y < f.Rows()
    requires Progress(f, dsp, lf, o, pre, first, y, f.Cols(), pic)
    ensures Progress(f, dsp, lf, o, pre, first, y + 1, 0, pic)
  {
  }

  /** In a plane whose level is zero in the block to the left, the picture itself still holds the
      columns of `o`. */
  lemma LeftColumnsIntact(f: FrameInfo, dsp: Dsp, lf: seq<Av1Filter>, o: Image, pre: Image, first: nat,
                          pic: array3<int>, y: nat, x: nat, flag: Flags)
    requires f.Valid() && ValidMasks(f, lf)
    requires pic.Length0 == 3 && pic.Length1 == 4 * f.bh && pic.Length2 == 4 * f.bw
    requires first <= y < f.Rows() && 0 < x < f.Cols()
    requires Progress(f, dsp, lf, o, pre, first, y, x, pic)
    requires forall pl | 0 <= pl < f.Planes() && flag.Has(pl) :: UnfilteredToLeft(f, lf, pl, y, x)
    ensures forall pl, r, c | f.InPlane(pl, r, c) && flag.Has(pl) && InBlock(f, pl, y, x - 1, r, c) ::
              pic[pl, r, c] == o(pl, r, c)
  {
    forall pl, r, c | f.InPlane(pl, r, c) && flag.Has(pl) && InBlock(f, pl, y, x - 1, r, c)
      ensures pic[pl, r, c] == o(pl, r, c)
    {
      assert UnfilteredToLeft(f, lf, pl, y, x);
      ZeroLevelPixel(f, dsp, lf, o, pl, y, x - 1, r, c);
    }
  }

  /** The last two columns of a block are left of the block to its right. */
  lemma LastColumns(f: FrameInfo, pl: nat, y: nat, x: nat, i: nat, k: nat)
    requires f.Valid() && pl < f.Planes() && y < f.Rows() && x < f.Cols() && i < f.BlockH(pl) && k < 2
    ensures f.InPlane(pl, f.TopRow(pl, y) + i, f.LeftCol(pl, x + 1) - 2 + k)
    ensures InBlock(f, pl, y, x, f.TopRow(pl, y) + i, f.LeftCol(pl, x + 1) - 2 + k)
  {
  }

  /** Saves the left columns of the planes in `doLeft`, which the previous block did not save. */
  method SaveLeft(f: FrameInfo, pic: array3<int>, bak: array4<int>, bit: nat, y: nat, x: nat,
                  flag: Flags, doLeft: Flags,
                  ghost o: Image)
    requires f.Valid() && ValidBackup(bak) && bit < 2
    requires pic.Length0 == 3 && pic.Length1 == 4 * f.bh && pic.Length2 == 4 * f.bw
    requires y < f.Rows() && 0 < x < f.Cols()
    requires forall pl, r, c | f.InPlane(pl, r, c) && doLeft.Has(pl) && InBlock(f, pl, y, x - 1, r, c) ::
               pic[pl, r, c] == o(pl, r, c)
    requires ColumnsSaved(f, o, bak, bit, flag.Without(doLeft), y, x)
    modifies bak
    ensures ColumnsSaved(f, o, bak, bit, flag, y, x)
  {
    hide FrameInfo.InPlane, InBlock;
    Backup2x8(f, bak, bit, pic, 8 * y, 8 * x, f.TopRow(1, y), f.LeftCol(1, x), 0, doLeft);
    forall pl, i, k | 0 <= pl < f.Planes() && flag.Has(pl) && 0 <= i < f.BlockH(pl) && 0 <= k < 2
      ensures bak[bit, pl, i, k] == o(pl, f.TopRow(pl, y) + i, f.LeftCol(pl, x) - 2 + k)
    {
      if doLeft.Has(pl) {
        LastColumns(f, pl, y, x - 1, i, k);
        assert bak[bit, pl, i, k] == pic[pl, f.TopRow(pl, y) + i, f.LeftCol(pl, x) - 2 + k];
      }
    }
  }

  lemma LastColumnsIntact(f: FrameInfo, o: Image, pic: array3<int>, pl: nat, y: nat, x: nat, i: nat, k: nat)
    requires f.Valid() && pic.Length0 == 3 && pic.Length1 == 4 * f.bh && pic.Length2 == 4 * f.bw
    requires pl < f.Planes() && y < f.Rows() && x < f.Cols() && i < f.BlockH(pl) && k < 2
    requires Untouched(f, o, pic, 0, y, x)
    ensures f.TopRow(pl, y) + i < pic.Length1 && 0 <= f.LeftCol(pl, x + 1) - 2 + k < pic.Length2
    ensures pic[pl, f.TopRow(pl, y) + i, f.LeftCol(pl, x + 1) - 2 + k]
         == o(pl, f.TopRow(pl, y) + i, f.LeftCol(pl, x + 1) - 2 + k)
  {
    LastColumns(f, pl, y, x, i, k);
  }

  /** Saves the last two columns of the block, still unfiltered, for the block to its right. */
  method SaveForRight(f: FrameInfo, pic: array3<int>, bak: array4<int>, bit: nat, y: nat, x: nat, flag: Flags,
                      ghost o: Image)
    requires f.Valid() && ValidBackup(bak) && bit < 2
    requires pic.Length0 == 3 && pic.Length1 == 4 * f.bh && pic.Length2 == 4 * f.bw
    requires y < f.Rows() && x + 1 < f.Cols()
    requires Untouched(f, o, pic, 0, y, x)
    modifies bak
    ensures ColumnsSaved(f, o, bak, 1 - bit, flag, y, x + 1)
    ensures old(ColumnsSaved(f, o, bak, bit, flag, y, x)) ==> ColumnsSaved(f, o, bak, bit, flag, y, x)
  {
    hide Untouched, InBlock, FrameInfo.InPlane;
    var other := 1 - bit;
    Backup2x8(f, bak, other, pic, 8 * y, 8 * x, f.TopRow(1, y), f.LeftCol(1, x), 8, flag);
    forall pl, i, k | 0 <= pl < f.Planes() && flag.Has(pl) && 0 <= i < f.BlockH(pl) && 0 <= k < 2
      ensures bak[other, pl, i, k] == o(pl, f.TopRow(pl, y) + i, f.LeftCol(pl, x + 1) - 2 + k)
    {
      LastColumnsIntact(f, o, pic, pl, y, x, i, k);
      assert bak[other, pl, i, k] == pic[pl, f.TopRow(pl, y) + i, f.LeftCol(pl, x + 1) - 2 + k];
    }
  }

  /** The filter call of one coded position moves the pass one block on. */
  method FilterAndAdvance(f: FrameInfo, dsp: Dsp, pic: array3<int>, bak: array4<int>, bit: nat,
                          line: array4<int>, tf: nat, y: nat, x: nat, e: Edges, flag: Flags, yLvl: nat, uvLvl: nat,
                          ghost first: nat, ghost lf: seq<Av1Filter>, ghost o: Image, ghost pre: Image)
    requires ValidArrays(f, pic, line) && ValidMasks(f, lf) && ValidBackup(bak) && bit < 2 && tf < 2
    requires first <= y < f.Rows() && x < f.Cols() && e == FrameEdges(f, y, x)
    requires Levels(f, lf, y, x) == (yLvl, uvLvl) && flag == Flags(yLvl != 0, uvLvl != 0)
    requires f.layout == I400 ==> uvLvl == 0
    requires Progress(f, dsp, lf, o, pre, first, y, x, pic)
    requires LinesSaved(f, o, line, tf, y)
    requires x > 0 ==> ColumnsSaved(f, o, bak, bit, flag, y, x)
    modifies pic
    ensures Progress(f, dsp, lf, o, pre, first, y, x + 1, pic)
  {
    forall pl | 0 <= pl < f.Planes() && flag.Has(pl) ensures Ready(f, o, pic, bak, bit, line, tf, pl, y, x) {
      ReadyFrom(f, dsp, lf, o, pre, first, pic, bak, bit, flag, line, tf, pl, y, x);
    }
    FilterBlock(f, dsp, pic, bak, bit, line, tf, y, x, e, yLvl, uvLvl, o);
    forall pl, r, c | f.InPlane(pl, r, c)
      ensures pic[pl, r, c] == Target(f, dsp, lf, o, pre, first, y, x + 1, pl, r, c)
    {
      if InBlock(f, pl, y, x, r, c) {
        PixelInBlock(f, dsp, lf, o, pl, y, x, r, c);
      }
    }
  }

  lemma NothingToAdd(f: FrameInfo, o: Image, bak: array4<int>, bit: nat, flag: Flags, doLeft: Flags, y: nat, x: nat)
    requires ValidBackup(bak) && bit < 2 && doLeft.Empty()
    requires x > 0 ==> ColumnsSaved(f, o, bak, bit, flag.Without(doLeft), y, x)
    ensures x > 0 ==> ColumnsSaved(f, o, bak, bit, flag, y, x)
  {
    assert flag.Without(doLeft) == flag;
  }

  /** Both backups around one coded position: after them, backup `bit` holds the left columns of every
      plane in `flag`, and the other one those the block to the right will need. */
  method SaveColumns(f: FrameInfo, pic: array3<int>, bak: array4<int>, bit: nat, y: nat, x: nat, e: Edges,
                     flag: Flags, doLeft: Flags, ghost o: Image)
    requires f.Valid() && ValidBackup(bak) && bit < 2
    requires pic.Length0 == 3 && pic.Length1 == 4 * f.bh && pic.Length2 == 4 * f.bw
    requires y < f.Rows() && x < f.Cols() && e == FrameEdges(f, y, x)
    requires x > 0 ==> ColumnsSaved(f, o, bak, bit, flag.Without(doLeft), y, x)
    requires x > 0 ==> forall pl, r, c | f.InPlane(pl, r, c) && doLeft.Has(pl) && InBlock(f, pl, y, x - 1, r, c) ::
                         pic[pl, r, c] == o(pl, r, c)
    requires Untouched(f, o, pic, 0, y, x)
    modifies bak
    ensures x > 0 ==> ColumnsSaved(f, o, bak, bit, flag, y, x)
    ensures x + 1 < f.Cols() ==> ColumnsSaved(f, o, bak, 1 - bit, flag, y, x + 1)
  {
    assert e.left == (x > 0) && e.right == (x + 1 < f.Cols());
    hide FrameInfo.InPlane, InBlock, Untouched, FrameEdges, ColumnsSaved;
    if doLeft.Empty() {
      NothingToAdd(f, o, bak, bit, flag, doLeft, y, x);
    }
    if !doLeft.Empty() && e.left {
      SaveLeft(f, pic, bak, bit, y, x, flag, doLeft, o);
    }
    if e.right {
      SaveForRight(f, pic, bak, bit, y, x, flag, o);
    }
  }

  /** One coded 8x8 position: top up the left backup, save for the right neighbour, filter. */
  method CodedBlock(f: FrameInfo, dsp: Dsp, pic: array3<int>, bak: array4<int>, bit: nat,
                    line: array4<int>, tf: nat, y: nat, x: nat, e: Edges, flag: Flags, doLeft: Flags,
                    yLvl: nat, uvLvl: nat,
                    ghost first: nat, ghost lf: seq<Av1Filter>, ghost o: Image, ghost pre: Image)
    requires ValidArrays(f, pic, line) && ValidMasks(f, lf) && ValidBackup(bak) && bit < 2 && tf < 2
    requires first <= y < f.Rows() && x < f.Cols() && e == FrameEdges(f, y, x)
    requires Levels(f, lf, y, x) == (yLvl, uvLvl) && flag == Flags(yLvl != 0, uvLvl != 0)
    requires f.layout == I400 ==> uvLvl == 0
    requires Progress(f, dsp, lf, o, pre, first, y, x, pic)
    requires LinesSaved(f, o, line, tf, y)
    requires x > 0 ==> ColumnsSaved(f, o, bak, bit, flag.Without(doLeft), y, x)
    requires forall pl | 0 <= pl < f.Planes() && doLeft.Has(pl) :: UnfilteredToLeft(f, lf, pl, y, x)
    modifies pic, bak
    ensures Progress(f, dsp, lf, o, pre, first, y, x + 1, pic)
    ensures x + 1 < f.Cols() ==> ColumnsSaved(f, o, bak, 1 - bit, flag, y, x + 1)
  {
    if x > 0 {
      LeftColumnsIntact(f, dsp, lf, o, pre, first, pic, y, x, doLeft);
    }
    assert Untouched(f, o, pic, 0, y, x);
    SaveColumns(f, pic, bak, bit, y, x, e, flag, doLeft, o);
    FilterAndAdvance(f, dsp, pic, bak, bit, line, tf, y, x, e, flag, yLvl, uvLvl, first, lf, o, pre);
  }

  /** The loop state that lives across the units of one row: which column backup holds the columns
      left of the next block, and for which planes. */
  datatype RowState = RowState(bit: nat, lastSkip: bool, prevFlag: Flags, e: Edges)

  /** The flags are what they must be before block (y, x). After a block that was filtered with
      planes `prevFlag`, those planes are saved; every plane not saved is unfiltered to the left. */
  ghost predicate RowInv(f: FrameInfo, lf: seq<Av1Filter>, o: Image, bak: array4<int>, s: RowState, y: nat, x: nat)
    requires f.Valid() && ValidMasks(f, lf) && ValidBackup(bak) && x <= f.Cols()
    reads bak
  {
    && s.bit < 2
    && s.e.left == (x > 0) && (x < f.Cols() ==> s.e.right)
    && s.e.top == (y > 0) && s.e.bottom == (y + 1 < f.Rows())
    && (x == 0 ==> s.lastSkip)
    && (x < f.Cols() ==>
          forall pl | 0 <= pl < f.Planes() && (s.lastSkip || !s.prevFlag.Has(pl)) :: UnfilteredToLeft(f, lf, pl, y, x))
    && (x < f.Cols() && !s.lastSkip ==> ColumnsSaved(f, o, bak, s.bit, s.prevFlag, y, x))
  }

  /** The planes whose left columns still have to be saved. */
  function DoLeft(s: RowState, flag: Flags): Flags {
    if s.lastSkip then flag else flag.Without(s.prevFlag)
  }

  /** The planes not to be saved now are already saved; the others are unfiltered to the left. */
  lemma DoLeftIsEnough(f: FrameInfo, lf: seq<Av1Filter>, o: Image, bak: array4<int>, s: RowState,
                       flag: Flags, y: nat, x: nat)
    requires f.Valid() && ValidMasks(f, lf) && ValidBackup(bak) && 0 < x < f.Cols()
    requires RowInv(f, lf, o, bak, s, y, x)
    ensures ColumnsSaved(f, o, bak, s.bit, flag.Without(DoLeft(s, flag)), y, x)
    ensures forall pl | 0 <= pl < f.Planes() && DoLeft(s, flag).Has(pl) :: UnfilteredToLeft(f, lf, pl, y, x)
  {
  }

  /** One 8x8 position, coded or not. */
  method FilterPosition(f: FrameInfo, dsp: Dsp, pic: array3<int>, bak: array4<int>, line: array4<int>, tf: nat,
                        y: nat, x: nat, coded: bool, yLvl: nat, uvLvl: nat, s0: RowState,
                        ghost first: nat, ghost lf: seq<Av1Filter>, ghost o: Image, ghost pre: Image)
    returns (s: RowState)
    requires ValidArrays(f, pic, line) && ValidMasks(f, lf) && ValidBackup(bak) && tf < 2
    requires first <= y < f.Rows() && x < f.Cols()
    requires Levels(f, lf, y, x) == if coded then (yLvl, uvLvl) else (0, 0)
    requires f.layout == I400 ==> uvLvl == 0
    requires Progress(f, dsp, lf, o, pre, first, y, x, pic)
    requires RowInv(f, lf, o, bak, s0, y, x)
    requires LinesSaved(f, o, line, tf, y)
    modifies pic, bak
    ensures Progress(f, dsp, lf, o, pre, first, y, x + 1, pic)
    ensures RowInv(f, lf, o, bak, s, y, x + 1)
  {
    s := s0;
    if 2 * x + 2 >= f.bw {
      s := s.(e := s.e.(right := false));
    }
    if !coded {
      s := s.(lastSkip := true);
      SkipBlock(f, dsp, lf, o, pre, first, y, x, pic);
    } else {
      var flag := Flags(yLvl != 0, uvLvl != 0);
      if x > 0 {
        DoLeftIsEnough(f, lf, o, bak, s0, flag, y, x);
      }
      CodedBlock(f, dsp, pic, bak, s.bit, line, tf, y, x, s.e, flag, DoLeft(s, flag), yLvl, uvLvl, first, lf, o, pre);
      s := s.(prevFlag := flag, bit := 1 - s.bit, lastSkip := false);
    }
    s := s.(e := s.e.(left := true));
  }

  /** The 8x8 positions of one 64x64 unit, left to right. */
  method FilterUnit(f: FrameInfo, dsp: Dsp, pic: array3<int>, bak: array4<int>, line: array4<int>, tf: nat,
                    y: nat, sbx: nat, m: Av1Filter, yLvl: nat, uvLvl: nat, s0: RowState,
                    ghost first: nat, ghost lf: seq<Av1Filter>, ghost o: Image, ghost pre: Image) returns (s: RowState)
    requires ValidArrays(f, pic, line) && ValidMasks(f, lf) && ValidBackup(bak) && tf < 2
    requires first <= y < f.Rows() && 16 * sbx < f.bw
    requires |m.noskip| == 16
    requires forall x | 8 * sbx <= x < Min(8 * (sbx + 1), f.Cols()) ::
               Levels(f, lf, y, x) == if Coded(m, 2 * x, 2 * y) then (yLvl, uvLvl) else (0, 0)
    requires f.layout == I400 ==> uvLvl == 0
    requires Progress(f, dsp, lf, o, pre, first, y, 8 * sbx, pic)
    requires RowInv(f, lf, o, bak, s0, y, 8 * sbx)
    requires LinesSaved(f, o, line, tf, y)
    modifies pic, bak
    ensures Progress(f, dsp, lf, o, pre, first, y, Min(8 * (sbx + 1), f.Cols()), pic)
    ensures RowInv(f, lf, o, bak, s, y, Min(8 * (sbx + 1), f.Cols()))
  {
    s := s0;
    for x := 8 * sbx to Min(8 * (sbx + 1), f.Cols())
      invariant Progress(f, dsp, lf, o, pre, first, y, x, pic)
      invariant RowInv(f, lf, o, bak, s, y, x)
    {
      s := FilterPosition(f, dsp, pic, bak, line, tf, y, x, Coded(m, 2 * x, 2 * y), yLvl, uvLvl, s,
                          first, lf, o, pre);
    }
  }

  /** A unit with no strength entry, or an entry without strengths, is passed over whole. */
  lemma SkipUnit(f: FrameInfo, dsp: Dsp, lf: seq<Av1Filter>, o: Image, pre: Image, first: nat,
                 y: nat, x0: nat, x1: nat, pic: array3<int>)
    requires f.Valid() && ValidMasks(f, lf)
    requires pic.Length0 == 3 && pic.Length1 == 4 * f.bh && pic.Length2 == 4 * f.bw
    requires first <= y < f.Rows() && x0 <= x1 <= f.Cols()
    requires forall x | x0 <= x < x1 :: Levels(f, lf, y, x) == (0, 0)
    requires Progress(f, dsp, lf, o, pre, first, y, x0, pic)
    ensures Progress(f, dsp, lf, o, pre, first, y, x1, pic)
    decreases x1 - x0
  {
    if x0 < x1 {
      SkipBlock(f, dsp, lf, o, pre, first, y, x0, pic);
      SkipUnit(f, dsp, lf, o, pre, first, y, x0 + 1, x1, pic);
    }
  }

  /** All the blocks of a 64x64 unit share its strength entry. */
  lemma UnitLevels(f: FrameInfo, lf: seq<Av1Filter>, y: nat, sbx: nat, x: nat)
    requires f.Valid() && ValidMasks(f, lf) && 8 * sbx <= x < Min(8 * (sbx + 1), f.Cols())
    ensures sbx / 2 < |lf| && x / 16 == sbx / 2
    ensures CdefIdx(f, lf, y, x) == lf[sbx / 2].cdefIdx[UnitOf(16 * sbx, 2 * y)]
  {
  }

  /** Passing over a unit whose levels are all zero. */
  lemma SkippedUnitKeepsRow(f: FrameInfo, lf: seq<Av1Filter>, o: Image, bak: array4<int>, s: RowState, y: nat,
                            x0: nat, x1: nat)
    requires f.Valid() && ValidMasks(f, lf) && ValidBackup(bak) && y < f.Rows() && x0 <= x1 <= f.Cols()
    requires x0 < f.Cols() ==> x0 < x1
    requires forall x | x0 <= x < x1 :: Levels(f, lf, y, x) == (0, 0)
    requires RowInv(f, lf, o, bak, s, y, x0)
    ensures RowInv(f, lf, o, bak, s.(lastSkip := true, e := s.e.(left := true)), y, x1)
  {
  }

  /** One 64x64 unit of the row. */
  method FilterSb64(f: FrameInfo, dsp: Dsp, lf: seq<Av1Filter>, pic: array3<int>, bak: array4<int>, line: array4<int>,
                    tf: nat, y: nat, sbx: nat, s0: RowState, ghost first: nat, ghost o: Image, ghost pre: Image)
    returns (s: RowState)
    requires ValidArrays(f, pic, line) && ValidMasks(f, lf) && ValidBackup(bak) && tf < 2
    requires first <= y < f.Rows() && sbx < 2 * f.sb128w
    requires Progress(f, dsp, lf, o, pre, first, y, Min(8 * sbx, f.Cols()), pic)
    requires RowInv(f, lf, o, bak, s0, y, Min(8 * sbx, f.Cols()))
    requires LinesSaved(f, o, line, tf, y)
    modifies pic, bak
    ensures Progress(f, dsp, lf, o, pre, first, y, Min(8 * (sbx + 1), f.Cols()), pic)
    ensures RowInv(f, lf, o, bak, s, y, Min(8 * (sbx + 1), f.Cols()))
  {
    s := s0;
    var m := lf[sbx / 2];
    var idx := m.cdefIdx[UnitOf(16 * sbx, 2 * y)];
    ghost var x0, x1 := Min(8 * sbx, f.Cols()), Min(8 * (sbx + 1), f.Cols());
    forall x | x0 <= x < x1 ensures x / 16 == sbx / 2 && CdefIdx(f, lf, y, x) == idx {
      UnitLevels(f, lf, y, sbx, x);
    }
    if idx == -1 || (f.yStrength[idx] == 0 && f.uvStrength[idx] == 0) {
      assert forall x | x0 <= x < x1 :: Levels(f, lf, y, x) == (0, 0);
      hide Levels, RowInv, Progress, LinesSaved;
      s := s.(lastSkip := true);
      SkipUnit(f, dsp, lf, o, pre, first, y, x0, x1, pic);
      SkippedUnitKeepsRow(f, lf, o, bak, s0, y, x0, x1);
    } else if 16 * sbx < f.bw {
      s := FilterUnit(f, dsp, pic, bak, line, tf, y, sbx, m, f.yStrength[idx], f.uvStrength[idx], s,
                      first, lf, o, pre);
    }
    s := s.(e := s.e.(left := true));
  }

  /** One row of 8x8 blocks. */
  method FilterRow(f: FrameInfo, dsp: Dsp, lf: seq<Av1Filter>, pic: array3<int>, bak: array4<int>, line: array4<int>,
                   tf: nat, y: nat, s0: RowState, ghost first: nat, ghost o: Image, ghost pre: Image)
    returns (s: RowState)
    requires ValidArrays(f, pic, line) && ValidMasks(f, lf) && ValidBackup(bak) && tf < 2
    requires first <= y < f.Rows() && s0.bit < 2
    requires s0.e.top == (y > 0) && s0.e.bottom == (y + 1 < f.Rows())
    requires Progress(f, dsp, lf, o, pre, first, y, 0, pic)
    requires LinesSaved(f, o, line, tf, y)
    modifies pic, bak
    ensures Progress(f, dsp, lf, o, pre, first, y + 1, 0, pic)
    ensures s.bit < 2 && s.e.top == s0.e.top && s.e.bottom == s0.e.bottom
  {
    s := RowState(s0.bit, true, Flags(false, false), s0.e.(left := false, right := true));
    for sbx := 0 to f.sb128w * 2
      invariant Progress(f, dsp, lf, o, pre, first, y, Min(8 * sbx, f.Cols()), pic)
      invariant RowInv(f, lf, o, bak, s, y, Min(8 * sbx, f.Cols()))
    {
      s := FilterSb64(f, dsp, lf, pic, bak, line, tf, y, sbx, s, first, o, pre);
    }
    RowDone(f, dsp, lf, o, pre, first, y, pic);
  }

  // ----- The pass over a range of rows -----

  /** Saves the last two rows of block row `y`, still unfiltered, in the line backup not in use. */
  method SaveLines(f: FrameInfo, ghost dsp: Dsp, ghost lf: seq<Av1Filter>, pic: array3<int>, line: array4<int>, tf: nat,
                   y: nat, ghost first: nat, ghost o: Image, ghost pre: Image)
    requires ValidArrays(f, pic, line) && ValidMasks(f, lf) && tf < 2 && first <= y && y + 1 < f.Rows()
    requires Progress(f, dsp, lf, o, pre, first, y, 0, pic)
    requires LinesSaved(f, o, line, tf, y)
    modifies line
    ensures LinesSaved(f, o, line, 1 - tf, y + 1) && LinesSaved(f, o, line, tf, y)
  {
    Backup2Lines(f, line, 1 - tf, pic, 8 * y, f.TopRow(1, y));
  }

  ghost function Pixels(pic: array3<int>): (s: seq<seq<seq<int>>>)
    reads pic
  {
    seq(pic.Length0, p requires 0 <= p < pic.Length0 reads pic =>
      seq(pic.Length1, r requires 0 <= r < pic.Length1 reads pic =>
        seq(pic.Length2, c requires 0 <= c < pic.Length2 reads pic => pic[p, r, c])))
  }

  ghost function ImageOf(s: seq<seq<seq<int>>>): Image {
    (p, r, c) => if 0 <= p < |s| && 0 <= r < |s[p]| && 0 <= c < |s[p][r]| then s[p][r][c] else 0
  }

  /** The picture agrees with `o` from block row `y` down. */
  ghost predicate FrozenFrom(f: FrameInfo, o: Image, pic: array3<int>, y: nat)
    requires f.Valid() && pic.Length0 == 3 && pic.Length1 == 4 * f.bh && pic.Length2 == 4 * f.bw
    reads pic
  {
    forall pl, r, c | f.InPlane(pl, r, c) && f.TopRow(pl, y) <= r :: pic[pl, r, c] == o(pl, r, c)
  }

  /** Before a pass starts, the picture is its own record and, from the first row on, the frozen one. */
  lemma StartPass(f: FrameInfo, dsp: Dsp, lf: seq<Av1Filter>, o: Image, first: nat, pic: array3<int>)
    requires f.Valid() && ValidMasks(f, lf)
    requires pic.Length0 == 3 && pic.Length1 == 4 * f.bh && pic.Length2 == 4 * f.bw
    requires FrozenFrom(f, o, pic, first)
    ensures var pre := ImageOf(Pixels(pic));
            && (forall pl, r, c | f.InPlane(pl, r, c) :: pre(pl, r, c) == pic[pl, r, c])
            && (forall pl, r, c | f.InPlane(pl, r, c) && f.TopRow(pl, first) <= r :: pre(pl, r, c) == o(pl, r, c))
            && Progress(f, dsp, lf, o, pre, first, first, 0, pic)
  {
    hide FilteredPixel;
  }

  /** After the last row, the rows of the range are filtered and all others are as they were. */
  lemma EndPass(f: FrameInfo, dsp: Dsp, lf: seq<Av1Filter>, o: Image, pre: Image, first: nat,
                last: nat, pic: array3<int>)
    requires f.Valid() && ValidMasks(f, lf) && first <= last
    requires pic.Length0 == 3 && pic.Length1 == 4 * f.bh && pic.Length2 == 4 * f.bw
    requires Progress(f, dsp, lf, o, pre, first, last, 0, pic)
    requires forall pl, r, c | f.InPlane(pl, r, c) && f.TopRow(pl, first) <= r :: pre(pl, r, c) == o(pl, r, c)
    ensures forall pl, r, c | f.InPlane(pl, r, c) ::
              pic[pl, r, c] == if f.TopRow(pl, first) <= r < f.TopRow(pl, last)
                               then FilteredPixel(f, dsp, lf, o, pl, r, c) else pre(pl, r, c)
  {
    hide FilteredPixel;
  }

  /** One call of the pass: the masks of its superblock row and its range of block rows. */
  datatype Call = Call(lf: seq<Av1Filter>, first: nat, last: nat)

  /** The state that persists between calls: the picture, the line backups, and which of the two
      line backups holds the rows above the next row of blocks. */
  class CdefContext {
    const f: FrameInfo
    const dsp: Dsp
    const pic: array3<int>
    const line: array4<int>
    var topPreCdefToggle: nat

    ghost predicate Valid()
      reads this
    {
      ValidArrays(f, pic, line) && topPreCdefToggle < 2
    }

    constructor (f: FrameInfo, dsp: Dsp, pic: array3<int>, line: array4<int>)
      requires ValidArrays(f, pic, line)
      ensures Valid() && this.f == f && this.dsp == dsp && this.pic == pic && this.line == line
      ensures topPreCdefToggle == 0
    {
      this.f, this.dsp, this.pic, this.line, this.topPreCdefToggle := f, dsp, pic, line, 0;
    }

    /** One row of the pass: save the last two rows for the next row of blocks, filter, and switch
        the line backups. */
    method Row(lf: seq<Av1Filter>, y: nat, bak: array4<int>, s0: RowState,
               ghost first: nat, ghost o: Image, ghost pre: Image) returns (s: RowState)
      requires Valid() && ValidMasks(f, lf) && ValidBackup(bak)
      requires first <= y < f.Rows() && s0.bit < 2 && s0.e.top == (y > 0) && s0.e.bottom
      requires Progress(f, dsp, lf, o, pre, first, y, 0, pic)
      requires LinesSaved(f, o, line, topPreCdefToggle, y)
      modifies this, pic, line, bak
      ensures Valid()
      ensures Progress(f, dsp, lf, o, pre, first, y + 1, 0, pic)
      ensures LinesSaved(f, o, line, topPreCdefToggle, y + 1)
      ensures s.bit < 2 && s.e.top && (y + 1 < f.Rows() ==> s.e.bottom)
    {
      var tf := topPreCdefToggle;
      s := s0;
      if 2 * y + 2 >= f.bh {
        s := s.(e := s.e.(bottom := false));
      }
      if s.e.bottom {
        SaveLines(f, dsp, lf, pic, line, tf, y, first, o, pre);
      }
      hide LinesSaved, Progress;
      s := FilterRow(f, dsp, lf, pic, bak, line, tf, y, s, first, o, pre);
      topPreCdefToggle := 1 - topPreCdefToggle;
      s := s.(e := s.e.(top := true));
    }

    /** CDEF of the block rows from `first` to `last`: every pixel of the range becomes what filtering
        the unchanging picture `o` gives, every other pixel is left alone, and the line backup is
        ready for a call that starts at `last`. */
    method Brow(lf: seq<Av1Filter>, first: nat, last: nat, ghost o: Image)
      requires Valid() && ValidMasks(f, lf) && first <= last <= f.Rows()
      requires FrozenFrom(f, o, pic, first)
      requires LinesSaved(f, o, line, topPreCdefToggle, first)
      modifies this, pic, line
      ensures Valid()
      ensures forall pl, r, c | f.InPlane(pl, r, c) ::
                pic[pl, r, c] == if f.TopRow(pl, first) <= r < f.TopRow(pl, last)
                                 then FilteredPixel(f, dsp, lf, o, pl, r, c) else old(pic[pl, r, c])
      ensures LinesSaved(f, o, line, topPreCdefToggle, last)
    {
      hide LinesSaved, Progress, FrozenFrom, Pixels, ImageOf, FilteredPixel, ValidMasks;
      ghost var pre := ImageOf(Pixels(pic));
      StartPass(f, dsp, lf, o, first, pic);
      var bak := new int[2, 3, 8, 2]((_, _, _, _) => 0);
      var s := RowState(0, true, Flags(false, false), Edges(false, true, first > 0, true));
      for y := first to last
        invariant Valid()
        invariant Progress(f, dsp, lf, o, pre, first, y, 0, pic)
        invariant LinesSaved(f, o, line, topPreCdefToggle, y)
        invariant s.bit < 2 && s.e.top == (y > 0) && (y < f.Rows() ==> s.e.bottom)
      {
        s := Row(lf, y, bak, s, first, o, pre);
      }
      EndPass(f, dsp, lf, o, pre, first, last, pic);
    }

    ghost predicate ValidCall(call: Call) {
      ValidMasks(f, call.lf) && call.first <= call.last <= f.Rows()
    }

    ghost predicate RangeDone(call: Call, o: Image)
      requires Valid() && ValidCall(call)
      reads this, pic
    {
      forall pl, r, c | f.InPlane(pl, r, c) && f.TopRow(pl, call.first) <= r < f.TopRow(pl, call.last) ::
        pic[pl, r, c] == FilteredPixel(f, dsp, call.lf, o, pl, r, c)
    }

    /** A call leaves the ranges of earlier calls alone. */
    method BrowKeeping(call: Call, ghost done: seq<Call>, ghost o: Image)
      requires Valid() && ValidCall(call)
      requires FrozenFrom(f, o, pic, call.first)
      requires LinesSaved(f, o, line, topPreCdefToggle, call.first)
      requires forall i | 0 <= i < |done| ::
                 ValidCall(done[i]) && done[i].last <= call.first && RangeDone(done[i], o)
      modifies this, pic, line
      ensures Valid()
      ensures FrozenFrom(f, o, pic, call.last)
      ensures LinesSaved(f, o, line, topPreCdefToggle, call.last)
      ensures RangeDone(call, o)
      ensures forall i | 0 <= i < |done| :: RangeDone(done[i], o)
    {
      Brow(call.lf, call.first, call.last, o);
      hide LinesSaved, FilteredPixel, ValidMasks;
      forall i | 0 <= i < |done| ensures RangeDone(done[i], o) {
        assert old(RangeDone(done[i], o));
      }
    }

    /** Any sequence of calls over adjoining ranges that starts at the top of the frame, each call with
        its own masks, filters every range from the picture as it was before the first call. */
    method Brows(calls: seq<Call>)
      requires Valid() && forall i | 0 <= i < |calls| :: ValidCall(calls[i])
      requires |calls| > 0 ==> calls[0].first == 0
      requires forall i, j | 0 <= i < j == i + 1 < |calls| :: calls[j].first == calls[i].last
      modifies this, pic, line
      ensures Valid()
      ensures forall i | 0 <= i < |calls| :: RangeDone(calls[i], ImageOf(old(Pixels(pic))))
    {
      ghost var o := ImageOf(Pixels(pic));
      ghost var start := if |calls| == 0 then 0 else calls[0].first;
      assert start == 0;
      assert LinesSaved(f, o, line, topPreCdefToggle, start);
      assert FrozenFrom(f, o, pic, start);
      hide LinesSaved, FrozenFrom, RangeDone, ValidArrays, ValidMasks;
      for n := 0 to |calls|
        invariant Valid()
        invariant n < |calls| ==> FrozenFrom(f, o, pic, calls[n].first)
        invariant n < |calls| ==> LinesSaved(f, o, line, topPreCdefToggle, calls[n].first)
        invariant forall i | 0 <= i < n :: RangeDone(calls[i], o)
      {
        forall i | 0 <= i < n ensures calls[i].last <= calls[n].first {
          Ascending(calls, i, n);
        }
        BrowKeeping(calls[n], calls[..n], o);
        assert forall i | 0 <= i < n :: RangeDone(calls[..n][i], o);
      }
    }
  }

  lemma Ascending(calls: seq<Call>, i: nat, n: nat)
    requires i < n < |calls|
    requires forall k | 0 <= k < |calls| :: calls[k].first <= calls[k].last
    requires forall k, j | 0 <= k < j == k + 1 < |calls| :: calls[j].first == calls[k].last
    ensures calls[i].last <= calls[n].first
  {
    if i < n - 1 {
      Ascending(calls, i, n - 1);
    }
  }
}
