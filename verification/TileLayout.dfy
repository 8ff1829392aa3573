/** Where the tiles of a frame keep what the first pass of a two-pass decode hands to the second: every
    tile has its own stretch of the coefficient, block-info and palette-index buffers, in proportion to
    its area, and a run of rows for the lowest pixels it refers to. */
module TileLayout {
  import opened IntOps
  import opened Picture

  /** Tile boundaries are in superblocks; the frame size is in areas of 128x128 pixels. */
  datatype Tiling = Tiling(rowStart: seq<nat>, colStart: seq<nat>, sb128: bool, sb128w: nat, sb128h: nat) {
    /** The side of a superblock in pixels. */
    function Side(): nat { if sb128 then 128 else 64 }

    function Rows(): nat
      requires |rowStart| > 0
    {
      |rowStart| - 1
    }

    function Cols(): nat
      requires |colStart| > 0
    {
      |colStart| - 1
    }

    /** The boundaries start at 0 and rise to the edge of the frame, which is at most 65536 on a side. */
    ghost predicate Valid() {
      && Rises(rowStart) && Rises(colStart) && sb128w <= 512 && sb128h <= 512
      && rowStart[|rowStart| - 1] * Side() <= 128 * sb128h
      && colStart[|colStart| - 1] * Side() <= 128 * sb128w
    }

    ghost predicate HasTile(r: nat, c: nat) { r + 1 < |rowStart| && c + 1 < |colStart| }

    /** Height and width of a tile in pixels. */
    function TileH(r: nat): nat
      requires r + 1 < |rowStart| && rowStart[r] <= rowStart[r + 1]
    {
      (rowStart[r + 1] - rowStart[r]) * Side()
    }

    function TileW(c: nat): nat
      requires c + 1 < |colStart| && colStart[c] <= colStart[c + 1]
    {
      (colStart[c + 1] - colStart[c]) * Side()
    }
  }

  ghost predicate Rises(s: seq<nat>) {
    |s| >= 2 && s[0] == 0 && forall i, j | 0 <= i < j < |s| :: s[i] < s[j]
  }

  // ----- Areas -----

  /** The area, in pixels, before a tile: all rows of tiles above, and the tiles to its left. */
  function StartOff(t: Tiling, r: nat, c: nat): nat
    requires r + 1 < |t.rowStart| && c < |t.colStart| && t.rowStart[r] <= t.rowStart[r + 1]
  {
    t.rowStart[r] * t.Side() * (128 * t.sb128w) + t.TileH(r) * (t.colStart[c] * t.Side())
  }

  ghost function Area(t: Tiling, r: nat, c: nat): nat
    requires t.Valid() && t.HasTile(r, c)
  {
    t.TileH(r) * t.TileW(c)
  }

  ghost function FrameArea(t: Tiling): nat { 128 * t.sb128h * (128 * t.sb128w) }

  /** A tile ends where its right neighbour starts. */
  lemma NextInRow(t: Tiling, r: nat, c: nat)
    requires t.Valid() && t.HasTile(r, c)
    ensures StartOff(t, r, c) + Area(t, r, c) == StartOff(t, r, c + 1)
  {
    var h, a, b, s := t.TileH(r), t.colStart[c], t.colStart[c + 1], t.Side();
    Widths(h, a, b, s);
  }

  /** A row of tiles starts after everything above it, in the full width of the frame. */
  lemma RowStarts(t: Tiling, r: nat)
    requires t.Valid() && r + 1 < |t.rowStart|
    ensures StartOff(t, r, 0) == t.rowStart[r] * t.Side() * (128 * t.sb128w)
    ensures StartOff(t, 0, 0) == 0 && t.Side() == if t.sb128 then 128 else 64
  {
  }

  lemma Widths(h: nat, a: nat, b: nat, s: nat)
    requires a <= b
    ensures h * (a * s) + h * ((b - a) * s) == h * (b * s)
  {
    assert (b - a) * s == b * s - a * s;
    assert h * (b * s - a * s) == h * (b * s) - h * (a * s);
  }

  /** Positions in a row rise with the column, and stay before the next row. */
  lemma WithinRow(t: Tiling, r: nat, c: nat, d: nat)
    requires t.Valid() && r + 1 < |t.rowStart| && c <= d < |t.colStart|
    ensures StartOff(t, r, c) <= StartOff(t, r, d)
    ensures StartOff(t, r, d) <= t.rowStart[r + 1] * t.Side() * (128 * t.sb128w)
  {
    var h, s, w := t.TileH(r), t.Side(), 128 * t.sb128w;
    Multiples(t.colStart[c], t.colStart[d], s);
    Multiples(t.colStart[d], t.colStart[|t.colStart| - 1], s);
    Scaled(h, t.colStart[c] * s, t.colStart[d] * s);
    Scaled(h, t.colStart[d] * s, w);
    RowsAdd(t.rowStart[r], t.rowStart[r + 1], s, w);
  }

  lemma Scaled(h: nat, a: nat, b: nat)
    requires a <= b
    ensures h * a <= h * b
  {
  }

  lemma RowsAdd(a: nat, b: nat, s: nat, w: nat)
    requires a <= b
    ensures a * s * w + (b - a) * s * w == b * s * w
  {
    assert a * s + (b - a) * s == b * s;
    assert (a * s + (b - a) * s) * w == a * s * w + (b - a) * s * w;
  }

  lemma RowsBelow(t: Tiling, r: nat, r': nat)
    requires t.Valid() && r <= r' < |t.rowStart|
    ensures t.rowStart[r] * t.Side() * (128 * t.sb128w) <= t.rowStart[r'] * t.Side() * (128 * t.sb128w) <= FrameArea(t)
  {
    Multiples(t.rowStart[r], t.rowStart[r'], t.Side());
    Multiples(t.rowStart[r'], t.rowStart[|t.rowStart| - 1], t.Side());
    Multiples(t.rowStart[r] * t.Side(), t.rowStart[r'] * t.Side(), 128 * t.sb128w);
    Multiples(t.rowStart[r'] * t.Side(), 128 * t.sb128h, 128 * t.sb128w);
  }

  ghost predicate Before(r: nat, c: nat, r': nat, c': nat) { r < r' || (r == r' && c < c') }

  /** The stretches of different tiles do not overlap, and all lie within the frame's area. */
  lemma StretchesDisjoint(t: Tiling, r: nat, c: nat, r': nat, c': nat)
    requires t.Valid() && t.HasTile(r, c) && t.HasTile(r', c') && Before(r, c, r', c')
    ensures StartOff(t, r, c) + Area(t, r, c) <= StartOff(t, r', c')
  {
    NextInRow(t, r, c);
    if r == r' {
      WithinRow(t, r, c + 1, c');
    } else {
      WithinRow(t, r, c + 1, c + 1);
      RowsBelow(t, r + 1, r');
    }
  }

  lemma StretchInside(t: Tiling, r: nat, c: nat)
    requires t.Valid() && t.HasTile(r, c)
    ensures 0 < Area(t, r, c) && StartOff(t, r, c) + Area(t, r, c) <= FrameArea(t) <= 0x1_0000_0000
  {
    NextInRow(t, r, c);
    WithinRow(t, r, c + 1, c + 1);
    RowsBelow(t, r + 1, r + 1);
    Multiples(128 * t.sb128h, 65536, 128 * t.sb128w);
    Positive(t.rowStart[r + 1] - t.rowStart[r], t.Side());
    Positive(t.colStart[c + 1] - t.colStart[c], t.Side());
    Positive(t.TileH(r), t.TileW(c));
  }

  lemma Positive(a: nat, b: nat)
    requires a > 0 && b > 0
    ensures a * b > 0
  {
  }

  // ----- The buffers -----

  /** What the buffers hold of all planes, and of luma and one chroma plane, in quarters of luma. */
  function SizeMul(layout: Layout): (nat, nat) {
    match layout
    case I400 => (4, 4)
    case I420 => (6, 5)
    case I422 => (8, 6)
    case I444 => (12, 8)
  }

  /** The samples of an area of 128x128 luma pixels, of all planes, and of luma with one chroma plane, for which
      palette indices are kept. */
  function SamplesOfArea(layout: Layout): nat {
    256 * (PlaneSamples(layout, 0) + PlaneSamples(layout, 1) + PlaneSamples(layout, 2))
  }

  function IndexedOfArea(layout: Layout): nat { 256 * (PlaneSamples(layout, 0) + PlaneSamples(layout, 1)) }

  /** The buffers hold, for every area, a coefficient of two or four bytes for each sample, one entry of block
      information for each 16 samples, and one byte for each two palette indices. */
  lemma AllocatedForSamples(layout: Layout, hbd: bool, num: nat)
    ensures Allocated(Coefficients, layout, hbd, num) == num * (SamplesOfArea(layout) * if hbd then 4 else 2)
    ensures Allocated(BlockInfo, layout, hbd, num) == num * (SamplesOfArea(layout) / 16)
    ensures Allocated(PaletteIndices, layout, hbd, num) == num * (IndexedOfArea(layout) / 2)
  {
    CoefficientsForSamples(layout, hbd, num);
    InfoForSamples(layout, hbd, num);
    IndicesForSamples(layout, hbd, num);
    hide *;
  }

  lemma CoefficientsForSamples(layout: Layout, hbd: bool, num: nat)
    ensures Allocated(Coefficients, layout, hbd, num) == num * (SamplesOfArea(layout) * if hbd then 4 else 2)
  {
    assert SizeMul(layout).0 * 128 * 128 == 4 * SamplesOfArea(layout);
    var m, d := SizeMul(layout).0, if hbd then 2 else 1;
    assert num * m * d * 128 * 128 == 2 * (num * (SamplesOfArea(layout) * (2 * d))) by {
      Regroup(num, m, d, SamplesOfArea(layout));
    }
  }

  lemma Regroup(num: nat, m: nat, d: nat, s: nat)
    requires m * 128 * 128 == 4 * s
    ensures num * m * d * 128 * 128 == 2 * (num * (s * (2 * d)))
  {
    assert num * m * d * 128 * 128 == num * d * (m * 128 * 128);
    assert num * d * (4 * s) == 2 * (num * (s * (2 * d)));
  }

  lemma InfoForSamples(layout: Layout, hbd: bool, num: nat)
    ensures Allocated(BlockInfo, layout, hbd, num) == num * (SamplesOfArea(layout) / 16)
  {
    match layout
    case I400 =>
    case I420 =>
    case I422 =>
    case I444 =>
  }

  lemma IndicesForSamples(layout: Layout, hbd: bool, num: nat)
    ensures Allocated(PaletteIndices, layout, hbd, num) == num * (IndexedOfArea(layout) / 2)
  {
    match layout
    case I400 =>
    case I420 =>
    case I422 =>
    case I444 =>
  }

  datatype Buffer = Coefficients | BlockInfo | PaletteIndices

  /** A buffer holds `Mul` / `Div` bytes (block info: entries) per pixel of area: a coefficient of two or
      four bytes for every sample, an entry for every 16 samples, half a byte for every palette index. */
  function Mul(b: Buffer, layout: Layout): nat { if b == PaletteIndices then SizeMul(layout).1 else SizeMul(layout).0 }

  function Div(b: Buffer, hbd: bool): (d: nat)
    ensures d == 1 || d == 2 || d == 8 || d == 64
  {
    match b
    case Coefficients => if hbd then 1 else 2
    case BlockInfo => 64
    case PaletteIndices => 8
  }

  /** Where the stretch of a tile starts in a buffer. */
  function BufferOff(b: Buffer, layout: Layout, hbd: bool, off: nat): nat { off * Mul(b, layout) / Div(b, hbd) }

  /** The allocated size of each buffer, for `num` areas of 128x128. */
  function Allocated(b: Buffer, layout: Layout, hbd: bool, num: nat): nat {
    match b
    case Coefficients => num * SizeMul(layout).0 * (if hbd then 2 else 1) * 128 * 128 / 2
    case BlockInfo => num * SizeMul(layout).0 * 32 * 32 / 4
    case PaletteIndices => num * SizeMul(layout).1 * 128 * 128 / 8
  }

  /** Areas are multiples of 64, so that no division rounds. */
  lemma Exact(q: nat, m: nat, d: nat)
    requires d == 1 || d == 2 || d == 8 || d == 64
    ensures 64 * q * m / d == q * (64 / d * m)
  {
    assert 64 * q * m == 64 * (q * m);
    assert q * (64 / d * m) == 64 / d * (q * m);
  }

  lemma StartOffIsMultiple(t: Tiling, r: nat, c: nat)
    requires r + 1 < |t.rowStart| && c < |t.colStart| && t.rowStart[r] <= t.rowStart[r + 1]
    ensures StartOff(t, r, c) % 64 == 0
  {
    var k := t.Side() / 64;
    SideOut(t.rowStart[r], k, 128 * t.sb128w);
    SideOut2(t.TileH(r), t.colStart[c], k);
    assert StartOff(t, r, c) == 64 * (t.rowStart[r] * k * (128 * t.sb128w) + t.TileH(r) * (t.colStart[c] * k));
  }

  lemma SideOut(a: nat, k: nat, w: nat)
    ensures a * (64 * k) * w == 64 * (a * k * w)
  {
    assert a * (64 * k) == 64 * (a * k);
  }

  lemma SideOut2(h: nat, a: nat, k: nat)
    ensures h * (a * (64 * k)) == 64 * (h * (a * k))
  {
    assert a * (64 * k) == 64 * (a * k);
    assert h * (64 * (a * k)) == 64 * (h * (a * k));
  }

  /** The allocation is the share of the whole frame. */
  lemma AllocatedIsFrameShare(b: Buffer, layout: Layout, hbd: bool, t: Tiling)
    ensures Allocated(b, layout, hbd, t.sb128w * t.sb128h) == BufferOff(b, layout, hbd, FrameArea(t))
  {
    var num := t.sb128w * t.sb128h;
    assert FrameArea(t) == 64 * (256 * num) by { Factor(t.sb128w, t.sb128h); }
    hide FrameArea;
    Exact(256 * num, Mul(b, layout), Div(b, hbd));
    match b
    case Coefficients => CoefficientsShare(layout, hbd, num);
    case BlockInfo => BlockInfoShare(layout, hbd, num);
    case PaletteIndices => PaletteShare(layout, hbd, num);
  }

  lemma CoefficientsShare(layout: Layout, hbd: bool, num: nat)
    ensures Allocated(Coefficients, layout, hbd, num)
         == 256 * num * (64 / Div(Coefficients, hbd) * Mul(Coefficients, layout))
  {
    Times(num, Mul(Coefficients, layout), if hbd then 16384 else 8192);
  }

  lemma BlockInfoShare(layout: Layout, hbd: bool, num: nat)
    ensures Allocated(BlockInfo, layout, hbd, num) == 256 * num * (64 / Div(BlockInfo, hbd) * Mul(BlockInfo, layout))
  {
    Times(num, Mul(BlockInfo, layout), 256);
  }

  lemma PaletteShare(layout: Layout, hbd: bool, num: nat)
    ensures Allocated(PaletteIndices, layout, hbd, num)
         == 256 * num * (64 / Div(PaletteIndices, hbd) * Mul(PaletteIndices, layout))
  {
    Times(num, Mul(PaletteIndices, layout), 2048);
  }

  lemma Factor(w: nat, h: nat)
    ensures 128 * h * (128 * w) == 64 * (256 * (w * h))
  {
    assert h * (128 * w) == 128 * (w * h);
  }

  lemma Times(num: nat, m: nat, k: nat)
    ensures 256 * num * (k / 256 * m) == k / 256 * 256 * (num * m)
  {
    assert num * (k / 256 * m) == k / 256 * (num * m);
    assert 256 * num * (k / 256 * m) == 256 * (num * (k / 256 * m));
  }

  lemma ShareOf(b: Buffer, layout: Layout, hbd: bool, x: nat)
    requires x % 64 == 0
    ensures BufferOff(b, layout, hbd, x) == x / 64 * (64 / Div(b, hbd) * Mul(b, layout))
  {
    Exact(x / 64, Mul(b, layout), Div(b, hbd));
  }

  lemma SharesAdd(b: Buffer, layout: Layout, hbd: bool, x: nat, y: nat, z: nat)
    requires x % 64 == 0 && y % 64 == 0 && z % 64 == 0 && x + y <= z
    ensures BufferOff(b, layout, hbd, x) + BufferOff(b, layout, hbd, y) <= BufferOff(b, layout, hbd, z)
  {
    ShareOf(b, layout, hbd, x);
    ShareOf(b, layout, hbd, y);
    ShareOf(b, layout, hbd, z);
    SumBelow(x / 64, y / 64, z / 64, 64 / Div(b, hbd) * Mul(b, layout));
    hide BufferOff, Mul, Div;
  }

  lemma SumBelow(p: nat, q: nat, o: nat, k: nat)
    requires p + q <= o
    ensures p * k + q * k <= o * k
  {
    Multiples(p + q, o, k);
    assert (p + q) * k == p * k + q * k;
  }

  /** The stretch of a tile in a buffer. */
  ghost function ArenaStart(t: Tiling, b: Buffer, layout: Layout, hbd: bool, r: nat, c: nat): nat
    requires t.Valid() && t.HasTile(r, c)
  {
    BufferOff(b, layout, hbd, StartOff(t, r, c))
  }

  ghost function ArenaSize(t: Tiling, b: Buffer, layout: Layout, hbd: bool, r: nat, c: nat): nat
    requires t.Valid() && t.HasTile(r, c)
  {
    BufferOff(b, layout, hbd, Area(t, r, c))
  }

  ghost function AllocatedFor(t: Tiling, b: Buffer, layout: Layout, hbd: bool): nat {
    Allocated(b, layout, hbd, t.sb128w * t.sb128h)
  }

  /** In every buffer, the stretches of different tiles do not overlap ... */
  lemma ArenasDisjoint(t: Tiling, b: Buffer, layout: Layout, hbd: bool, r: nat, c: nat, r': nat, c': nat)
    requires t.Valid() && t.HasTile(r, c) && t.HasTile(r', c') && Before(r, c, r', c')
    ensures ArenaStart(t, b, layout, hbd, r, c) + ArenaSize(t, b, layout, hbd, r, c)
         <= ArenaStart(t, b, layout, hbd, r', c')
  {
    hide StartOff, Area, BufferOff;
    StretchesDisjoint(t, r, c, r', c');
    AreaIsMultiple(t, r, c);
    AreaIsMultiple(t, r', c');
    SharesAdd(b, layout, hbd, StartOff(t, r, c), Area(t, r, c), StartOff(t, r', c'));
  }

  lemma AreaIsMultiple(t: Tiling, r: nat, c: nat)
    requires t.Valid() && t.HasTile(r, c)
    ensures StartOff(t, r, c) % 64 == 0 && Area(t, r, c) % 64 == 0
  {
    hide StartOff, Area;
    NextInRow(t, r, c);
    StartOffIsMultiple(t, r, c);
    StartOffIsMultiple(t, r, c + 1);
    OtherSummand(StartOff(t, r, c), Area(t, r, c));
  }

  lemma OtherSummand(a: nat, b: nat)
    requires a % 64 == 0 && (a + b) % 64 == 0
    ensures b % 64 == 0
  {
  }

  lemma FrameAreaIsMultiple(t: Tiling)
    ensures FrameArea(t) % 64 == 0
  {
    Factor(t.sb128w, t.sb128h);
  }

  /** ... and lie inside the allocation. */
  lemma ArenaInside(t: Tiling, b: Buffer, layout: Layout, hbd: bool, r: nat, c: nat)
    requires t.Valid() && t.HasTile(r, c)
    ensures ArenaStart(t, b, layout, hbd, r, c) + ArenaSize(t, b, layout, hbd, r, c) <= AllocatedFor(t, b, layout, hbd)
  {
    hide StartOff, Area, BufferOff, Allocated, FrameArea;
    StretchInside(t, r, c);
    AreaIsMultiple(t, r, c);
    FrameAreaIsMultiple(t);
    SharesAdd(b, layout, hbd, StartOff(t, r, c), Area(t, r, c), FrameArea(t));
    AllocatedIsFrameShare(b, layout, hbd, t);
  }

  // ----- Setting up -----

  /** The start of tile number `k` in raster order. */
  ghost function StartAt(t: Tiling, k: nat): int
    requires t.Valid() && k < t.Rows() * t.Cols()
  {
    TileOfIndex(t, k);
    StartOff(t, k / t.Cols(), k % t.Cols())
  }

  lemma TileOfIndex(t: Tiling, k: nat)
    requires t.Valid() && k < t.Rows() * t.Cols()
    ensures t.HasTile(k / t.Cols(), k % t.Cols()) && t.rowStart[k / t.Cols()] < t.rowStart[k / t.Cols() + 1]
  {
    var q := k / t.Cols();
    assert k == q * t.Cols() + k % t.Cols();
    Multiples(t.Rows(), q, t.Cols());
  }

  /** The starts of all tiles, in 32-bit unsigned arithmetic. */
  method TileStartOffsets(t: Tiling) returns (off: array<uint32>)
    requires t.Valid()
    ensures fresh(off) && off.Length == t.Rows() * t.Cols()
    ensures forall k | 0 <= k < off.Length :: off[k] as int == StartAt(t, k)
  {
    var rows, cols := t.Rows(), t.Cols();
    off := new uint32[rows * cols];
    var tileIdx := 0;
    IndexSteps(t, 0, 0);
    hide Tiling.Valid, StartAt, StartOff, RowOff, RowHeight, TileOff, TileIndex;
    for row := 0 to rows
      invariant tileIdx == TileIndex(t, row, 0)
      invariant forall k | 0 <= k < tileIdx && k < off.Length :: off[k] as int == StartAt(t, k)
    {
      var rowOff, bDiff := RowOff(t, row), RowHeight(t, row);
      for col := 0 to cols
        invariant tileIdx == TileIndex(t, row, col)
        invariant forall k | 0 <= k < tileIdx && k < off.Length :: off[k] as int == StartAt(t, k)
      {
        IndexSteps(t, row, col);
        IndexOfTile(t, row, col);
        off[tileIdx] := TileOff(t, row, col, rowOff, bDiff);
        tileIdx := tileIdx + 1;
      }
      IndexSteps(t, row, 0);
    }
    IndexSteps(t, rows, 0);
  }

  /** The number of a tile in raster order. */
  function TileIndex(t: Tiling, r: nat, c: nat): nat
    requires |t.colStart| > 0
  {
    r * t.Cols() + c
  }

  lemma IndexSteps(t: Tiling, r: nat, c: nat)
    requires |t.colStart| > 0
    ensures TileIndex(t, 0, 0) == 0 && TileIndex(t, r, 0) == r * t.Cols()
    ensures TileIndex(t, r, c + 1) == TileIndex(t, r, c) + 1
    ensures TileIndex(t, r, t.Cols()) == TileIndex(t, r + 1, 0)
  {
    assert (r + 1) * t.Cols() == r * t.Cols() + t.Cols();
  }

  lemma IndexOfTile(t: Tiling, r: nat, c: nat)
    requires t.Valid() && t.HasTile(r, c)
    ensures var k := TileIndex(t, r, c); k < t.Rows() * t.Cols() && StartAt(t, k) == StartOff(t, r, c)
  {
    Multiples(r + 1, t.Rows(), t.Cols());
    assert (r + 1) * t.Cols() == r * t.Cols() + t.Cols();
    QuotientIs(r * t.Cols() + c, t.Cols(), r, c);
  }

  function RowOff(t: Tiling, row: nat): (off: uint32)
    requires t.Valid() && row < t.Rows()
    ensures off as int == t.rowStart[row] * t.Side() * (128 * t.sb128w)
  {
    RowFits(t, row);
    t.rowStart[row] as uint32 * t.Side() as uint32 * t.sb128w as uint32 * 128
  }

  function RowHeight(t: Tiling, row: nat): (h: uint32)
    requires t.Valid() && row < t.Rows()
    ensures h as int == t.TileH(row)
  {
    RowFits(t, row);
    (t.rowStart[row + 1] - t.rowStart[row]) as uint32 * t.Side() as uint32
  }

  function TileOff(t: Tiling, row: nat, col: nat, rowOff: uint32, bDiff: uint32): (off: uint32)
    requires t.Valid() && t.HasTile(row, col) && rowOff == RowOff(t, row) && bDiff == RowHeight(t, row)
    ensures off as int == StartOff(t, row, col)
  {
    ColumnFits(t, row, col);
    rowOff + bDiff * t.colStart[col] as uint32 * t.Side() as uint32
  }

  /** None of the products for a row overflows ... */
  lemma RowFits(t: Tiling, r: nat)
    requires t.Valid() && r < t.Rows()
    ensures var a := t.rowStart[r] * t.Side();
            && t.rowStart[r] <= 1024 && a <= 65472 && a * t.sb128w <= 0x200_0000 && a * t.sb128w * 128 < 0x1_0000_0000
            && a * t.sb128w * 128 == a * (128 * t.sb128w)
    ensures t.rowStart[r + 1] - t.rowStart[r] <= 1024 && t.TileH(r) <= 65536
  {
    var last := |t.rowStart| - 1;
    Multiples(t.rowStart[r] + 1, t.rowStart[last], t.Side());
    Multiples(t.rowStart[r + 1], t.rowStart[last], t.Side());
    var a := t.rowStart[r] * t.Side();
    assert (t.rowStart[r] + 1) * t.Side() == a + t.Side();
    Product(a, 65472, t.sb128w, 512);
    assert (t.rowStart[r + 1] - t.rowStart[r]) * t.Side() == t.rowStart[r + 1] * t.Side() - a;
  }

  lemma Product(a: nat, b: nat, c: nat, d: nat)
    requires a <= b && c <= d
    ensures a * c <= b * d
    ensures a * c * 128 == a * (128 * c)
  {
    assert a * c <= b * c <= b * d;
  }

  /** ... and none of those for a tile. */
  lemma ColumnFits(t: Tiling, r: nat, c: nat)
    requires t.Valid() && t.HasTile(r, c)
    ensures var h, x := t.TileH(r), t.colStart[c];
            && x <= 1024 && h * x <= 0x400_0000 && h * x * t.Side() < 0x1_0000_0000
            && h * x * t.Side() == h * (x * t.Side())
    ensures StartOff(t, r, c) < 0x1_0000_0000
  {
    var h, x, s := t.TileH(r), t.colStart[c], t.Side();
    hide Tiling.TileH, StartOff, Area;
    ColumnBound(t, c);
    RowFits(t, r);
    StretchInside(t, r, c);
    hide Tiling.Valid;
    ProductFits(h, x, s);
  }

  lemma ProductFits(h: nat, x: nat, s: nat)
    requires h <= 65536 && x <= 1024 && x * s <= 65472
    ensures h * x <= 0x400_0000 && h * x * s == h * (x * s) < 0x1_0000_0000
  {
    Product(h, 65536, x, 1024);
    Product(h, 65536, x * s, 65472);
    assert h * x * s == h * (x * s);
  }

  lemma ColumnBound(t: Tiling, c: nat)
    requires t.Valid() && c + 1 < |t.colStart|
    ensures t.colStart[c] <= 1024 && t.colStart[c] * t.Side() <= 65472
  {
    Multiples(t.colStart[c] + 1, t.colStart[|t.colStart| - 1], t.Side());
    assert (t.colStart[c] + 1) * t.Side() == t.colStart[c] * t.Side() + t.Side();
  }

  // ----- Lowest pixels -----

  /** The run of a tile: one row for every superblock row of the tile. */
  function RunStart(t: Tiling, r: nat, c: nat): nat
    requires r + 1 < |t.rowStart| && t.rowStart[r] <= t.rowStart[r + 1] && |t.colStart| > 0
  {
    t.Cols() * t.rowStart[r] + c * (t.rowStart[r + 1] - t.rowStart[r])
  }

  function RunLength(t: Tiling, r: nat): nat
    requires r + 1 < |t.rowStart| && t.rowStart[r] <= t.rowStart[r + 1]
  {
    t.rowStart[r + 1] - t.rowStart[r]
  }

  lemma Climb(n: nat, a: nat, c: nat, h: nat)
    ensures n * a + (c + 1) * h == n * a + c * h + h
    ensures n * a + n * h == n * (a + h)
  {
  }

  /** The runs follow one another ... */
  lemma RunsFollow(t: Tiling, r: nat, c: nat)
    requires t.Valid() && t.HasTile(r, c)
    ensures RunStart(t, r, c) + RunLength(t, r) == RunStart(t, r, c + 1)
    ensures RunStart(t, r, t.Cols()) == t.Cols() * t.rowStart[r + 1]
    ensures RunStart(t, r, 0) == t.Cols() * t.rowStart[r]
  {
    Climb(t.Cols(), t.rowStart[r], c, RunLength(t, r));
  }

  /** ... every one inside the allocation, ... */
  lemma RunInside(t: Tiling, r: nat, c: nat)
    requires t.Valid() && t.HasTile(r, c)
    ensures RunStart(t, r, c) + RunLength(t, r) <= t.Cols() * t.rowStart[t.Rows()]
  {
    RunsFollow(t, r, c);
    RunsRise(t, r, c + 1, t.Cols());
    Scaled(t.Cols(), t.rowStart[r + 1], t.rowStart[t.Rows()]);
    hide RunStart;
  }

  /** ... so that different tiles have different rows. */
  lemma RunsDisjoint(t: Tiling, r: nat, c: nat, r': nat, c': nat)
    requires t.Valid() && t.HasTile(r, c) && t.HasTile(r', c') && Before(r, c, r', c')
    ensures RunStart(t, r, c) + RunLength(t, r) <= RunStart(t, r', c')
    ensures RunStart(t, r', c') + RunLength(t, r') <= t.Cols() * t.rowStart[t.Rows()]
  {
    RunInside(t, r', c');
    RunsFollow(t, r, c);
    RunsFollow(t, r', c');
    if r == r' {
      RunsRise(t, r, c + 1, c');
    } else {
      RunsRise(t, r, c + 1, t.Cols());
      RunsRise(t, r', 0, c');
      Scaled(t.Cols(), t.rowStart[r + 1], t.rowStart[r']);
      hide RunStart;
    }
  }

  lemma RunsRise(t: Tiling, r: nat, c: nat, d: nat)
    requires r + 1 < |t.rowStart| && t.rowStart[r] <= t.rowStart[r + 1] && |t.colStart| > 0 && c <= d
    ensures RunStart(t, r, c) <= RunStart(t, r, d)
  {
    Multiples(c, d, RunLength(t, r));
  }

  /** The run of tile number `k` in raster order. */
  ghost function RunAt(t: Tiling, k: nat): int
    requires t.Valid() && k < t.Rows() * t.Cols()
  {
    TileOfIndex(t, k);
    RunStart(t, k / t.Cols(), k % t.Cols())
  }

  lemma RunOfTile(t: Tiling, r: nat, c: nat)
    requires t.Valid() && t.HasTile(r, c)
    ensures var k := TileIndex(t, r, c); k < t.Rows() * t.Cols() && RunAt(t, k) == RunStart(t, r, c)
  {
    IndexOfTile(t, r, c);
    QuotientIs(r * t.Cols() + c, t.Cols(), r, c);
  }

  /** The runs of all tiles, by advancing one pointer. */
  method LowestPixelRuns(t: Tiling) returns (run: array<nat>)
    requires t.Valid()
    ensures fresh(run) && run.Length == t.Rows() * t.Cols()
    ensures forall k | 0 <= k < run.Length :: run[k] == RunAt(t, k)
  {
    var rows, cols := t.Rows(), t.Cols();
    run := new nat[rows * cols];
    var ptr, tileRowBase := 0, 0;
    assert forall r | 0 <= r < rows :: t.rowStart[r] < t.rowStart[r + 1];
    assert cols * t.rowStart[0] == 0;
    IndexSteps(t, 0, 0);
    hide Tiling.Valid, RunAt, RunStart, TileIndex;
    for row := 0 to rows
      invariant tileRowBase == TileIndex(t, row, 0) && ptr == cols * t.rowStart[row]
      invariant forall k | 0 <= k < tileRowBase && k < run.Length :: run[k] == RunAt(t, k)
    {
      RunsFollow(t, row, 0);
      var tileRowSbH := RunLength(t, row);
      for col := 0 to cols
        invariant ptr == RunStart(t, row, col) && tileRowBase + col == TileIndex(t, row, col)
        invariant forall k | 0 <= k < tileRowBase + col && k < run.Length :: run[k] == RunAt(t, k)
      {
        IndexSteps(t, row, col);
        RunOfTile(t, row, col);
        RunsFollow(t, row, col);
        run[tileRowBase + col] := ptr;
        ptr := ptr + tileRowSbH;
      }
      IndexSteps(t, row, 0);
      tileRowBase := tileRowBase + cols;
    }
    IndexSteps(t, rows, 0);
  }
}
