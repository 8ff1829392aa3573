/** Intra block copy: the source rectangle a motion vector points at is moved until it lies in the part
    of the tile that is already decoded, or decoding fails. */
module IntraBc {
  import opened IntOps
  import opened Options
  import opened Picture

  /** Tile limits, position and size of the block in units of 4 pixels. */
  datatype Block = Block(colStart: nat, colEnd: nat, rowStart: nat, x4: nat, y4: nat, bw4: nat, bh4: nat,
                         sb128: bool, monochrome: bool, ssHor: bool, ssVer: bool)
  {
    /** The width of a superblock, in the same units and in pixels. */
    function Sb4(): nat { if sb128 then 32 else 16 }
    function SbSize(): nat { 4 * Sb4() }

    /** Blocks are aligned to their size, tiles to superblocks, and a block lies in one superblock. */
    ghost predicate Valid() {
      && IsSize(bw4) && IsSize(bh4) && bw4 <= Sb4() && bh4 <= Sb4()
      && x4 % bw4 == 0 && y4 % bh4 == 0
      && colStart % Sb4() == 0 && rowStart % Sb4() == 0
      && colStart <= x4 < colEnd && rowStart <= y4
    }

    predicate HasChroma() {
      !monochrome && (bw4 > (if ssHor then 1 else 0) || x4 % 2 == 1) && (bh4 > (if ssVer then 1 else 0) || y4 % 2 == 1)
    }

    /** A block too narrow for its subsampled chroma takes that of its left neighbour along, which must
        be in the tile as well. */
    function BorderLeft(): int { 4 * colStart + if HasChroma() && bw4 < 2 && ssHor then 4 else 0 }
    function BorderTop(): int { 4 * rowStart + if HasChroma() && bh4 < 2 && ssVer then 4 else 0 }

    /** The right edge of the tile, rounded up to a multiple of the block width. */
    function BorderRight(): int
      requires bw4 > 0
    {
      (colEnd + (bw4 - 1)) / bw4 * bw4 * 4
    }

    /** The corner of the current superblock. */
    function SbX(): int { x4 / Sb4() * SbSize() }
    function SbY(): int { y4 / Sb4() * SbSize() }
  }

  datatype Rect = Rect(left: int, top: int, right: int, bottom: int)

  lemma RightBorder(b: Block)
    requires b.Valid()
    ensures 4 * b.x4 + 4 * b.bw4 <= b.BorderRight()
  {
    var q := b.x4 / b.bw4;
    assert (q + 1) * b.bw4 == b.x4 + b.bw4;
    QuotientAtLeast(b.colEnd + (b.bw4 - 1), b.bw4, q + 1);
    Multiples(q + 1, (b.colEnd + (b.bw4 - 1)) / b.bw4, b.bw4);
  }

  /** An aligned block lies between the borders, and within its superblock. */
  lemma BlockFits(b: Block)
    requires b.Valid()
    ensures b.BorderLeft() <= 4 * b.x4 && 4 * b.x4 + 4 * b.bw4 <= b.BorderRight()
    ensures b.BorderTop() <= 4 * b.y4
    ensures b.SbX() <= 4 * b.x4 && 4 * b.y4 + 4 * b.bh4 <= b.SbY() + b.SbSize()
    ensures b.SbY() <= 4 * b.y4 && 4 * b.x4 + 4 * b.bw4 <= b.SbX() + b.SbSize()
    ensures b.SbSize() == (if b.sb128 then 128 else 64) && b.SbX() % b.SbSize() == 0 && b.SbY() % b.SbSize() == 0
  {
    RightBorder(b);
    InSuperblock(b.x4, b.bw4, b.Sb4());
    InSuperblock(b.y4, b.bh4, b.Sb4());
    OddStart(b.colStart, b.Sb4());
    OddStart(b.rowStart, b.Sb4());
    OnGrid(b.x4 / b.Sb4(), b.SbSize());
    OnGrid(b.y4 / b.Sb4(), b.SbSize());
    hide Block.BorderRight, IsSize;
  }

  lemma OnGrid(q: nat, d: nat)
    requires d > 0
    ensures q * d % d == 0
  {
    QuotientIs(q * d, d, q, 0);
  }

  /** A block brings chroma along exactly if it holds a 4x4 cell in which a chroma sample of its own ends:
      an odd column where chroma is narrower, an odd row where it is lower. */
  lemma ChromaBlocks(b: Block)
    requires b.Valid()
    ensures b.HasChroma() <==>
              !b.monochrome && exists cx, cy ::
                b.x4 <= cx < b.x4 + b.bw4 && b.y4 <= cy < b.y4 + b.bh4 && CarriesChroma(b, cx, cy)
  {
    var cx := if b.ssHor && b.x4 % 2 == 0 && b.bw4 > 1 then b.x4 + 1 else b.x4;
    var cy := if b.ssVer && b.y4 % 2 == 0 && b.bh4 > 1 then b.y4 + 1 else b.y4;
    if b.HasChroma() {
      assert CarriesChroma(b, cx, cy);
    }
  }

  predicate CarriesChroma(b: Block, cx: int, cy: int) { (b.ssHor ==> cx % 2 == 1) && (b.ssVer ==> cy % 2 == 1) }

  /** The borders are those of the tile, moved in by the cell a block takes along for its chroma; the right
      one is the next multiple of the block width. */
  lemma BordersAreTile(b: Block)
    requires b.Valid()
    ensures b.BorderLeft() == 4 * b.colStart + 4 * (if b.HasChroma() && b.ssHor && b.bw4 == 1 then 1 else 0)
    ensures b.BorderTop() == 4 * b.rowStart + 4 * (if b.HasChroma() && b.ssVer && b.bh4 == 1 then 1 else 0)
    ensures 4 * b.colEnd <= b.BorderRight() < 4 * b.colEnd + 4 * b.bw4 && b.BorderRight() % (4 * b.bw4) == 0
  {
    var w, n := b.bw4, b.colEnd + (b.bw4 - 1);
    var q := n / w;
    assert n == q * w + n % w;
    assert q * w * 4 == q * (4 * w);
    OnGrid(q, 4 * w);
  }

  /** There is room above, or to the left, exactly if a source there would be wholly decoded. */
  lemma RoomIsRoom(l: Limits)
    requires l.Valid()
    ensures l.RoomAbove() <==> exists r :: FitsAbove(l, r)
    ensures l.RoomLeft() <==> exists r :: FitsLeft(l, r)
  {
    if l.RoomAbove() {
      assert FitsAbove(l, Rect(l.x, l.top, l.x + l.w, l.top + l.h));
    }
    if l.RoomLeft() {
      assert FitsLeft(l, Rect(l.left, l.y, l.left + l.w, l.y + l.h));
    }
  }

  ghost predicate FitsAbove(l: Limits, r: Rect) {
    l.IsDecoded(r) && r.right == r.left + l.w && r.bottom == r.top + l.h && r.bottom <= l.sby
  }

  ghost predicate FitsLeft(l: Limits, r: Rect) {
    l.IsDecoded(r) && r.right == r.left + l.w && r.bottom == r.top + l.h && r.right <= l.sbx
  }

  /** A vector counts eighths of a pixel; parts of a pixel are dropped downwards. */
  lemma SourceIs(l: Limits, mv: Mv)
    ensures var r := l.Source(mv);
            && 8 * (r.left - l.x) <= mv.x < 8 * (r.left - l.x) + 8 && r.right == r.left + l.w
            && 8 * (r.top - l.y) <= mv.y < 8 * (r.top - l.y) + 8 && r.bottom == r.top + l.h
  {
  }

  lemma OddStart(start: nat, sb4: nat)
    requires (sb4 == 16 || sb4 == 32) && start % sb4 == 0
    ensures start % 2 == 0
  {
  }

  lemma InSuperblock(x: nat, w: nat, sb4: nat)
    requires IsSize(w) && w <= sb4 && (sb4 == 16 || sb4 == 32) && x % w == 0
    ensures x / sb4 * sb4 <= x && x + w <= x / sb4 * sb4 + sb4
  {
    var q, m, k := x / w, sb4 / w, x / sb4;
    assert m * w == sb4;
    assert x == q * w;
    hide IsSize;
    AlignedFits(q, w, m, k, sb4);
  }

  /** A multiple of `w` below (k + 1) * sb4 is at least `w` below it. */
  lemma AlignedFits(q: nat, w: nat, m: nat, k: nat, sb4: nat)
    requires w > 0 && m * w == sb4 && q * w < k * sb4 + sb4
    ensures q * w + w <= k * sb4 + sb4
  {
    assert (k + 1) * m * w == k * sb4 + sb4 by { assert (k + 1) * m * w == (k + 1) * (m * w); }
    Multiples((k + 1) * m, q, w);
    Multiples(q + 1, (k + 1) * m, w);
    assert (q + 1) * w == q * w + w;
  }

  /** The limits of a block in pixels: its own corner and size, the borders and the superblock. */
  datatype Limits = Limits(x: int, y: int, w: int, h: int, left: int, top: int, right: int,
                           sbx: int, sby: int, sbSize: int)
  {
    ghost predicate Valid() {
      && 0 < w && 0 < h && left <= x && x + w <= right && top <= y
      && sbx <= x && x + w <= sbx + sbSize && sby <= y && y + h <= sby + sbSize && sbSize <= 128
    }

    predicate Overlaps(r: Rect) { r.bottom > sby && r.right > sbx }
    predicate RoomAbove() { top + h <= sby }
    predicate RoomLeft() { left + w <= sbx }

    /** Moved into the left, right and top borders of the tile. */
    function Bordered(r: Rect): Rect {
      var l, t := Clip(r.left, left, right - w), Max(r.top, top);
      Rect(l, t, l + w, t + h)
    }

    function Source(mv: Mv): Rect {
      var l, t := x + mv.x / 8, y + mv.y / 8;
      Rect(l, t, l + w, t + h)
    }

    /** No further from the block than a vector can say. */
    ghost predicate Reachable(r: Rect) { -4096 <= r.left - x <= 4095 && -4096 <= r.top - y <= 4095 }

    /** In the tile, not below the current row of superblocks, and wholly above or left of the current one. */
    ghost predicate IsDecoded(r: Rect) {
      && left <= r.left && r.right <= right && top <= r.top && r.bottom <= sby + sbSize
      && (r.bottom <= sby || r.right <= sbx)
    }
  }

  function LimitsOf(b: Block): Limits
    requires b.bw4 > 0
  {
    Limits(4 * b.x4, 4 * b.y4, 4 * b.bw4, 4 * b.bh4, b.BorderLeft(), b.BorderTop(), b.BorderRight(),
           b.SbX(), b.SbY(), b.SbSize())
  }

  method MoveIntoBorders(l: Limits, r: Rect) returns (q: Rect)
    requires l.Valid() && r.right == r.left + l.w && r.bottom == r.top + l.h
    ensures q == l.Bordered(r)
  {
    var left, top, right, bottom := r.left, r.top, r.right, r.bottom;
    if left < l.left {
      right := right + (l.left - left);
      left := left + (l.left - left);
    } else if right > l.right {
      left := left - (right - l.right);
      right := right - (right - l.right);
    }
    if top < l.top {
      bottom := bottom + (l.top - top);
      top := top + (l.top - top);
    }
    q := Rect(left, top, right, bottom);
  }

  /** The clamped vector, or nothing if the source still overlaps what is not decoded yet. A source that
      overlaps the current superblock goes right above it, else right to its left; one that does not is only
      moved up as far as the row of superblocks reaches. */
  method Clamp(b: Block, mv: Mv) returns (res: Option<Mv>)
    requires b.Valid()
    ensures var l := LimitsOf(b);
            && (res.None? <==> l.Overlaps(l.Bordered(l.Source(mv))) && !l.RoomAbove() && !l.RoomLeft())
            && (res.Some? ==> l.IsDecoded(l.Source(res.value)))
            && (l.IsDecoded(l.Source(mv)) ==> res.Some? && l.Source(res.value) == l.Source(mv))
    ensures var l := LimitsOf(b);
            var r := l.Bordered(l.Source(mv));
            var t := Min(r.top, l.sby + l.sbSize - l.h);
            res.Some? ==>
              && (l.Overlaps(r) && l.RoomAbove() ==> l.Source(res.value) == Rect(r.left, l.sby - l.h, r.right, l.sby))
              && (l.Overlaps(r) && !l.RoomAbove() ==> l.Source(res.value) == Rect(l.sbx - l.w, t, l.sbx, t + l.h))
              && (!l.Overlaps(r) ==> l.Source(res.value) == Rect(r.left, t, r.right, t + l.h))
              && res.value.x % 8 == 0 && res.value.y % 8 == 0
  {
    BlockFits(b);
    var l := LimitsOf(b);
    assert l.Valid();
    hide Block.Valid, LimitsOf;
    var r := l.Source(mv);
    r := MoveIntoBorders(l, r);
    res := MoveOut(l, r);
  }

  /** Moves a rectangle within the borders above the superblock if there is room for it, else to its left. */
  method MoveOut(l: Limits, r: Rect) returns (res: Option<Mv>)
    requires l.Valid() && l.left <= r.left && r.left + l.w == r.right <= l.right
    requires l.top <= r.top && r.top + l.h == r.bottom && l.Reachable(r)
    ensures res.None? <==> l.Overlaps(r) && !l.RoomAbove() && !l.RoomLeft()
    ensures res.Some? ==> l.IsDecoded(l.Source(res.value))
    ensures l.IsDecoded(r) ==> res.Some? && l.Source(res.value) == r
    ensures res.Some? ==> res.value.x % 8 == 0 && res.value.y % 8 == 0
    ensures res.Some? && l.Overlaps(r) && l.RoomAbove() ==>
              l.Source(res.value) == Rect(r.left, l.sby - l.h, r.right, l.sby)
    ensures var t := Min(r.top, l.sby + l.sbSize - l.h);
            && (res.Some? && l.Overlaps(r) && !l.RoomAbove() ==>
                  l.Source(res.value) == Rect(l.sbx - l.w, t, l.sbx, t + l.h))
            && (res.Some? && !l.Overlaps(r) ==> l.Source(res.value) == Rect(r.left, t, r.right, t + l.h))
  {
    var left, top, right, bottom := r.left, r.top, r.right, r.bottom;
    if bottom > l.sby && right > l.sbx {
      if top - l.top >= bottom - l.sby {
        top := top - (bottom - l.sby);
        bottom := bottom - (bottom - l.sby);
      } else if left - l.left >= right - l.sbx {
        left := left - (right - l.sbx);
        right := right - (right - l.sbx);
      }
    }
    if bottom > l.sby + l.sbSize {
      top := top - (bottom - (l.sby + l.sbSize));
      bottom := bottom - (bottom - (l.sby + l.sbSize));
    }
    if bottom > l.sby && right > l.sbx {
      return None;
    }
    res := Some(Mv((top - l.y) * 8, (left - l.x) * 8));
  }

}
