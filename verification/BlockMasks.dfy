/** The blocks of a superblock, as the block tree decodes them, are what the recording of masks and
    strength indices asks for: aligned to their size, separate, and inside the superblock's units. */
module BlockMasks {
  import opened IntOps
  import BlockTree
  import CdefApply
  import LoopFilterMask

  /** A multiple of a block side. */
  predicate Grid(x: nat, w: nat) { w > 0 && x % w == 0 }

  predicate Aligned(b: BlockTree.Block) {
    && IsSize(b.w) && IsSize(b.h) && Grid(b.x, b.w) && Grid(b.y, b.h)
    && (b.w == 32 ==> b.h >= 16) && (b.h == 32 ==> b.w >= 16)
  }

  ghost predicate AllAligned(bs: seq<BlockTree.Block>) { forall i | 0 <= i < |bs| :: Aligned(bs[i]) }

  ghost predicate AllGrid(at: seq<(nat, nat)>, side: nat) {
    forall i | 0 <= i < |at| :: Grid(at[i].0, side) && Grid(at[i].1, side)
  }

  lemma Halve(x: nat, w: nat)
    requires w > 0 && Grid(x, 2 * w)
    ensures Grid(x, w) && Grid(x + w, w)
  {
    var q := x / (2 * w);
    assert x == q * (2 * w) == 2 * q * w;
    assert (2 * q + 1) * w == x + w;
    QuotientIs(x, w, 2 * q, 0);
    QuotientIs(x + w, w, 2 * q + 1, 0);
  }

  /** Half and quarter steps from a grid position are on the finer grids. */
  lemma GridSteps(x: nat, bl: BlockTree.Level)
    requires Grid(x, 2 * BlockTree.Hsz(bl))
    ensures var h := BlockTree.Hsz(bl); Grid(x, h) && Grid(x + h, h)
    ensures bl < BlockTree.BL_8X8 ==>
              var q := BlockTree.Hsz(bl) / 2; Grid(x, q) && Grid(x + q, q) && Grid(x + q * 2, q) && Grid(x + q * 3, q)
  {
    Sizes(bl);
    hide Grid;
    var h := BlockTree.Hsz(bl);
    Halve(x, h);
    if bl < BlockTree.BL_8X8 {
      assert h == 2 * (h / 2);
      Halve(x, h / 2);
      Halve(x + h, h / 2);
    }
  }

  lemma Sizes(bl: BlockTree.Level)
    ensures IsSize(BlockTree.Hsz(bl)) && IsSize(2 * BlockTree.Hsz(bl)) && BlockTree.Hsz(bl) <= 16
    ensures bl < BlockTree.BL_8X8 ==> IsSize(BlockTree.Hsz(bl) / 2)
    ensures bl > 0 ==> BlockTree.Hsz(bl) <= 8
    ensures 2 * BlockTree.Hsz(bl) == 32 ==> BlockTree.Hsz(bl) == 16
  {
  }

  lemma PartitionAligned(f: BlockTree.Frame, bl: BlockTree.Level, x: nat, y: nat, bp: BlockTree.Partition)
    requires Grid(x, 2 * BlockTree.Hsz(bl)) && Grid(y, 2 * BlockTree.Hsz(bl))
    requires bp == BlockTree.PH4 || bp == BlockTree.PV4 ==> 0 < bl < BlockTree.BL_8X8
    ensures AllAligned(BlockTree.PartitionBlocks(f, bl, x, y, bp))
  {
    Sizes(bl);
    GridSteps(x, bl);
    GridSteps(y, bl);
    hide Grid, IsSize, BlockTree.Hsz;
  }

  lemma LeavesAligned(f: BlockTree.Frame, src: BlockTree.Source, bl: BlockTree.Level, x: nat, y: nat, pos: nat)
    requires f.Valid() && BlockTree.Inside(f, x, y) && src.Symbols?
    requires Grid(x, 2 * BlockTree.Hsz(bl)) && Grid(y, 2 * BlockTree.Hsz(bl))
    ensures var d := BlockTree.Decide(f, src, bl, x, y, pos).0;
            if d.Leaves? then AllAligned(d.blocks) else d.Squares? ==> AllGrid(d.at, BlockTree.Hsz(bl))
  {
    Sizes(bl);
    GridSteps(x, bl);
    GridSteps(y, bl);
    var bp := BlockTree.PARTITIONS[src.stream(pos) % BlockTree.PartitionCount(bl)];
    assert bp == BlockTree.PH4 || bp == BlockTree.PV4 ==> 0 < bl < BlockTree.BL_8X8;
    PartitionAligned(f, bl, x, y, bp);
    hide Grid, IsSize, BlockTree.Hsz, BlockTree.PartitionBlocks, BlockTree.PartitionCount;
  }

  /** However the walk of an aligned square ends, every block decoded is aligned. */
  lemma {:induction false} WalkAligned(f: BlockTree.Frame, src: BlockTree.Source, bl: BlockTree.Level, x: nat, y: nat,
                                     pos: nat)
    requires f.Valid() && BlockTree.Inside(f, x, y) && src.Symbols?
    requires Grid(x, 2 * BlockTree.Hsz(bl)) && Grid(y, 2 * BlockTree.Hsz(bl))
    ensures AllAligned(BlockTree.Walk(f, src, bl, x, y, pos).blocks)
    decreases BlockTree.BL_8X8 - bl, 1, 0
  {
    var (d, next) := BlockTree.Decide(f, src, bl, x, y, pos);
    LeavesAligned(f, src, bl, x, y, pos);
    hide BlockTree.Decide, Aligned, Grid;
    if d.Leaves? {
      BlockTree.WalkBlocksPrefix(f, d.blocks, next);
    } else if d.Squares? {
      BlockTree.SquaresInFrame(f, src, bl, x, y, pos);
      WalkSquaresAligned(f, src, bl + 1, d.at, next);
    }
  }

  lemma {:induction false} WalkSquaresAligned(f: BlockTree.Frame, src: BlockTree.Source, bl: BlockTree.Level,
                                              at: seq<(nat, nat)>, pos: nat)
    requires f.Valid() && src.Symbols? && (forall i | 0 <= i < |at| :: BlockTree.Inside(f, at[i].0, at[i].1))
    requires AllGrid(at, 2 * BlockTree.Hsz(bl))
    ensures AllAligned(BlockTree.WalkSquares(f, src, bl, at, pos).blocks)
    decreases BlockTree.BL_8X8 - bl, 2, |at|
  {
    if at != [] {
      hide Aligned, Grid;
      WalkAligned(f, src, bl, at[0].0, at[0].1, pos);
      WalkSquaresAligned(f, src, bl, at[1..], BlockTree.Walk(f, src, bl, at[0].0, at[0].1, pos).pos);
    }
  }

  /** A decoded block, by its position in the 128x128 area. */
  function Relative(b: BlockTree.Block, skip: bool, idx: nat): LoopFilterMask.Blk {
    LoopFilterMask.Blk(b.x % 32, b.y % 32, b.w, b.h, skip, idx)
  }

  /** The block lies in the square of the given side whose corner is (x, y). */
  ghost predicate RelativeWithin(b: LoopFilterMask.Blk, x: nat, y: nat, side: nat) {
    x % 32 <= b.x && b.x + b.w <= x % 32 + side && y % 32 <= b.y && b.y + b.h <= y % 32 + side
  }

  lemma RelativeValid(b: BlockTree.Block, skip: bool, idx: nat, x: nat, y: nat, side: nat)
    requires Aligned(b) && idx < 8 && BlockTree.Within(b, x, y, side)
    requires (side == 32 || side == 16) && x % side == 0 && y % side == 0
    ensures Relative(b, skip, idx).Valid()
    ensures b.x % 32 == b.x - x / 32 * 32 && b.y % 32 == b.y - y / 32 * 32
    ensures RelativeWithin(Relative(b, skip, idx), x, y, side)
    ensures side == 16 ==> forall u: nat | u < 4 && Relative(b, skip, idx).In(u) ::
                              u == LoopFilterMask.UnitOf(x % 32, y % 32)
  {
    AxisRelative(b.x, b.w, x, side);
    AxisRelative(b.y, b.h, y, side);
  }

  lemma AxisRelative(p: nat, w: nat, x: nat, side: nat)
    requires IsSize(w) && Grid(p, w) && x <= p && p + w <= x + side
    requires (side == 32 || side == 16) && x % side == 0
    ensures p % 32 == p - x / 32 * 32 && p % 32 + w <= 32 && p % 32 % w == 0
    ensures x % 32 <= p % 32 && p % 32 + w <= x % 32 + side
    ensures side == 16 ==> x % 32 == 0 || x % 32 == 16
  {
    assert x == x / 32 * 32 + x % 32;
    assert x % 32 == 0 || (side == 16 && x % 32 == 16);
    assert p - x / 32 * 32 < 32;
    assert p == x / 32 * 32 + (p - x / 32 * 32);
    OnGridAfterMod(p, w);
  }

  lemma OnGridAfterMod(p: nat, w: nat)
    requires IsSize(w) && Grid(p, w)
    ensures p % 32 % w == 0
  {
    var q, m, k := p / w, 32 / w, p / 32;
    assert m * w == 32;
    hide IsSize;
    GridPoint(p, w, q, m, k);
  }

  lemma GridPoint(p: nat, w: nat, q: nat, m: nat, k: nat)
    requires w > 0 && m * w == 32 && p == q * w && k == p / 32
    ensures p % 32 % w == 0
  {
    assert k * m * w == 32 * k by { assert k * m * w == k * (m * w); }
    assert p % 32 == q * w - k * m * w == (q - k * m) * w;
    Multiples(q + 1, k * m, w);
    assert (q + 1) * w == q * w + w;
    QuotientIs(p % 32, w, q - k * m, 0);
  }

  /** The blocks of a superblock, whatever is skipped, whatever indices are coded and however the walk ends,
      may be recorded one after the other: they are valid and separate, and with 64x64 superblocks all in
      one unit. */
  lemma SuperblockFeedsMask(f: BlockTree.Frame, src: BlockTree.Source, root: BlockTree.Level, x: nat, y: nat, pos: nat,
                            skip: nat -> bool, idx: nat -> nat)
    requires f.Valid() && BlockTree.Inside(f, x, y) && src.Symbols? && root <= 1
    requires x % (if root == 0 then 32 else 16) == 0 && y % (if root == 0 then 32 else 16) == 0
    requires forall i :: idx(i) < 8
    ensures var bs := BlockTree.Walk(f, src, root, x, y, pos).blocks;
            && (forall i: nat | i < |bs| :: Relative(bs[i], skip(i), idx(i)).Valid())
            && (forall i: nat | i < |bs| ::
                  RelativeWithin(Relative(bs[i], skip(i), idx(i)), x, y, if root == 0 then 32 else 16))
            && (forall i: nat, j: nat | i < j < |bs| ::
                  LoopFilterMask.Disjoint(Relative(bs[i], skip(i), idx(i)), Relative(bs[j], skip(j), idx(j))))
            && (root == 1 ==> forall i: nat, u: nat | i < |bs| && u < 4 && Relative(bs[i], skip(i), idx(i)).In(u) ::
                  u == LoopFilterMask.UnitOf(x % 32, y % 32))
  {
    var side := if root == 0 then 32 else 16;
    assert side == 2 * BlockTree.Hsz(root) && Grid(x, side) && Grid(y, side);
    WalkAligned(f, src, root, x, y, pos);
    BlockTree.WalkPlaces(f, src, root, x, y, pos);
    var bs := BlockTree.Walk(f, src, root, x, y, pos).blocks;
    hide BlockTree.Walk, Aligned, Grid, LoopFilterMask.Blk.Valid, LoopFilterMask.Blk.In;
    forall i: nat | i < |bs|
      ensures Relative(bs[i], skip(i), idx(i)).Valid()
      ensures RelativeWithin(Relative(bs[i], skip(i), idx(i)), x, y, side)
      ensures bs[i].x % 32 == bs[i].x - x / 32 * 32 && bs[i].y % 32 == bs[i].y - y / 32 * 32
      ensures root == 1 ==> forall u: nat | u < 4 && Relative(bs[i], skip(i), idx(i)).In(u) ::
                              u == LoopFilterMask.UnitOf(x % 32, y % 32)
    {
      RelativeValid(bs[i], skip(i), idx(i), x, y, side);
    }
  }

  // ----- All the superblocks of one area -----

  /** A superblock of a 128x128 area: its corner, and the symbols its blocks come from. With 64x64
      superblocks those of one area are decoded in different rows, maybe in different tiles. */
  datatype Superblock = Superblock(x: nat, y: nat, src: BlockTree.Source, pos: nat)

  function Side(root: BlockTree.Level): nat { if root == 0 then 32 else 16 }

  /** Different superblocks of one area. */
  ghost predicate InArea(f: BlockTree.Frame, root: BlockTree.Level, sbs: seq<Superblock>, ax: nat, ay: nat) {
    && f.Valid() && root <= 1
    && (forall k | 0 <= k < |sbs| :: OfArea(f, root, sbs[k], ax, ay))
    && (forall j, k | 0 <= j < k < |sbs| :: sbs[j].x != sbs[k].x || sbs[j].y != sbs[k].y)
  }

  ghost predicate OfArea(f: BlockTree.Frame, root: BlockTree.Level, sb: Superblock, ax: nat, ay: nat) {
    && BlockTree.Inside(f, sb.x, sb.y) && sb.src.Symbols? && sb.x / 32 == ax && sb.y / 32 == ay
    && sb.x % Side(root) == 0 && sb.y % Side(root) == 0
  }

  /** The blocks decoded in a superblock, however that ends, by their position in the area. */
  function BlocksOf(f: BlockTree.Frame, root: BlockTree.Level, sb: Superblock, skip: nat -> bool, idx: nat -> nat)
    : seq<LoopFilterMask.Blk>
    requires f.Valid() && BlockTree.Inside(f, sb.x, sb.y)
  {
    var bs := BlockTree.Walk(f, sb.src, root, sb.x, sb.y, sb.pos).blocks;
    seq(|bs|, i requires 0 <= i < |bs| => Relative(bs[i], skip(i), idx(i)))
  }

  /** The blocks of several superblocks; what is skipped and which indices are coded differs from one
      superblock to the next. */
  function AreaBlocks(f: BlockTree.Frame, root: BlockTree.Level, sbs: seq<Superblock>, skip: nat -> nat -> bool,
                      idx: nat -> nat -> nat): seq<LoopFilterMask.Blk>
    requires f.Valid() && forall k | 0 <= k < |sbs| :: BlockTree.Inside(f, sbs[k].x, sbs[k].y)
  {
    if sbs == [] then []
    else
      var n := |sbs| - 1;
      AreaBlocks(f, root, sbs[..n], skip, idx) + BlocksOf(f, root, sbs[n], skip(n), idx(n))
  }

  /** The blocks of a list are valid, apart, and inside the superblock. */
  ghost predicate Feedable(bs: seq<LoopFilterMask.Blk>, x: nat, y: nat, side: nat) {
    && (forall i | 0 <= i < |bs| :: bs[i].Valid() && RelativeWithin(bs[i], x, y, side))
    && (forall i, j | 0 <= i < j < |bs| :: LoopFilterMask.Disjoint(bs[i], bs[j]))
  }

  lemma SuperblockFeeds(f: BlockTree.Frame, root: BlockTree.Level, sb: Superblock, ax: nat, ay: nat,
                        skip: nat -> bool, idx: nat -> nat)
    requires f.Valid() && root <= 1 && OfArea(f, root, sb, ax, ay) && forall i :: idx(i) < 8
    ensures Feedable(BlocksOf(f, root, sb, skip, idx), sb.x, sb.y, Side(root))
  {
    hide LoopFilterMask.Blk.Valid, LoopFilterMask.Blk.In, LoopFilterMask.Disjoint, Relative, RelativeWithin;
    SuperblockFeedsMask(f, sb.src, root, sb.x, sb.y, sb.pos, skip, idx);
  }

  ghost predicate InOneOf(b: LoopFilterMask.Blk, sbs: seq<Superblock>, n: nat, side: nat)
    requires n <= |sbs|
  {
    exists k :: 0 <= k < n && RelativeWithin(b, sbs[k].x, sbs[k].y, side)
  }

  /** Every block of the list lies in one of the first `n` superblocks. */
  ghost predicate InSuperblocks(bs: seq<LoopFilterMask.Blk>, sbs: seq<Superblock>, n: nat, side: nat)
    requires n <= |sbs|
  {
    forall i | 0 <= i < |bs| :: InOneOf(bs[i], sbs, n, side)
  }

  /** Superblocks of one area that are not the same lie in different units. */
  lemma UnitsDiffer(x: nat, y: nat, x': nat, y': nat)
    requires x % 16 == 0 && y % 16 == 0 && x' % 16 == 0 && y' % 16 == 0 && (x != x' || y != y')
    requires x / 32 == x' / 32 && y / 32 == y' / 32
    ensures LoopFilterMask.UnitOf(x % 32, y % 32) != LoopFilterMask.UnitOf(x' % 32, y' % 32)
    ensures x % 32 + 16 <= x' % 32 || x' % 32 + 16 <= x % 32 || y % 32 + 16 <= y' % 32 || y' % 32 + 16 <= y % 32
  {
    HalvesDiffer(x, x');
    HalvesDiffer(y, y');
    CornersDiffer(x % 32, y % 32, x' % 32, y' % 32);
  }

  lemma HalvesDiffer(x: nat, x': nat)
    requires x % 16 == 0 && x' % 16 == 0 && x / 32 == x' / 32
    ensures (x % 32 == 0 || x % 32 == 16) && (x' % 32 == 0 || x' % 32 == 16)
    ensures x != x' ==> x % 32 != x' % 32
  {
    HalfOfArea(x);
    HalfOfArea(x');
  }

  lemma CornersDiffer(p: nat, q: nat, p': nat, q': nat)
    requires (p == 0 || p == 16) && (q == 0 || q == 16) && (p' == 0 || p' == 16) && (q' == 0 || q' == 16)
    requires p != p' || q != q'
    ensures LoopFilterMask.UnitOf(p, q) != LoopFilterMask.UnitOf(p', q')
    ensures p + 16 <= p' || p' + 16 <= p || q + 16 <= q' || q' + 16 <= q
  {
    hide LoopFilterMask.UnitOf;
    UnitOfCorner(p, q);
    UnitOfCorner(p', q');
  }

  lemma UnitOfCorner(p: nat, q: nat)
    requires (p == 0 || p == 16) && (q == 0 || q == 16)
    ensures LoopFilterMask.UnitOf(p, q) == (if q == 0 then 0 else 2) + if p == 0 then 0 else 1
  {
  }

  lemma HalfOfArea(x: nat)
    requires x % 16 == 0
    ensures x == x / 32 * 32 + x % 32 && (x % 32 == 0 || x % 32 == 16)
  {
  }

  /** A block of a 64x64 superblock reaches into the unit of the superblock and no other. */
  lemma OnlyItsUnit(b: LoopFilterMask.Blk, x: nat, y: nat, u: nat)
    requires x % 16 == 0 && y % 16 == 0 && RelativeWithin(b, x, y, 16) && u < 4 && b.In(u)
    ensures u == LoopFilterMask.UnitOf(x % 32, y % 32)
  {
    HalfOfArea(x);
    HalfOfArea(y);
  }

  /** A 128x128 superblock is the only one of its area. */
  lemma OneLargeSuperblock(f: BlockTree.Frame, sbs: seq<Superblock>, ax: nat, ay: nat)
    requires InArea(f, 0, sbs, ax, ay)
    ensures |sbs| <= 1
  {
    hide OfArea;
    if |sbs| > 1 {
      LargeCorner(f, sbs[0], ax, ay);
      LargeCorner(f, sbs[1], ax, ay);
    }
  }

  lemma LargeCorner(f: BlockTree.Frame, sb: Superblock, ax: nat, ay: nat)
    requires OfArea(f, 0, sb, ax, ay)
    ensures sb.x == 32 * ax && sb.y == 32 * ay
  {
  }

  /** After `done`, the blocks of the superblock at (x, y) may be recorded: its units are fresh, the blocks
      are valid and apart from each other and from those before, and reach into no other unit. */
  ghost predicate MayFollow(done: seq<LoopFilterMask.Blk>, bs: seq<LoopFilterMask.Blk>, sb128: bool, x: nat, y: nat) {
    && (forall i, u: nat | 0 <= i < |done| && u < 4 && (sb128 || u == LoopFilterMask.UnitOf(x, y)) :: !done[i].In(u))
    && (forall i, j | 0 <= i < |done| && 0 <= j < |bs| :: LoopFilterMask.Disjoint(done[i], bs[j]))
    && (forall i, j | 0 <= i < j < |bs| :: LoopFilterMask.Disjoint(bs[i], bs[j]))
    && (forall i | 0 <= i < |bs| :: bs[i].Valid())
    && (!sb128 ==> forall j, u: nat | 0 <= j < |bs| && u < 4 && bs[j].In(u) :: u == LoopFilterMask.UnitOf(x, y))
  }

  /** What was decoded in earlier superblocks of the area does not stand in the way of the next one. */
  lemma NextIsFresh(f: BlockTree.Frame, root: BlockTree.Level, sbs: seq<Superblock>, ax: nat, ay: nat, n: nat,
                    done: seq<LoopFilterMask.Blk>, bs: seq<LoopFilterMask.Blk>)
    requires InArea(f, root, sbs, ax, ay) && n < |sbs| && InSuperblocks(done, sbs, n, Side(root))
    requires Feedable(bs, sbs[n].x, sbs[n].y, Side(root))
    ensures MayFollow(done, bs, root == 0, sbs[n].x % 32, sbs[n].y % 32)
  {
    var (x, y) := (sbs[n].x, sbs[n].y);
    assert OfArea(f, root, sbs[n], ax, ay);
    if root == 0 {
      OneLargeSuperblock(f, sbs, ax, ay);
    } else {
      forall i | 0 <= i < |done|
        ensures !done[i].In(LoopFilterMask.UnitOf(x % 32, y % 32))
        ensures forall j | 0 <= j < |bs| :: LoopFilterMask.Disjoint(done[i], bs[j])
      {
        assert InOneOf(done[i], sbs, n, 16);
        var k :| 0 <= k < n && RelativeWithin(done[i], sbs[k].x, sbs[k].y, 16);
        assert OfArea(f, root, sbs[k], ax, ay);
        UnitsDiffer(sbs[k].x, sbs[k].y, x, y);
        if done[i].In(LoopFilterMask.UnitOf(x % 32, y % 32)) {
          OnlyItsUnit(done[i], sbs[k].x, sbs[k].y, LoopFilterMask.UnitOf(x % 32, y % 32));
        }
      }
      forall j, u: nat | 0 <= j < |bs| && u < 4 && bs[j].In(u) ensures u == LoopFilterMask.UnitOf(x % 32, y % 32) {
        OnlyItsUnit(bs[j], x, y, u);
      }
    }
  }

  lemma MoreSuperblocks(done: seq<LoopFilterMask.Blk>, bs: seq<LoopFilterMask.Blk>, sbs: seq<Superblock>, n: nat,
                        side: nat)
    requires n < |sbs| && InSuperblocks(done, sbs, n, side) && Feedable(bs, sbs[n].x, sbs[n].y, side)
    ensures InSuperblocks(done + bs, sbs, n + 1, side)
  {
    hide RelativeWithin, LoopFilterMask.Disjoint, LoopFilterMask.Blk.Valid;
    var all := done + bs;
    forall i | 0 <= i < |all| ensures InOneOf(all[i], sbs, n + 1, side) {
      if i < |done| {
        assert all[i] == done[i] && InOneOf(done[i], sbs, n, side);
        var k :| 0 <= k < n && RelativeWithin(done[i], sbs[k].x, sbs[k].y, side);
      } else {
        assert all[i] == bs[i - |done|] && RelativeWithin(all[i], sbs[n].x, sbs[n].y, side);
      }
    }
  }

  lemma AreaBlocksStep(f: BlockTree.Frame, root: BlockTree.Level, sbs: seq<Superblock>, n: nat,
                       skip: nat -> nat -> bool, idx: nat -> nat -> nat)
    requires f.Valid() && (forall k | 0 <= k < |sbs| :: BlockTree.Inside(f, sbs[k].x, sbs[k].y)) && n < |sbs|
    ensures AreaBlocks(f, root, sbs[..n + 1], skip, idx)
         == AreaBlocks(f, root, sbs[..n], skip, idx) + BlocksOf(f, root, sbs[n], skip(n), idx(n))
  {
    hide BlocksOf;
    assert sbs[..n + 1][..n] == sbs[..n];
  }

  /** Records the blocks of the superblock at (x, y). */
  method RecordSuperblock(w: LoopFilterMask.MaskWriter, x: nat, y: nat, bs: seq<LoopFilterMask.Blk>)
    requires w.Valid() && x < 32 && y < 32 && w.begun <= {0, 1, 2, 3}
    requires MayFollow(w.done, bs, w.sb128, x, y)
    modifies w, w.cdefIdx, w.noskip
    ensures w.Valid() && w.done == old(w.done) + bs
    ensures old(w.begun) <= w.begun <= {0, 1, 2, 3} && LoopFilterMask.UnitOf(x, y) in w.begun
  {
    hide LoopFilterMask.MaskWriter.Valid, LoopFilterMask.Blk.Valid, LoopFilterMask.Blk.In, LoopFilterMask.Disjoint;
    ghost var before := w.done;
    w.BeginSuperblock(x, y);
    for i := 0 to |bs|
      invariant w.Valid() && w.done == before + bs[..i] && (w.sb128 || w.cur == LoopFilterMask.UnitOf(x, y))
      invariant w.begun == old(w.begun) + if w.sb128 then {0, 1, 2, 3} else {LoopFilterMask.UnitOf(x, y)}
    {
      w.DecodeBlock(bs[i]);
    }
  }

  /** After the first `n` superblocks of an area, the blocks of the next one may be recorded. */
  lemma NextFeeds(f: BlockTree.Frame, root: BlockTree.Level, sbs: seq<Superblock>, n: nat,
                  skip: nat -> nat -> bool, idx: nat -> nat -> nat, ax: nat, ay: nat)
    requires InArea(f, root, sbs, ax, ay) && (forall k, i :: idx(k)(i) < 8) && n < |sbs|
    requires forall k | 0 <= k < |sbs| :: BlockTree.Inside(f, sbs[k].x, sbs[k].y)
    requires InSuperblocks(AreaBlocks(f, root, sbs[..n], skip, idx), sbs, n, Side(root))
    ensures var (done, bs) := (AreaBlocks(f, root, sbs[..n], skip, idx), BlocksOf(f, root, sbs[n], skip(n), idx(n)));
            && MayFollow(done, bs, root == 0, sbs[n].x % 32, sbs[n].y % 32)
            && AreaBlocks(f, root, sbs[..n + 1], skip, idx) == done + bs
            && InSuperblocks(done + bs, sbs, n + 1, Side(root))
  {
    assert f.Valid() && root <= 1 && OfArea(f, root, sbs[n], ax, ay);
    hide BlocksOf, AreaBlocks, InSuperblocks, InArea, OfArea, BlockTree.Inside, Side, MayFollow, Feedable;
    var done, bs := AreaBlocks(f, root, sbs[..n], skip, idx), BlocksOf(f, root, sbs[n], skip(n), idx(n));
    SuperblockFeeds(f, root, sbs[n], ax, ay, skip(n), idx(n));
    NextIsFresh(f, root, sbs, ax, ay, n, done, bs);
    MoreSuperblocks(done, bs, sbs, n, Side(root));
    AreaBlocksStep(f, root, sbs, n, skip, idx);
  }

  /** The superblocks of one area are recorded one after the other, in any order and however each of them
      ends; the record is then right for all the blocks together. */
  method RecordArea(w: LoopFilterMask.MaskWriter, f: BlockTree.Frame, root: BlockTree.Level, sbs: seq<Superblock>,
                    skip: nat -> nat -> bool, idx: nat -> nat -> nat, ghost ax: nat, ghost ay: nat)
    requires InArea(f, root, sbs, ax, ay) && (forall k, i :: idx(k)(i) < 8)
    requires w.Valid() && w.done == [] && w.begun == {} && w.sb128 == (root == 0)
    modifies w, w.cdefIdx, w.noskip
    ensures w.Valid() && w.done == AreaBlocks(f, root, sbs, skip, idx)
    ensures forall k | 0 <= k < |sbs| :: LoopFilterMask.UnitOf(sbs[k].x % 32, sbs[k].y % 32) in w.begun
  {
    forall k | 0 <= k < |sbs| ensures BlockTree.Inside(f, sbs[k].x, sbs[k].y) {
      assert OfArea(f, root, sbs[k], ax, ay);
    }
    hide LoopFilterMask.MaskWriter.Valid, BlocksOf, AreaBlocks, InSuperblocks, InArea, OfArea, BlockTree.Inside;
    hide LoopFilterMask.UnitOf, MayFollow;
    for n := 0 to |sbs|
      invariant w.Valid() && w.begun <= {0, 1, 2, 3}
      invariant w.done == AreaBlocks(f, root, sbs[..n], skip, idx) && InSuperblocks(w.done, sbs, n, Side(root))
      invariant forall k | 0 <= k < n :: LoopFilterMask.UnitOf(sbs[k].x % 32, sbs[k].y % 32) in w.begun
    {
      NextFeeds(f, root, sbs, n, skip, idx, ax, ay);
      RecordSuperblock(w, sbs[n].x % 32, sbs[n].y % 32, BlocksOf(f, root, sbs[n], skip(n), idx(n)));
    }
    assert sbs[..|sbs|] == sbs;
  }

  /** A block of the superblock that is not skipped has a cell in the 8x8 position at (bx4, by4). */
  ghost predicate CodedIn(f: BlockTree.Frame, root: BlockTree.Level, sb: Superblock, skip: nat -> bool,
                          bx4: nat, by4: nat)
    requires f.Valid() && BlockTree.Inside(f, sb.x, sb.y)
  {
    var bs := BlockTree.Walk(f, sb.src, root, sb.x, sb.y, sb.pos).blocks;
    exists i, cx, cy ::
      0 <= i < |bs| && !skip(i) && BlockTree.Contains(bs[i], cx, cy) && cx / 2 == bx4 / 2 && cy / 2 == by4 / 2
  }

  lemma CoefficientsAppend(as_: seq<LoopFilterMask.Blk>, bs: seq<LoopFilterMask.Blk>, bx4: nat, by4: nat)
    ensures LoopFilterMask.HasCoefficients(as_ + bs, bx4, by4)
       <==> LoopFilterMask.HasCoefficients(as_, bx4, by4) || LoopFilterMask.HasCoefficients(bs, bx4, by4)
  {
    var all := as_ + bs;
    if i, x, y :| 0 <= i < |as_| && !as_[i].skip && as_[i].Has(x, y) && x / 2 == bx4 / 2 && y / 2 == by4 / 2 {
      assert all[i] == as_[i];
    }
    if i, x, y :| 0 <= i < |bs| && !bs[i].skip && bs[i].Has(x, y) && x / 2 == bx4 / 2 && y / 2 == by4 / 2 {
      assert all[|as_| + i] == bs[i];
    }
    if i, x, y :| 0 <= i < |all| && !all[i].skip && all[i].Has(x, y) && x / 2 == bx4 / 2 && y / 2 == by4 / 2 {
      assert if i < |as_| then all[i] == as_[i] else all[i] == bs[i - |as_|];
    }
  }

  /** A cell and its position in the area. */
  lemma CellInArea(b: BlockTree.Block, skip: bool, idx: nat, ax: nat, ay: nat, cx: int, cy: int, bx4: nat, by4: nat)
    requires b.x % 32 == b.x - ax * 32 && b.y % 32 == b.y - ay * 32 && bx4 / 32 == ax && by4 / 32 == ay
    ensures BlockTree.Contains(b, cx, cy) <==> Relative(b, skip, idx).Has(cx - 32 * ax, cy - 32 * ay)
    ensures cx / 2 == bx4 / 2 <==> (cx - 32 * ax) / 2 == bx4 % 32 / 2
    ensures cy / 2 == by4 / 2 <==> (cy - 32 * ay) / 2 == by4 % 32 / 2
  {
    HalfCell(cx, ax, bx4);
    HalfCell(cy, ay, by4);
  }

  lemma HalfCell(c: int, a: nat, p: nat)
    requires p / 32 == a
    ensures c / 2 == p / 2 <==> (c - 32 * a) / 2 == p % 32 / 2
  {
    assert p == 32 * a + p % 32;
    assert (c - 32 * a) / 2 == c / 2 - 16 * a;
    assert p % 32 / 2 == p / 2 - 16 * a;
  }

  lemma SuperblockIsCoded(f: BlockTree.Frame, root: BlockTree.Level, sb: Superblock, ax: nat, ay: nat,
                          skip: nat -> bool, idx: nat -> nat, bx4: nat, by4: nat)
    requires f.Valid() && root <= 1 && OfArea(f, root, sb, ax, ay) && (forall i :: idx(i) < 8)
    requires bx4 / 32 == ax && by4 / 32 == ay
    ensures LoopFilterMask.HasCoefficients(BlocksOf(f, root, sb, skip, idx), bx4 % 32, by4 % 32)
       <==> CodedIn(f, root, sb, skip, bx4, by4)
  {
    var bs, rs := BlockTree.Walk(f, sb.src, root, sb.x, sb.y, sb.pos).blocks, BlocksOf(f, root, sb, skip, idx);
    BlocksInArea(f, root, sb, ax, ay);
    hide BlockTree.Walk, OfArea, BlockTree.Contains, LoopFilterMask.Blk.Has;
    if LoopFilterMask.HasCoefficients(rs, bx4 % 32, by4 % 32) {
      var i, x, y :| 0 <= i < |rs| && !rs[i].skip && rs[i].Has(x, y) && x / 2 == bx4 % 32 / 2 && y / 2 == by4 % 32 / 2;
      CellInArea(bs[i], skip(i), idx(i), ax, ay, x + 32 * ax, y + 32 * ay, bx4, by4);
      assert BlockTree.Contains(bs[i], x + 32 * ax, y + 32 * ay);
    }
    if CodedIn(f, root, sb, skip, bx4, by4) {
      var i, cx, cy :|
        0 <= i < |bs| && !skip(i) && BlockTree.Contains(bs[i], cx, cy) && cx / 2 == bx4 / 2 && cy / 2 == by4 / 2;
      CellInArea(bs[i], skip(i), idx(i), ax, ay, cx, cy, bx4, by4);
      assert rs[i].Has(cx - 32 * ax, cy - 32 * ay);
    }
  }

  lemma BlocksInArea(f: BlockTree.Frame, root: BlockTree.Level, sb: Superblock, ax: nat, ay: nat)
    requires f.Valid() && root <= 1 && OfArea(f, root, sb, ax, ay)
    ensures forall b | b in BlockTree.Walk(f, sb.src, root, sb.x, sb.y, sb.pos).blocks ::
              b.x % 32 == b.x - ax * 32 && b.y % 32 == b.y - ay * 32
  {
    BlockTree.WalkPlaces(f, sb.src, root, sb.x, sb.y, sb.pos);
    WalkAligned(f, sb.src, root, sb.x, sb.y, sb.pos);
    var bs := BlockTree.Walk(f, sb.src, root, sb.x, sb.y, sb.pos).blocks;
    hide BlockTree.Walk, Aligned;
    forall i | 0 <= i < |bs| ensures bs[i].x % 32 == bs[i].x - ax * 32 && bs[i].y % 32 == bs[i].y - ay * 32 {
      RelativeValid(bs[i], false, 0, sb.x, sb.y, Side(root));
    }
  }

  ghost predicate SomeCoded(f: BlockTree.Frame, root: BlockTree.Level, sbs: seq<Superblock>, skip: nat -> nat -> bool,
                            bx4: nat, by4: nat)
    requires f.Valid() && forall k | 0 <= k < |sbs| :: BlockTree.Inside(f, sbs[k].x, sbs[k].y)
  {
    exists k :: 0 <= k < |sbs| && CodedIn(f, root, sbs[k], skip(k), bx4, by4)
  }

  lemma SomeCodedStep(f: BlockTree.Frame, root: BlockTree.Level, sbs: seq<Superblock>, skip: nat -> nat -> bool,
                      bx4: nat, by4: nat)
    requires f.Valid() && (forall k | 0 <= k < |sbs| :: BlockTree.Inside(f, sbs[k].x, sbs[k].y)) && sbs != []
    ensures var n := |sbs| - 1;
            (SomeCoded(f, root, sbs, skip, bx4, by4)
             <==> SomeCoded(f, root, sbs[..n], skip, bx4, by4) || CodedIn(f, root, sbs[n], skip(n), bx4, by4))
  {
    hide CodedIn, BlockTree.Inside;
    var n := |sbs| - 1;
    if k :| 0 <= k < n && CodedIn(f, root, sbs[k], skip(k), bx4, by4) {
      assert sbs[..n][k] == sbs[k];
    }
  }

  lemma FirstInArea(f: BlockTree.Frame, root: BlockTree.Level, sbs: seq<Superblock>, ax: nat, ay: nat)
    requires InArea(f, root, sbs, ax, ay) && sbs != []
    ensures f.Valid() && root <= 1 && OfArea(f, root, sbs[|sbs| - 1], ax, ay)
    ensures InArea(f, root, sbs[..|sbs| - 1], ax, ay)
  {
  }

  lemma {:induction false} AreaHasCoefficients(f: BlockTree.Frame, root: BlockTree.Level, sbs: seq<Superblock>,
                                               skip: nat -> nat -> bool, idx: nat -> nat -> nat, ax: nat, ay: nat,
                                               bx4: nat, by4: nat)
    requires InArea(f, root, sbs, ax, ay) && (forall k, i :: idx(k)(i) < 8)
    requires forall k | 0 <= k < |sbs| :: BlockTree.Inside(f, sbs[k].x, sbs[k].y)
    requires bx4 / 32 == ax && by4 / 32 == ay
    ensures LoopFilterMask.HasCoefficients(AreaBlocks(f, root, sbs, skip, idx), bx4 % 32, by4 % 32)
       <==> SomeCoded(f, root, sbs, skip, bx4, by4)
    decreases |sbs|
  {
    if sbs != [] {
      var n := |sbs| - 1;
      FirstInArea(f, root, sbs, ax, ay);
      SomeCodedStep(f, root, sbs, skip, bx4, by4);
      AreaBlocksStep(f, root, sbs, n, skip, idx);
      assert sbs[..n + 1] == sbs;
      hide InArea, OfArea, CodedIn, SomeCoded, AreaBlocks, BlocksOf, LoopFilterMask.HasCoefficients, BlockTree.Inside;
      AreaHasCoefficients(f, root, sbs[..n], skip, idx, ax, ay, bx4, by4);
      SuperblockIsCoded(f, root, sbs[n], ax, ay, skip(n), idx(n), bx4, by4);
      CoefficientsAppend(AreaBlocks(f, root, sbs[..n], skip, idx), BlocksOf(f, root, sbs[n], skip(n), idx(n)),
                         bx4 % 32, by4 % 32);
    }
  }

  /** From the bitstream to CDEF's test: it is true of an 8x8 position exactly when some superblock of the
      area has a block that is not skipped and has a cell there. */
  lemma AreaIsCoded(w: LoopFilterMask.MaskWriter, f: BlockTree.Frame, root: BlockTree.Level, sbs: seq<Superblock>,
                    skip: nat -> nat -> bool, idx: nat -> nat -> nat, ax: nat, ay: nat, bx4: nat, by4: nat)
    requires InArea(f, root, sbs, ax, ay) && (forall k, i :: idx(k)(i) < 8)
    requires forall k | 0 <= k < |sbs| :: BlockTree.Inside(f, sbs[k].x, sbs[k].y)
    requires w.Valid() && w.done == AreaBlocks(f, root, sbs, skip, idx)
    requires bx4 / 32 == ax && by4 / 32 == ay
    ensures LoopFilterMask.Coded(w.View(), bx4, by4)
       <==> SomeCoded(f, root, sbs, skip, bx4, by4)
  {
    hide InArea, AreaBlocks, CodedIn, LoopFilterMask.HasCoefficients;
    AreaHasCoefficients(f, root, sbs, skip, idx, ax, ay, bx4, by4);
    LoopFilterMask.CodedMeansCoefficients(w, bx4 % 32, by4 % 32);
    SameArea(w.View(), bx4, by4);
  }

  // ----- What CDEF makes of it -----

  /** The masks CDEF gets are those that decoding a row of 128x128 areas has recorded. */
  ghost predicate Recorded(f: CdefApply.FrameInfo, lf: seq<LoopFilterMask.Av1Filter>,
                           ws: seq<LoopFilterMask.MaskWriter>)
    reads set w | w in ws :: w, set w | w in ws :: w.cdefIdx, set w | w in ws :: w.noskip
  {
    |ws| == |lf| == f.sb128w && forall i | 0 <= i < |ws| :: ws[i].Valid() && lf[i] == ws[i].View()
  }

  /** The blocks of the area block (y, x) lies in, and its cell there. */
  ghost predicate HasCoefficients(ws: seq<LoopFilterMask.MaskWriter>, y: nat, x: nat)
    requires x / 16 < |ws|
    reads ws[x / 16]
  {
    LoopFilterMask.HasCoefficients(ws[x / 16].done, 2 * x % 32, 2 * y % 32)
  }

  ghost function FirstIdx(ws: seq<LoopFilterMask.MaskWriter>, y: nat, x: nat): int
    requires x / 16 < |ws|
    reads ws[x / 16]
  {
    LoopFilterMask.FirstIdx(ws[x / 16].done, LoopFilterMask.UnitOf(2 * x % 32, 2 * y % 32))
  }

  lemma RecordedIsValid(f: CdefApply.FrameInfo, lf: seq<LoopFilterMask.Av1Filter>, ws: seq<LoopFilterMask.MaskWriter>)
    requires Recorded(f, lf, ws)
    ensures CdefApply.ValidMasks(f, lf)
  {
    forall i | 0 <= i < |lf| ensures lf[i].Valid() {
      LoopFilterMask.ViewIsValid(ws[i]);
    }
  }

  /** Whatever blocks were decoded, CDEF filters exactly the 8x8 blocks with a cell in a block that is not
      skipped, with the levels of the first such block of their 64x64 unit. */
  lemma LevelsFollowBlocks(f: CdefApply.FrameInfo, lf: seq<LoopFilterMask.Av1Filter>,
                           ws: seq<LoopFilterMask.MaskWriter>, y: nat, x: nat)
    requires f.Valid() && Recorded(f, lf, ws) && x < f.Cols()
    ensures CdefApply.ValidMasks(f, lf)
    ensures HasCoefficients(ws, y, x) ==> 0 <= FirstIdx(ws, y, x) < 8
    ensures CdefApply.Levels(f, lf, y, x)
         == if HasCoefficients(ws, y, x) then (f.yStrength[FirstIdx(ws, y, x)], f.uvStrength[FirstIdx(ws, y, x)])
            else (0, 0)
    ensures forall pl: nat :: HasCoefficients(ws, y, x) ==>
              CdefApply.Level(f, lf, pl, y, x)
                == (if pl == 0 then f.yStrength else f.uvStrength)[FirstIdx(ws, y, x)]
  {
    RecordedIsValid(f, lf, ws);
    var w, bx4, by4 := ws[x / 16], 2 * x % 32, 2 * y % 32;
    LoopFilterMask.CodedMeansCoefficients(w, bx4, by4);
    SameArea(lf[x / 16], 2 * x, 2 * y);
    if HasCoefficients(ws, y, x) {
      LoopFilterMask.CodedHasIndex(w, bx4, by4);
    }
    hide LoopFilterMask.Coded, LoopFilterMask.HasCoefficients, LoopFilterMask.FirstIdx, LoopFilterMask.UnitOf;
  }

  /** Positions are taken within their area. */
  lemma SameArea(m: LoopFilterMask.Av1Filter, bx4: nat, by4: nat)
    requires |m.noskip| == 16
    ensures LoopFilterMask.Coded(m, bx4, by4) == LoopFilterMask.Coded(m, bx4 % 32, by4 % 32)
    ensures LoopFilterMask.UnitOf(bx4, by4) == LoopFilterMask.UnitOf(bx4 % 32, by4 % 32)
  {
    hide LoopFilterMask.Pair;
    assert bx4 % 32 % 32 == bx4 % 32 && by4 % 32 % 32 == by4 % 32;
    HalvesOfArea(bx4);
    HalvesOfArea(by4);
  }

  lemma HalvesOfArea(n: nat)
    ensures n / 16 % 2 == n % 32 / 16 % 2
  {
    assert n == 32 * (n / 32) + n % 32;
    assert n / 16 == 2 * (n / 32) + n % 32 / 16;
  }

  /** A pixel of an 8x8 block without coefficients is left as it was. */
  lemma OnlyCodedIsFiltered(f: CdefApply.FrameInfo, dsp: CdefApply.Dsp, lf: seq<LoopFilterMask.Av1Filter>,
                            ws: seq<LoopFilterMask.MaskWriter>, o: CdefApply.Image, pl: nat, r: nat, c: nat)
    requires f.Valid() && Recorded(f, lf, ws) && f.InPlane(pl, r, c)
    ensures CdefApply.ValidMasks(f, lf)
    ensures var y, x := CdefApply.BlockRow(f, pl, r), CdefApply.BlockCol(f, pl, c);
            x < f.Cols()
            && (!HasCoefficients(ws, y, x) ==> CdefApply.FilteredPixel(f, dsp, lf, o, pl, r, c) == o(pl, r, c))
  {
    RecordedIsValid(f, lf, ws);
    var y, x := CdefApply.BlockRow(f, pl, r), CdefApply.BlockCol(f, pl, c);
    assert x < f.Cols();
    LevelsFollowBlocks(f, lf, ws, y, x);
    hide HasCoefficients, FirstIdx, CdefApply.Levels;
  }
}
