/** The recursive partition of a superblock into blocks, in its two modes: the first pass reads
    partition symbols and records what it decoded at the origin of every block; the second pass has
    only those records to go by. */
module BlockTree {

  /** Block levels run from 0 (128x128) to 4 (8x8). */
  type Level = l: nat | l <= 4

  const BL_8X8: Level := 4

  datatype Partition = PNone | PH | PV | PSplit | PTTop | PTBottom | PTLeft | PTRight | PH4 | PV4

  const PARTITIONS: seq<Partition> := [PNone, PH, PV, PSplit, PTTop, PTBottom, PTLeft, PTRight, PH4, PV4]

  /** How many partition symbols a level has: no four-way strips at 128x128, and only the first four
      partitions at 8x8. */
  function PartitionCount(bl: Level): (n: nat)
    ensures 4 <= n <= 10
  {
    if bl == 0 then 8 else if bl == BL_8X8 then 4 else 10
  }

  /** Half the side of a square of level `bl`, in units of 4 pixels. */
  function Hsz(bl: Level): (h: nat)
    ensures h >= 1
    ensures bl < BL_8X8 ==> h % 2 == 0
  {
    if bl == 0 then 16 else if bl == 1 then 8 else if bl == 2 then 4 else if bl == 3 then 2 else 1
  }

  /** A decoded block: the level and partition it is recorded under, its origin and its size. */
  datatype Block = Block(bl: Level, bp: Partition, x: nat, y: nat, w: nat, h: nat)

  /** The frame size in units of 4 pixels, whether chroma is 4:2:2, and which blocks fail to decode in the
      pass at hand. The passes have different reasons to fail, so each has its own such predicate. */
  datatype Frame = Frame(bw: nat, bh: nat, is422: bool, fails: Block -> bool) {
    ghost predicate Valid() { bw % 2 == 0 && bh % 2 == 0 }

    /** The same frame in another pass. */
    ghost predicate Like(g: Frame) { bw == g.bw && bh == g.bh && is422 == g.is422 }
  }

  datatype Record = Record(bl: Level, bp: Partition)

  /** The records of the first pass, by block origin. */
  type Records = map<(nat, nat), Record>

  function Lookup(b: Records, x: nat, y: nat): Record {
    if (x, y) in b then b[(x, y)] else Record(0, PNone)
  }

  /** Where the partitions come from: an arbitrary stream of symbols, or the records. */
  datatype Source = Symbols(stream: nat -> nat) | Replay(b: Records)

  /** The outcome of a walk: 0 or an error code, the blocks decoded, and the symbols consumed so far. */
  datatype Outcome = Outcome(code: int, blocks: seq<Block>, pos: nat)

  /** The blocks of a partition other than a split into squares. The last strip of a four-way partition
      is left out when it starts outside the frame. */
  function PartitionBlocks(f: Frame, bl: Level, x: nat, y: nat, bp: Partition): seq<Block> {
    var h := Hsz(bl);
    match bp
    case PNone => [Block(bl, bp, x, y, 2 * h, 2 * h)]
    case PH => [Block(bl, bp, x, y, 2 * h, h), Block(bl, bp, x, y + h, 2 * h, h)]
    case PV => [Block(bl, bp, x, y, h, 2 * h), Block(bl, bp, x + h, y, h, 2 * h)]
    case PSplit => [Block(bl, bp, x, y, h, h), Block(bl, bp, x + h, y, h, h),
                    Block(bl, bp, x, y + h, h, h), Block(bl, bp, x + h, y + h, h, h)]
    case PTTop => [Block(bl, bp, x, y, h, h), Block(bl, bp, x + h, y, h, h), Block(bl, bp, x, y + h, 2 * h, h)]
    case PTBottom => [Block(bl, bp, x, y, 2 * h, h), Block(bl, bp, x, y + h, h, h), Block(bl, bp, x + h, y + h, h, h)]
    case PTLeft => [Block(bl, bp, x, y, h, h), Block(bl, bp, x, y + h, h, h), Block(bl, bp, x + h, y, h, 2 * h)]
    case PTRight => [Block(bl, bp, x, y, h, 2 * h), Block(bl, bp, x + h, y, h, h), Block(bl, bp, x + h, y + h, h, h)]
    case PH4 =>
      [Block(bl, bp, x, y, 2 * h, h / 2), Block(bl, bp, x, y + h / 2, 2 * h, h / 2),
       Block(bl, bp, x, y + h / 2 * 2, 2 * h, h / 2)]
      + if y + h / 2 * 3 < f.bh then [Block(bl, bp, x, y + h / 2 * 3, 2 * h, h / 2)] else []
    case PV4 =>
      [Block(bl, bp, x, y, h / 2, 2 * h), Block(bl, bp, x + h / 2, y, h / 2, 2 * h),
       Block(bl, bp, x + h / 2 * 2, y, h / 2, 2 * h)]
      + if x + h / 2 * 3 < f.bw then [Block(bl, bp, x + h / 2 * 3, y, h / 2, 2 * h)] else []
  }

  /** What happens at a square: blocks, smaller squares, or a stream error. */
  datatype Decision = Leaves(blocks: seq<Block>) | Squares(at: seq<(nat, nat)>) | Invalid

  /** A position a square may start at. Frames have even sizes, so every square starts at an even position. */
  predicate Inside(f: Frame, x: nat, y: nat) {
    x < f.bw && y < f.bh && x % 2 == 0 && y % 2 == 0
  }

  /** The corners of the four quarters of a square, in coding order. */
  function Quarters(x: nat, y: nat, h: nat): (at: seq<(nat, nat)>)
    ensures |at| == 4
  {
    [(x, y), (x + h, y), (x, y + h), (x + h, y + h)]
  }

  /** The decision at the square of level `bl` whose corner is (x, y), and the number of symbols read. */
  function Decide(f: Frame, src: Source, bl: Level, x: nat, y: nat, pos: nat): (Decision, nat)
    requires f.Valid() && Inside(f, x, y)
  {
    var h := Hsz(bl);
    var haveH, haveV := f.bw > x + h, f.bh > y + h;
    if !haveH && !haveV then (Squares([(x, y)]), pos)
    else if haveH && haveV then
      var r := Lookup(if src.Replay? then src.b else map[], x, y);
      var bp := if src.Replay? then (if r.bl == bl then r.bp else PSplit)
                else PARTITIONS[src.stream(pos) % PartitionCount(bl)];
      var next := if src.Replay? then pos else pos + 1;
      if src.Symbols? && f.is422 && (bp == PV || bp == PV4 || bp == PTLeft || bp == PTRight) then (Invalid, next)
      else if bp == PSplit && bl < BL_8X8 then (Squares(Quarters(x, y, h)), next)
      else (Leaves(PartitionBlocks(f, bl, x, y, bp)), next)
    else if haveH then
      var split := if src.Replay? then Lookup(src.b, x, y).bl != bl else src.stream(pos) % 2 == 1;
      var next := if src.Replay? then pos else pos + 1;
      if split then (Squares([(x, y), (x + h, y)]), next)
      else (Leaves([Block(bl, PH, x, y, 2 * h, h)]), next)
    else
      var split := if src.Replay? then Lookup(src.b, x, y).bl != bl else src.stream(pos) % 2 == 1;
      var next := if src.Replay? then pos else pos + 1;
      if src.Symbols? && f.is422 && !split then (Invalid, next)
      else if split then (Squares([(x, y), (x, y + h)]), next)
      else (Leaves([Block(bl, PV, x, y, h, 2 * h)]), next)
  }

  /** Every square that a decision leads to starts inside the frame; none is smaller than 8x8. */
  lemma SquaresInFrame(f: Frame, src: Source, bl: Level, x: nat, y: nat, pos: nat)
    requires f.Valid() && Inside(f, x, y) && Decide(f, src, bl, x, y, pos).0.Squares?
    ensures bl < BL_8X8 && |Decide(f, src, bl, x, y, pos).0.at| > 0
    ensures forall i | 0 <= i < |Decide(f, src, bl, x, y, pos).0.at| ::
              Inside(f, Decide(f, src, bl, x, y, pos).0.at[i].0, Decide(f, src, bl, x, y, pos).0.at[i].1)
  {
    hide PartitionBlocks, Lookup;
  }

  /** Decodes a list of blocks until one fails. */
  function WalkBlocks(f: Frame, bs: seq<Block>, pos: nat): Outcome {
    if bs == [] then Outcome(0, [], pos)
    else if f.fails(bs[0]) then Outcome(-1, [bs[0]], pos)
    else
      var rest := WalkBlocks(f, bs[1..], pos);
      Outcome(rest.code, [bs[0]] + rest.blocks, rest.pos)
  }

  /** The whole walk of a square. */
  function Walk(f: Frame, src: Source, bl: Level, x: nat, y: nat, pos: nat): Outcome
    requires f.Valid() && Inside(f, x, y)
    decreases BL_8X8 - bl, 1, 0
  {
    var (d, next) := Decide(f, src, bl, x, y, pos);
    match d
    case Invalid => Outcome(1, [], next)
    case Leaves(bs) => WalkBlocks(f, bs, next)
    case Squares(at) =>
      SquaresInFrame(f, src, bl, x, y, pos);
      var o := WalkSquares(f, src, bl + 1, at, next);
      if |at| == 1 || o.code == 0 then o else o.(code := 1)
  }

  /** The walks of a list of squares of level `bl`, until one fails. */
  function WalkSquares(f: Frame, src: Source, bl: Level, at: seq<(nat, nat)>, pos: nat): Outcome
    requires f.Valid() && forall i | 0 <= i < |at| :: Inside(f, at[i].0, at[i].1)
    decreases BL_8X8 - bl, 2, |at|
  {
    if at == [] then Outcome(0, [], pos)
    else
      var first := Walk(f, src, bl, at[0].0, at[0].1, pos);
      if first.code != 0 then first
      else
        var rest := WalkSquares(f, src, bl, at[1..], first.pos);
        Outcome(rest.code, first.blocks + rest.blocks, rest.pos)
  }

  // ----- Coverage -----

  predicate Contains(b: Block, cx: int, cy: int) {
    b.x <= cx < b.x + b.w && b.y <= cy < b.y + b.h
  }

  predicate Disjoint(a: Block, b: Block) {
    a.x + a.w <= b.x || b.x + b.w <= a.x || a.y + a.h <= b.y || b.y + b.h <= a.y
  }

  predicate Within(b: Block, x: int, y: int, side: int) {
    x <= b.x && y <= b.y && b.x + b.w <= x + side && b.y + b.h <= y + side
  }

  /** Each block starts in the frame and lies in the square at (x, y), and no two overlap. */
  ghost predicate Placed(f: Frame, bs: seq<Block>, x: int, y: int, side: int) {
    && (forall i | 0 <= i < |bs| :: StartsInFrame(f, bs[i]) && Within(bs[i], x, y, side))
    && (forall i, j | 0 <= i < j < |bs| :: Disjoint(bs[i], bs[j]))
  }

  predicate StartsInFrame(f: Frame, b: Block) { b.x < f.bw && b.y < f.bh && b.w > 0 && b.h > 0 }

  /** The blocks tile the in-frame part of the square at (x, y): they are placed in it, and every 4x4 cell
      of the square that is in the frame lies in one. */
  ghost predicate Tiles(f: Frame, bs: seq<Block>, x: int, y: int, side: int) {
    && Placed(f, bs, x, y, side)
    && (forall cx, cy | x <= cx < x + side && y <= cy < y + side && cx < f.bw && cy < f.bh :: Covered(bs, cx, cy))
  }

  ghost predicate Covered(bs: seq<Block>, cx: int, cy: int) {
    exists i :: 0 <= i < |bs| && Contains(bs[i], cx, cy)
  }

  lemma PartitionFits(f: Frame, bl: Level, x: nat, y: nat, bp: Partition)
    requires f.Valid() && f.bw > x + Hsz(bl) && f.bh > y + Hsz(bl)
    requires bp == PH4 || bp == PV4 ==> bl < BL_8X8
    ensures Placed(f, PartitionBlocks(f, bl, x, y, bp), x, y, 2 * Hsz(bl))
  {
    PartitionInside(f, bl, x, y, bp);
    PartitionApart(f, bl, x, y, bp);
    hide Hsz, PartitionBlocks, Disjoint, StartsInFrame, Within;
  }

  lemma PartitionInside(f: Frame, bl: Level, x: nat, y: nat, bp: Partition)
    requires f.Valid() && f.bw > x + Hsz(bl) && f.bh > y + Hsz(bl)
    requires bp == PH4 || bp == PV4 ==> bl < BL_8X8
    ensures var bs := PartitionBlocks(f, bl, x, y, bp);
            forall i | 0 <= i < |bs| :: StartsInFrame(f, bs[i]) && Within(bs[i], x, y, 2 * Hsz(bl))
  {
    hide Hsz;
  }

  lemma PartitionApart(f: Frame, bl: Level, x: nat, y: nat, bp: Partition)
    requires bp == PH4 || bp == PV4 ==> bl < BL_8X8
    ensures var bs := PartitionBlocks(f, bl, x, y, bp);
            forall i, j | 0 <= i < j < |bs| :: Disjoint(bs[i], bs[j])
  {
    hide Hsz;
  }

  lemma PartitionCovers(f: Frame, bl: Level, x: nat, y: nat, bp: Partition, cx: int, cy: int)
    requires f.Valid() && f.bw > x + Hsz(bl) && f.bh > y + Hsz(bl)
    requires bp == PH4 || bp == PV4 ==> bl < BL_8X8
    requires x <= cx < x + 2 * Hsz(bl) && y <= cy < y + 2 * Hsz(bl) && cx < f.bw && cy < f.bh
    ensures Covered(PartitionBlocks(f, bl, x, y, bp), cx, cy)
  {
    var bs := PartitionBlocks(f, bl, x, y, bp);
    var n := |bs|;
    if Contains(bs[0], cx, cy) {
    } else if n > 1 && Contains(bs[1], cx, cy) {
    } else if n > 2 && Contains(bs[2], cx, cy) {
    } else {
      assert n > 3 && Contains(bs[3], cx, cy);
    }
  }

  lemma WholePartitionTiles(f: Frame, bl: Level, x: nat, y: nat, bp: Partition)
    requires f.Valid() && f.bw > x + Hsz(bl) && f.bh > y + Hsz(bl)
    requires bp == PH4 || bp == PV4 ==> bl < BL_8X8
    ensures Tiles(f, PartitionBlocks(f, bl, x, y, bp), x, y, 2 * Hsz(bl))
  {
    PartitionFits(f, bl, x, y, bp);
    hide PartitionBlocks, Covered, Placed;
    forall cx, cy | x <= cx < x + 2 * Hsz(bl) && y <= cy < y + 2 * Hsz(bl) && cx < f.bw && cy < f.bh
      ensures Covered(PartitionBlocks(f, bl, x, y, bp), cx, cy)
    {
      PartitionCovers(f, bl, x, y, bp, cx, cy);
    }
  }

  lemma LeavesTile(f: Frame, src: Source, bl: Level, x: nat, y: nat, pos: nat)
    requires f.Valid() && Inside(f, x, y) && Decide(f, src, bl, x, y, pos).0.Leaves?
    requires src.Symbols?
    ensures Tiles(f, Decide(f, src, bl, x, y, pos).0.blocks, x, y, 2 * Hsz(bl))
  {
    var h := Hsz(bl);
    if f.bw > x + h && f.bh > y + h {
      var bp := PARTITIONS[src.stream(pos) % PartitionCount(bl)];
      assert bp == PH4 || bp == PV4 ==> bl < BL_8X8;
      WholePartitionTiles(f, bl, x, y, bp);
    } else {
      var bs := Decide(f, src, bl, x, y, pos).0.blocks;
      assert |bs| == 1;
      forall cx, cy | x <= cx < x + 2 * h && y <= cy < y + 2 * h && cx < f.bw && cy < f.bh ensures Covered(bs, cx, cy) {
        assert Contains(bs[0], cx, cy);
      }
    }
  }

  ghost predicate WithinSome(b: Block, at: seq<(nat, nat)>, side: int) {
    exists k :: 0 <= k < |at| && Within(b, at[k].0, at[k].1, side)
  }

  ghost predicate InSome(cx: int, cy: int, at: seq<(nat, nat)>, side: int) {
    exists k :: 0 <= k < |at| && at[k].0 <= cx < at[k].0 + side && at[k].1 <= cy < at[k].1 + side
  }

  /** The same for a list of squares. */
  ghost predicate PlacedInSquares(f: Frame, bs: seq<Block>, at: seq<(nat, nat)>, side: int) {
    && (forall i | 0 <= i < |bs| :: StartsInFrame(f, bs[i]) && WithinSome(bs[i], at, side))
    && (forall i, j | 0 <= i < j < |bs| :: Disjoint(bs[i], bs[j]))
  }

  ghost predicate TilesSquares(f: Frame, bs: seq<Block>, at: seq<(nat, nat)>, side: int) {
    && PlacedInSquares(f, bs, at, side)
    && (forall cx, cy | InSome(cx, cy, at, side) && cx < f.bw && cy < f.bh :: Covered(bs, cx, cy))
  }

  ghost predicate Apart(at: seq<(nat, nat)>, side: int) {
    forall j, k | 0 <= j < k < |at| ::
      at[j].0 + side <= at[k].0 || at[k].0 + side <= at[j].0 || at[j].1 + side <= at[k].1 || at[k].1 + side <= at[j].1
  }

  lemma CoveredAppend(as_: seq<Block>, bs: seq<Block>, cx: int, cy: int)
    requires Covered(as_, cx, cy) || Covered(bs, cx, cy)
    ensures Covered(as_ + bs, cx, cy)
  {
    if Covered(as_, cx, cy) {
      var i :| 0 <= i < |as_| && Contains(as_[i], cx, cy);
      assert (as_ + bs)[i] == as_[i];
    } else {
      var i :| 0 <= i < |bs| && Contains(bs[i], cx, cy);
      assert (as_ + bs)[|as_| + i] == bs[i];
    }
  }

  /** Blocks of separate squares do not overlap. */
  lemma SeparateBlocks(a: Block, b: Block, at: seq<(nat, nat)>, side: int)
    requires |at| > 0 && Apart(at, side) && Within(a, at[0].0, at[0].1, side) && WithinSome(b, at[1..], side)
    ensures Disjoint(a, b)
  {
    var k :| 0 <= k < |at[1..]| && Within(b, at[1..][k].0, at[1..][k].1, side);
    assert at[1..][k] == at[k + 1];
  }

  lemma JoinPlaced(f: Frame, as_: seq<Block>, bs: seq<Block>, at: seq<(nat, nat)>, side: int)
    requires |at| > 0 && Apart(at, side)
    requires Placed(f, as_, at[0].0, at[0].1, side) && PlacedInSquares(f, bs, at[1..], side)
    ensures PlacedInSquares(f, as_ + bs, at, side)
  {
    var cs := as_ + bs;
    forall i | 0 <= i < |cs| ensures WithinSome(cs[i], at, side) {
      if i < |as_| {
        assert Within(cs[i], at[0].0, at[0].1, side);
      } else {
        var k :| 0 <= k < |at[1..]| && Within(bs[i - |as_|], at[1..][k].0, at[1..][k].1, side);
        assert Within(cs[i], at[k + 1].0, at[k + 1].1, side);
      }
    }
    forall i, j | 0 <= i < j < |cs| ensures Disjoint(cs[i], cs[j]) {
      if i < |as_| <= j {
        SeparateBlocks(as_[i], bs[j - |as_|], at, side);
      }
    }
  }

  lemma JoinTiles(f: Frame, as_: seq<Block>, bs: seq<Block>, at: seq<(nat, nat)>, side: int)
    requires |at| > 0 && Apart(at, side)
    requires Tiles(f, as_, at[0].0, at[0].1, side) && TilesSquares(f, bs, at[1..], side)
    ensures TilesSquares(f, as_ + bs, at, side)
  {
    JoinPlaced(f, as_, bs, at, side);
    hide Placed, PlacedInSquares, Apart, Covered;
    forall cx, cy | InSome(cx, cy, at, side) && cx < f.bw && cy < f.bh ensures Covered(as_ + bs, cx, cy) {
      var k :| 0 <= k < |at| && at[k].0 <= cx < at[k].0 + side && at[k].1 <= cy < at[k].1 + side;
      if k > 0 {
        assert at[1..][k - 1] == at[k];
        assert InSome(cx, cy, at[1..], side);
      }
      CoveredAppend(as_, bs, cx, cy);
    }
  }

  /** The squares of a decision are apart, lie in the larger square and cover its in-frame part. */
  lemma SquaresSplit(f: Frame, src: Source, bl: Level, x: nat, y: nat, pos: nat)
    requires f.Valid() && Inside(f, x, y) && Decide(f, src, bl, x, y, pos).0.Squares?
    ensures var at := Decide(f, src, bl, x, y, pos).0.at;
            && Apart(at, Hsz(bl))
            && (forall k | 0 <= k < |at| :: x <= at[k].0 && y <= at[k].1
                                            && at[k].0 + Hsz(bl) <= x + 2 * Hsz(bl)
                                            && at[k].1 + Hsz(bl) <= y + 2 * Hsz(bl))
            && (forall cx, cy | x <= cx < x + 2 * Hsz(bl) && y <= cy < y + 2 * Hsz(bl) && cx < f.bw && cy < f.bh ::
                  InSome(cx, cy, at, Hsz(bl)))
  {
    hide PartitionBlocks, Lookup;
    var h := Hsz(bl);
    var at := Decide(f, src, bl, x, y, pos).0.at;
    assert at[0] == (x, y);
    forall cx, cy | x <= cx < x + 2 * h && y <= cy < y + 2 * h && cx < f.bw && cy < f.bh ensures InSome(cx, cy, at, h) {
      var k := if |at| == 1 then 0
               else if |at| == 4 then (if cx < x + h then 0 else 1) + (if cy < y + h then 0 else 2)
               else if f.bw > x + h then (if cx < x + h then 0 else 1) else (if cy < y + h then 0 else 1);
      assert at[k].0 <= cx < at[k].0 + h && at[k].1 <= cy < at[k].1 + h;
    }
  }

  /** A walk that succeeds passes its blocks on unchanged. */
  lemma {:induction false} WalkBlocksSucceeds(f: Frame, bs: seq<Block>, pos: nat)
    requires WalkBlocks(f, bs, pos).code == 0
    ensures WalkBlocks(f, bs, pos).blocks == bs && WalkBlocks(f, bs, pos).pos == pos
  {
    if bs != [] {
      WalkBlocksSucceeds(f, bs[1..], pos);
    }
  }

  /** However the walk of a list of blocks ends, it decodes a prefix of the list. */
  lemma {:induction false} WalkBlocksPrefix(f: Frame, bs: seq<Block>, pos: nat)
    ensures WalkBlocks(f, bs, pos).blocks <= bs
  {
    if bs != [] {
      WalkBlocksPrefix(f, bs[1..], pos);
    }
  }

  /** For every frame and every symbols, and however the walk of a square ends, each block that is decoded
      starts in the frame, lies in the square and overlaps no other. */
  lemma {:induction false} WalkPlaces(f: Frame, src: Source, bl: Level, x: nat, y: nat, pos: nat)
    requires f.Valid() && Inside(f, x, y) && src.Symbols?
    ensures Placed(f, Walk(f, src, bl, x, y, pos).blocks, x, y, 2 * Hsz(bl))
    decreases BL_8X8 - bl, 1, 0
  {
    hide PartitionBlocks, Decide, PlacedInSquares, Apart, Disjoint, StartsInFrame, Within;
    var (d, next) := Decide(f, src, bl, x, y, pos);
    if d.Leaves? {
      WalkBlocksPrefix(f, d.blocks, next);
      LeavesTile(f, src, bl, x, y, pos);
    } else if d.Squares? {
      SquaresInFrame(f, src, bl, x, y, pos);
      SquaresSplit(f, src, bl, x, y, pos);
      WalkSquaresPlace(f, src, bl + 1, d.at, next);
      SquaresPlacedInSquare(f, WalkSquares(f, src, bl + 1, d.at, next).blocks, d.at, x, y, Hsz(bl));
    }
  }

  lemma SquaresPlacedInSquare(f: Frame, bs: seq<Block>, at: seq<(nat, nat)>, x: int, y: int, h: int)
    requires PlacedInSquares(f, bs, at, h)
    requires forall k | 0 <= k < |at| ::
               x <= at[k].0 && y <= at[k].1 && at[k].0 + h <= x + 2 * h && at[k].1 + h <= y + 2 * h
    ensures Placed(f, bs, x, y, 2 * h)
  {
    forall i | 0 <= i < |bs| ensures Within(bs[i], x, y, 2 * h) {
      assert WithinSome(bs[i], at, h);
    }
  }

  /** The same for a list of squares that are apart. */
  lemma {:induction false} WalkSquaresPlace(f: Frame, src: Source, bl: Level, at: seq<(nat, nat)>, pos: nat)
    requires f.Valid() && src.Symbols? && forall i | 0 <= i < |at| :: Inside(f, at[i].0, at[i].1)
    requires Apart(at, 2 * Hsz(bl))
    ensures PlacedInSquares(f, WalkSquares(f, src, bl, at, pos).blocks, at, 2 * Hsz(bl))
    decreases BL_8X8 - bl, 2, |at|
  {
    if at != [] {
      var first := Walk(f, src, bl, at[0].0, at[0].1, pos);
      WalkPlaces(f, src, bl, at[0].0, at[0].1, pos);
      assert Apart(at[1..], 2 * Hsz(bl));
      if first.code != 0 {
        JoinPlaced(f, first.blocks, [], at, 2 * Hsz(bl));
        assert first.blocks + [] == first.blocks;
      } else {
        WalkSquaresPlace(f, src, bl, at[1..], first.pos);
        JoinPlaced(f, first.blocks, WalkSquares(f, src, bl, at[1..], first.pos).blocks, at, 2 * Hsz(bl));
      }
    }
  }

  /** A walk of the first pass that succeeds tiles the in-frame part of its square. */
  lemma {:induction false} WalkTiles(f: Frame, src: Source, bl: Level, x: nat, y: nat, pos: nat)
    requires f.Valid() && Inside(f, x, y) && src.Symbols?
    requires Walk(f, src, bl, x, y, pos).code == 0
    ensures Tiles(f, Walk(f, src, bl, x, y, pos).blocks, x, y, 2 * Hsz(bl))
    decreases BL_8X8 - bl, 1, 0
  {
    hide PartitionBlocks, Decide, Tiles, TilesSquares, Apart;
    var (d, next) := Decide(f, src, bl, x, y, pos);
    if d.Leaves? {
      WalkBlocksSucceeds(f, d.blocks, next);
      LeavesTile(f, src, bl, x, y, pos);
    } else {
      SquaresInFrame(f, src, bl, x, y, pos);
      SquaresSplit(f, src, bl, x, y, pos);
      var o := WalkSquares(f, src, bl + 1, d.at, next);
      WalkSquaresTile(f, src, bl + 1, d.at, next);
      SquaresTileSquare(f, o.blocks, d.at, x, y, Hsz(bl));
    }
  }

  lemma SquaresTileSquare(f: Frame, bs: seq<Block>, at: seq<(nat, nat)>, x: int, y: int, h: int)
    requires TilesSquares(f, bs, at, h)
    requires forall k | 0 <= k < |at| ::
               x <= at[k].0 && y <= at[k].1 && at[k].0 + h <= x + 2 * h && at[k].1 + h <= y + 2 * h
    requires forall cx, cy | x <= cx < x + 2 * h && y <= cy < y + 2 * h && cx < f.bw && cy < f.bh ::
               InSome(cx, cy, at, h)
    ensures Tiles(f, bs, x, y, 2 * h)
  {
    SquaresPlacedInSquare(f, bs, at, x, y, h);
  }

  lemma {:induction false} WalkSquaresTile(f: Frame, src: Source, bl: Level, at: seq<(nat, nat)>, pos: nat)
    requires f.Valid() && src.Symbols? && forall i | 0 <= i < |at| :: Inside(f, at[i].0, at[i].1)
    requires Apart(at, 2 * Hsz(bl)) && WalkSquares(f, src, bl, at, pos).code == 0
    ensures TilesSquares(f, WalkSquares(f, src, bl, at, pos).blocks, at, 2 * Hsz(bl))
    decreases BL_8X8 - bl, 2, |at|
  {
    if at != [] {
      hide Tiles, TilesSquares;
      var first := Walk(f, src, bl, at[0].0, at[0].1, pos);
      WalkTiles(f, src, bl, at[0].0, at[0].1, pos);
      assert Apart(at[1..], 2 * Hsz(bl));
      WalkSquaresTile(f, src, bl, at[1..], first.pos);
      JoinTiles(f, first.blocks, WalkSquares(f, src, bl, at[1..], first.pos).blocks, at, 2 * Hsz(bl));
    }
  }

  // ----- The second pass repeats the first -----

  ghost predicate Recorded(b: Records, bs: seq<Block>) {
    forall i | 0 <= i < |bs| :: (bs[i].x, bs[i].y) in b && b[(bs[i].x, bs[i].y)] == Record(bs[i].bl, bs[i].bp)
  }

  /** The records after a list of blocks has been decoded. */
  function RecordAll(b: Records, bs: seq<Block>): Records {
    if bs == [] then b
    else
      var last := bs[|bs| - 1];
      RecordAll(b, bs[..|bs| - 1])[(last.x, last.y) := Record(last.bl, last.bp)]
  }

  /** Blocks that tile an area have different origins, so no record is overwritten. */
  lemma {:induction false} TilesAreRecorded(b: Records, bs: seq<Block>)
    requires forall i | 0 <= i < |bs| :: bs[i].w > 0 && bs[i].h > 0
    requires forall i, j | 0 <= i < j < |bs| :: Disjoint(bs[i], bs[j])
    ensures Recorded(RecordAll(b, bs), bs)
  {
    if bs != [] {
      var n := |bs| - 1;
      TilesAreRecorded(b, bs[..n]);
      forall i | 0 <= i < n ensures (bs[i].x, bs[i].y) != (bs[n].x, bs[n].y) {
        assert Disjoint(bs[i], bs[n]);
      }
    }
  }

  /** The first block of a successful walk starts at the corner of the square; its level tells whether
      the square was divided. */
  lemma {:induction false} FirstBlock(f: Frame, src: Source, bl: Level, x: nat, y: nat, pos: nat)
    requires f.Valid() && Inside(f, x, y) && src.Symbols?
    requires Walk(f, src, bl, x, y, pos).code == 0
    ensures var (d, bs) := (Decide(f, src, bl, x, y, pos).0, Walk(f, src, bl, x, y, pos).blocks);
            && |bs| > 0 && bs[0].x == x && bs[0].y == y
            && (if d.Leaves? then bs == d.blocks && bs[0].bl == bl else bs[0].bl > bl)
    decreases BL_8X8 - bl
  {
    var (d, next) := Decide(f, src, bl, x, y, pos);
    if d.Leaves? {
      WalkBlocksSucceeds(f, d.blocks, next);
    } else {
      SquaresInFrame(f, src, bl, x, y, pos);
      assert d.at[0] == (x, y);
      FirstBlock(f, src, bl + 1, x, y, next);
    }
  }

  /** Reading the level and partition of the first block is enough to repeat a decision. */
  lemma DecisionRepeats(f: Frame, g: Frame, src: Source, b: Records, bl: Level, x: nat, y: nat, pos: nat, pos2: nat)
    requires f.Valid() && f.Like(g) && Inside(f, x, y) && src.Symbols?
    requires Walk(f, src, bl, x, y, pos).code == 0
    requires Recorded(b, Walk(f, src, bl, x, y, pos).blocks)
    ensures Decide(g, Replay(b), bl, x, y, pos2) == (Decide(f, src, bl, x, y, pos).0, pos2)
  {
    FirstBlock(f, src, bl, x, y, pos);
    hide Walk;
    var (d, next) := Decide(f, src, bl, x, y, pos);
    var first := Walk(f, src, bl, x, y, pos).blocks[0];
    assert Lookup(b, x, y) == Record(first.bl, first.bp);
  }

  lemma RecordedParts(b: Records, as_: seq<Block>, bs: seq<Block>)
    requires Recorded(b, as_ + bs)
    ensures Recorded(b, as_) && Recorded(b, bs)
  {
    forall i | 0 <= i < |as_|
      ensures (as_[i].x, as_[i].y) in b && b[(as_[i].x, as_[i].y)] == Record(as_[i].bl, as_[i].bp) {
      assert (as_ + bs)[i] == as_[i];
    }
    forall i | 0 <= i < |bs| ensures (bs[i].x, bs[i].y) in b && b[(bs[i].x, bs[i].y)] == Record(bs[i].bl, bs[i].bp) {
      assert (as_ + bs)[|as_| + i] == bs[i];
    }
  }

  lemma {:induction false} WalkBlocksPos(f: Frame, bs: seq<Block>, p: nat, q: nat)
    ensures WalkBlocks(f, bs, q) == WalkBlocks(f, bs, p).(pos := q)
    ensures WalkBlocks(f, bs, p).pos == p
  {
    if bs != [] {
      WalkBlocksPos(f, bs[1..], p, q);
    }
  }

  /** A list of blocks is decoded up to its first failure, which may be in its second part only if the
      first part has none. */
  lemma {:induction false} WalkBlocksAppend(f: Frame, as_: seq<Block>, bs: seq<Block>, pos: nat)
    ensures var (o, p) := (WalkBlocks(f, as_, pos), WalkBlocks(f, bs, pos));
            WalkBlocks(f, as_ + bs, pos) == if o.code != 0 then o else Outcome(p.code, as_ + p.blocks, p.pos)
  {
    if as_ == [] {
      assert as_ + bs == bs;
      assert [] + WalkBlocks(f, bs, pos).blocks == WalkBlocks(f, bs, pos).blocks;
    } else {
      WalkBlocksAppend(f, as_[1..], bs, pos);
      WalkBlocksPos(f, as_[1..], pos, pos);
      assert (as_ + bs)[1..] == as_[1..] + bs;
      var p := WalkBlocks(f, bs, pos).blocks;
      assert [as_[0]] + (as_[1..] + p) == as_ + p;
      if WalkBlocks(f, as_, pos).code == 0 {
        WalkBlocksSucceeds(f, as_, pos);
      }
    }
  }

  /** The outcome `o` is that of decoding the list `bs` and nothing else: it ends at the first failing
      block, and has read no symbol. Error codes may differ. */
  ghost predicate Follows(g: Frame, o: Outcome, bs: seq<Block>, pos: nat) {
    var p := WalkBlocks(g, bs, pos);
    o.blocks == p.blocks && o.pos == pos && (o.code == 0 <==> p.code == 0)
  }

  /** A square replayed from records that agree with its blocks decodes just these, in the same order, up to
      the first that fails in this pass, and reads no symbol. */
  lemma {:induction false} ReplaySquare(f: Frame, g: Frame, src: Source, b: Records, bl: Level, x: nat, y: nat,
                                       pos: nat, pos2: nat)
    requires f.Valid() && f.Like(g) && Inside(f, x, y) && src.Symbols?
    requires Walk(f, src, bl, x, y, pos).code == 0
    requires Recorded(b, Walk(f, src, bl, x, y, pos).blocks)
    ensures Follows(g, Walk(g, Replay(b), bl, x, y, pos2), Walk(f, src, bl, x, y, pos).blocks, pos2)
    decreases BL_8X8 - bl, 1, 0
  {
    DecisionRepeats(f, g, src, b, bl, x, y, pos, pos2);
    hide Decide;
    var (d, next) := Decide(f, src, bl, x, y, pos);
    if d.Leaves? {
      WalkBlocksSucceeds(f, d.blocks, next);
      WalkBlocksPos(g, d.blocks, pos2, pos2);
    } else {
      SquaresInFrame(f, src, bl, x, y, pos);
      ReplaySquares(f, g, src, b, bl + 1, d.at, next, pos2);
    }
  }

  lemma {:induction false} ReplaySquares(f: Frame, g: Frame, src: Source, b: Records, bl: Level, at: seq<(nat, nat)>,
                                        pos: nat, pos2: nat)
    requires f.Valid() && f.Like(g) && src.Symbols? && forall i | 0 <= i < |at| :: Inside(f, at[i].0, at[i].1)
    requires WalkSquares(f, src, bl, at, pos).code == 0
    requires Recorded(b, WalkSquares(f, src, bl, at, pos).blocks)
    ensures Follows(g, WalkSquares(g, Replay(b), bl, at, pos2), WalkSquares(f, src, bl, at, pos).blocks, pos2)
    decreases BL_8X8 - bl, 2, |at|
  {
    if at != [] {
      hide Decide, Walk;
      var first := Walk(f, src, bl, at[0].0, at[0].1, pos);
      var rest := WalkSquares(f, src, bl, at[1..], first.pos);
      RecordedParts(b, first.blocks, rest.blocks);
      ReplaySquare(f, g, src, b, bl, at[0].0, at[0].1, pos, pos2);
      ReplaySquares(f, g, src, b, bl, at[1..], first.pos, pos2);
      WalkBlocksAppend(g, first.blocks, rest.blocks, pos2);
      if WalkBlocks(g, first.blocks, pos2).code == 0 {
        WalkBlocksSucceeds(g, first.blocks, pos2);
      }
    }
  }

  /** The walk of the first squares of a list gives the first blocks of its walk. */
  lemma {:induction false} WalkFirstSquares(f: Frame, src: Source, bl: Level, at: seq<(nat, nat)>, m: nat, pos: nat)
    requires f.Valid() && (forall i | 0 <= i < |at| :: Inside(f, at[i].0, at[i].1)) && m <= |at|
    requires WalkSquares(f, src, bl, at, pos).code == 0
    ensures WalkSquares(f, src, bl, at[..m], pos).code == 0
    ensures WalkSquares(f, src, bl, at[..m], pos).blocks <= WalkSquares(f, src, bl, at, pos).blocks
    decreases m
  {
    if m > 0 {
      hide Walk;
      var first := Walk(f, src, bl, at[0].0, at[0].1, pos);
      assert at[..m][1..] == at[1..][..m - 1];
      WalkFirstSquares(f, src, bl, at[1..], m - 1, first.pos);
    }
  }

  /** For any symbols, any frame and any separate superblocks in any order, and whatever fails in either
      pass: if the first pass succeeds, then the second pass over the first `m` superblocks, given only the
      records the first one left (over whatever was in the buffer before), decodes exactly the blocks the
      first one decoded there, in the same order, up to and including the first that fails in it. */
  lemma SecondPassRepeatsFirst(f: Frame, g: Frame, src: Source, before: Records, root: Level, at: seq<(nat, nat)>,
                               m: nat)
    requires f.Valid() && f.Like(g) && src.Symbols? && forall i | 0 <= i < |at| :: Inside(f, at[i].0, at[i].1)
    requires Apart(at, 2 * Hsz(root)) && m <= |at|
    requires WalkSquares(f, src, root, at, 0).code == 0
    ensures var (bs, part) := (WalkSquares(f, src, root, at, 0).blocks, WalkSquares(f, src, root, at[..m], 0).blocks);
            var o := WalkSquares(g, Replay(RecordAll(before, bs)), root, at[..m], 0);
            && o.blocks <= part <= bs && o.blocks == WalkBlocks(g, part, 0).blocks && o.pos == 0
            && (o.code == 0 <==> NoneFails(g, part)) && (o.code == 0 ==> o.blocks == part)
  {
    hide WalkSquares, Walk, RecordAll;
    var bs, part := WalkSquares(f, src, root, at, 0).blocks, WalkSquares(f, src, root, at[..m], 0).blocks;
    WalkSquaresTile(f, src, root, at, 0);
    TilesAreRecorded(before, bs);
    WalkFirstSquares(f, src, root, at, m, 0);
    RecordedParts(RecordAll(before, bs), part, bs[|part|..]);
    ReplaySquares(f, g, src, RecordAll(before, bs), root, at[..m], 0, 0);
    WalkBlocksPrefix(g, part, 0);
    WalkBlocksCode(g, part, 0);
  }

  lemma {:induction false} WalkBlocksCode(f: Frame, bs: seq<Block>, pos: nat)
    ensures WalkBlocks(f, bs, pos).code == 0 <==> NoneFails(f, bs)
    ensures NoneFails(f, bs) ==> WalkBlocks(f, bs, pos).blocks == bs
  {
    if NoneFails(f, bs) {
      NoneFailsWalk(f, bs, pos);
    } else {
      FirstFailure(f, bs, pos);
    }
  }

  lemma {:induction false} FirstFailure(f: Frame, bs: seq<Block>, pos: nat)
    requires !NoneFails(f, bs)
    ensures WalkBlocks(f, bs, pos).code != 0
  {
    if !f.fails(bs[0]) {
      FirstFailure(f, bs[1..], pos);
    }
  }

  /** How many of `n` superblocks are begun before the flush flag, which is read before each, is set. */
  function Begun(flush: nat -> bool, n: nat): (m: nat)
    ensures m <= n && (m < n ==> flush(m))
    ensures forall k | 0 <= k < m :: !flush(k)
  {
    if n == 0 then 0
    else
      var m := Begun(flush, n - 1);
      if m == n - 1 && !flush(n - 1) then n else m
  }

  // ----- The decoder -----

  /** The block decoder's state: position, symbols consumed, the record buffer, and which pass it is in.
      `visited` logs the blocks decoded. */
  class TaskContext {
    const f: Frame
    const stream: nat -> nat
    const secondPass: bool
    var bx: nat
    var by_: nat
    var pos: nat
    var b: Records
    ghost var visited: seq<Block>

    constructor (f: Frame, stream: nat -> nat, secondPass: bool, b: Records)
      ensures this.f == f && this.stream == stream && this.secondPass == secondPass
      ensures this.b == b && pos == 0 && visited == []
    {
      this.f, this.stream, this.secondPass := f, stream, secondPass;
      this.bx, this.by_, this.pos, this.b, this.visited := 0, 0, 0, b, [];
    }

    /** The first pass reads symbols, the second only the records. */
    ghost function Source(): Source
      reads this
    {
      if secondPass then Replay(b) else Symbols(stream)
    }

    /** The state after the blocks `bs` have been decoded, starting from records `b0` and log `v0`. */
    ghost predicate Decoded(b0: Records, v0: seq<Block>, bs: seq<Block>)
      reads this`b, this`visited
    {
      visited == v0 + bs && b == if secondPass then b0 else RecordAll(b0, bs)
    }

    /** Decodes the block at the current position, which is number `k` of the list `bs`. */
    method DecodeB(bl: Level, bp: Partition, w: nat, h: nat,
                   ghost b0: Records, ghost v0: seq<Block>, ghost bs: seq<Block>, ghost k: nat) returns (ret: int)
      requires k < |bs| && bs[k] == Block(bl, bp, bx, by_, w, h)
      requires Decoded(b0, v0, bs[..k]) && NoneFails(f, bs[..k])
      modifies this`b, this`visited
      ensures ret == if f.fails(bs[k]) then -1 else 0
      ensures Decoded(b0, v0, bs[..k + 1])
      ensures ret == 0 ==> NoneFails(f, bs[..k + 1])
      ensures ret != 0 ==> Ran(b0, v0, bs, -1)
    {
      assert bs[..k + 1] == bs[..k] + [bs[k]];
      var blk := Block(bl, bp, bx, by_, w, h);
      if !secondPass {
        b := b[(bx, by_) := Record(bl, bp)];
      }
      visited := visited + [blk];
      ret := if f.fails(blk) then -1 else 0;
      if ret != 0 {
        FailsAt(f, bs, k, pos);
      }
    }

    ghost predicate Here(bl: Level)
      reads this
    {
      f.Valid() && Inside(f, bx, by_)
    }

    /** The list `bs` has been decoded, up to and including the first block that fails. */
    ghost predicate Ran(b0: Records, v0: seq<Block>, bs: seq<Block>, ret: int)
      reads this`b, this`visited, this`pos
    {
      ret == WalkBlocks(f, bs, pos).code && Decoded(b0, v0, WalkBlocks(f, bs, pos).blocks)
    }

    /** When no block of the list has failed, the whole list has been decoded. */
    lemma Completed(b0: Records, v0: seq<Block>, bs: seq<Block>)
      requires Decoded(b0, v0, bs[..|bs|]) && NoneFails(f, bs[..|bs|])
      ensures Ran(b0, v0, bs, 0)
    {
      assert bs[..|bs|] == bs;
      NoneFailsWalk(f, bs, pos);
    }

    lemma DecodedNothing()
      ensures Decoded(b, visited, [])
    {
    }

    /** The whole square as one block. */
    method DecodeNone(bl: Level) returns (ret: int)
      requires Here(bl)
      modifies this
      ensures Ran(old(b), old(visited), PartitionBlocks(f, bl, old(bx), old(by_), PNone), ret)
      ensures pos == old(pos) && (ret == 0 ==> bx == old(bx) && by_ == old(by_))
    {
      var hsz := Hsz(bl);
      ghost var bs, b0, v0 := PartitionBlocks(f, bl, bx, by_, PNone), b, visited;
      assert Decoded(b0, v0, bs[..0]) && NoneFails(f, bs[..0]) by { DecodedNothing(); }
      hide RecordAll, WalkBlocks, Decoded, NoneFails, Ran;
      ret := DecodeB(bl, PNone, 2 * hsz, 2 * hsz, b0, v0, bs, 0);
      if ret != 0 {
        return -1;
      }
      Completed(b0, v0, bs);
    }

    /** Two halves, one above the other. */
    method DecodeH(bl: Level) returns (ret: int)
      requires Here(bl)
      modifies this
      ensures Ran(old(b), old(visited), PartitionBlocks(f, bl, old(bx), old(by_), PH), ret)
      ensures pos == old(pos) && (ret == 0 ==> bx == old(bx) && by_ == old(by_))
    {
      var hsz := Hsz(bl);
      ghost var bs, b0, v0 := PartitionBlocks(f, bl, bx, by_, PH), b, visited;
      assert Decoded(b0, v0, bs[..0]) && NoneFails(f, bs[..0]) by { DecodedNothing(); }
      hide RecordAll, WalkBlocks, Decoded, NoneFails, Ran;
      ret := DecodeB(bl, PH, 2 * hsz, hsz, b0, v0, bs, 0);
      if ret != 0 {
        return -1;
      }
      by_ := by_ + hsz;
      ret := DecodeB(bl, PH, 2 * hsz, hsz, b0, v0, bs, 1);
      if ret != 0 {
        return -1;
      }
      by_ := by_ - hsz;
      Completed(b0, v0, bs);
    }

    /** Two halves side by side. */
    method DecodeV(bl: Level) returns (ret: int)
      requires Here(bl)
      modifies this
      ensures Ran(old(b), old(visited), PartitionBlocks(f, bl, old(bx), old(by_), PV), ret)
      ensures pos == old(pos) && (ret == 0 ==> bx == old(bx) && by_ == old(by_))
    {
      var hsz := Hsz(bl);
      ghost var bs, b0, v0 := PartitionBlocks(f, bl, bx, by_, PV), b, visited;
      assert Decoded(b0, v0, bs[..0]) && NoneFails(f, bs[..0]) by { DecodedNothing(); }
      hide RecordAll, WalkBlocks, Decoded, NoneFails, Ran;
      ret := DecodeB(bl, PV, hsz, 2 * hsz, b0, v0, bs, 0);
      if ret != 0 {
        return -1;
      }
      bx := bx + hsz;
      ret := DecodeB(bl, PV, hsz, 2 * hsz, b0, v0, bs, 1);
      if ret != 0 {
        return -1;
      }
      bx := bx - hsz;
      Completed(b0, v0, bs);
    }

    /** Four quarters, at 8x8 only. */
    method DecodeSplit(bl: Level) returns (ret: int)
      requires Here(bl) && bl == BL_8X8
      modifies this
      ensures Ran(old(b), old(visited), PartitionBlocks(f, bl, old(bx), old(by_), PSplit), ret)
      ensures pos == old(pos) && (ret == 0 ==> bx == old(bx) && by_ == old(by_))
    {
      var hsz := Hsz(bl);
      ghost var bs, b0, v0 := PartitionBlocks(f, bl, bx, by_, PSplit), b, visited;
      assert Decoded(b0, v0, bs[..0]) && NoneFails(f, bs[..0]) by { DecodedNothing(); }
      assert hsz == 1 && |bs| == 4 && bs[0] == Block(bl, PSplit, bx, by_, 1, 1)
          && bs[1] == Block(bl, PSplit, bx + 1, by_, 1, 1) && bs[2] == Block(bl, PSplit, bx, by_ + 1, 1, 1)
          && bs[3] == Block(bl, PSplit, bx + 1, by_ + 1, 1, 1);
      hide RecordAll, WalkBlocks, Decoded, NoneFails, Ran, PartitionBlocks, Hsz;
      ret := DecodeB(bl, PSplit, hsz, hsz, b0, v0, bs, 0);
      if ret != 0 {
        return -1;
      }
      bx := bx + 1;
      ret := DecodeB(bl, PSplit, hsz, hsz, b0, v0, bs, 1);
      if ret != 0 {
        return -1;
      }
      bx := bx - 1;
      by_ := by_ + 1;
      ret := DecodeB(bl, PSplit, hsz, hsz, b0, v0, bs, 2);
      if ret != 0 {
        return -1;
      }
      bx := bx + 1;
      ret := DecodeB(bl, PSplit, hsz, hsz, b0, v0, bs, 3);
      if ret != 0 {
        return -1;
      }
      bx := bx - 1;
      by_ := by_ - 1;
      Completed(b0, v0, bs);
    }

    /** The upper half divided. */
    method DecodeTTop(bl: Level) returns (ret: int)
      requires Here(bl)
      modifies this
      ensures Ran(old(b), old(visited), PartitionBlocks(f, bl, old(bx), old(by_), PTTop), ret)
      ensures pos == old(pos) && (ret == 0 ==> bx == old(bx) && by_ == old(by_))
    {
      var hsz := Hsz(bl);
      ghost var bs, b0, v0 := PartitionBlocks(f, bl, bx, by_, PTTop), b, visited;
      assert Decoded(b0, v0, bs[..0]) && NoneFails(f, bs[..0]) by { DecodedNothing(); }
      hide RecordAll, WalkBlocks, Decoded, NoneFails, Ran;
      ret := DecodeB(bl, PTTop, hsz, hsz, b0, v0, bs, 0);
      if ret != 0 {
        return -1;
      }
      bx := bx + hsz;
      ret := DecodeB(bl, PTTop, hsz, hsz, b0, v0, bs, 1);
      if ret != 0 {
        return -1;
      }
      bx := bx - hsz;
      by_ := by_ + hsz;
      ret := DecodeB(bl, PTTop, 2 * hsz, hsz, b0, v0, bs, 2);
      if ret != 0 {
        return -1;
      }
      by_ := by_ - hsz;
      Completed(b0, v0, bs);
    }

    /** The lower half divided. */
    method DecodeTBottom(bl: Level) returns (ret: int)
      requires Here(bl)
      modifies this
      ensures Ran(old(b), old(visited), PartitionBlocks(f, bl, old(bx), old(by_), PTBottom), ret)
      ensures pos == old(pos) && (ret == 0 ==> bx == old(bx) && by_ == old(by_))
    {
      var hsz := Hsz(bl);
      ghost var bs, b0, v0 := PartitionBlocks(f, bl, bx, by_, PTBottom), b, visited;
      assert Decoded(b0, v0, bs[..0]) && NoneFails(f, bs[..0]) by { DecodedNothing(); }
      hide RecordAll, WalkBlocks, Decoded, NoneFails, Ran;
      ret := DecodeB(bl, PTBottom, 2 * hsz, hsz, b0, v0, bs, 0);
      if ret != 0 {
        return -1;
      }
      by_ := by_ + hsz;
      ret := DecodeB(bl, PTBottom, hsz, hsz, b0, v0, bs, 1);
      if ret != 0 {
        return -1;
      }
      bx := bx + hsz;
      ret := DecodeB(bl, PTBottom, hsz, hsz, b0, v0, bs, 2);
      if ret != 0 {
        return -1;
      }
      bx := bx - hsz;
      by_ := by_ - hsz;
      Completed(b0, v0, bs);
    }

    /** The left half divided. */
    method DecodeTLeft(bl: Level) returns (ret: int)
      requires Here(bl)
      modifies this
      ensures Ran(old(b), old(visited), PartitionBlocks(f, bl, old(bx), old(by_), PTLeft), ret)
      ensures pos == old(pos) && (ret == 0 ==> bx == old(bx) && by_ == old(by_))
    {
      var hsz := Hsz(bl);
      ghost var bs, b0, v0 := PartitionBlocks(f, bl, bx, by_, PTLeft), b, visited;
      assert Decoded(b0, v0, bs[..0]) && NoneFails(f, bs[..0]) by { DecodedNothing(); }
      hide RecordAll, WalkBlocks, Decoded, NoneFails, Ran;
      ret := DecodeB(bl, PTLeft, hsz, hsz, b0, v0, bs, 0);
      if ret != 0 {
        return -1;
      }
      by_ := by_ + hsz;
      ret := DecodeB(bl, PTLeft, hsz, hsz, b0, v0, bs, 1);
      if ret != 0 {
        return -1;
      }
      by_ := by_ - hsz;
      bx := bx + hsz;
      ret := DecodeB(bl, PTLeft, hsz, 2 * hsz, b0, v0, bs, 2);
      if ret != 0 {
        return -1;
      }
      bx := bx - hsz;
      Completed(b0, v0, bs);
    }

    /** The right half divided. */
    method DecodeTRight(bl: Level) returns (ret: int)
      requires Here(bl)
      modifies this
      ensures Ran(old(b), old(visited), PartitionBlocks(f, bl, old(bx), old(by_), PTRight), ret)
      ensures pos == old(pos) && (ret == 0 ==> bx == old(bx) && by_ == old(by_))
    {
      var hsz := Hsz(bl);
      ghost var bs, b0, v0 := PartitionBlocks(f, bl, bx, by_, PTRight), b, visited;
      assert Decoded(b0, v0, bs[..0]) && NoneFails(f, bs[..0]) by { DecodedNothing(); }
      hide RecordAll, WalkBlocks, Decoded, NoneFails, Ran;
      ret := DecodeB(bl, PTRight, hsz, 2 * hsz, b0, v0, bs, 0);
      if ret != 0 {
        return -1;
      }
      bx := bx + hsz;
      ret := DecodeB(bl, PTRight, hsz, hsz, b0, v0, bs, 1);
      if ret != 0 {
        return -1;
      }
      by_ := by_ + hsz;
      ret := DecodeB(bl, PTRight, hsz, hsz, b0, v0, bs, 2);
      if ret != 0 {
        return -1;
      }
      by_ := by_ - hsz;
      bx := bx - hsz;
      Completed(b0, v0, bs);
    }

    /** Two of the four strips, number `k` and the next; the position moves on behind them. */
    method DecodeTwoStrips(bl: Level, bp: Partition, w: nat, h: nat, dx: nat, dy: nat,
                           ghost b0: Records, ghost v0: seq<Block>, ghost bs: seq<Block>, ghost k: nat)
      returns (ret: int)
      requires k + 1 < |bs| && bs[k] == Block(bl, bp, bx, by_, w, h)
      requires bs[k + 1] == Block(bl, bp, bx + dx, by_ + dy, w, h)
      requires Decoded(b0, v0, bs[..k]) && NoneFails(f, bs[..k])
      modifies this`b, this`visited, this`bx, this`by_
      ensures ret == 0 ==> Decoded(b0, v0, bs[..k + 2]) && NoneFails(f, bs[..k + 2])
      ensures ret == 0 ==> bx == old(bx) + 2 * dx && by_ == old(by_) + 2 * dy
      ensures ret != 0 ==> ret == -1 && Ran(b0, v0, bs, -1)
    {
      hide RecordAll, WalkBlocks, Decoded, NoneFails, Ran;
      ret := DecodeB(bl, bp, w, h, b0, v0, bs, k);
      if ret != 0 {
        return -1;
      }
      bx, by_ := bx + dx, by_ + dy;
      ret := DecodeB(bl, bp, w, h, b0, v0, bs, k + 1);
      if ret != 0 {
        return -1;
      }
      bx, by_ := bx + dx, by_ + dy;
    }

    /** Four strips, one above the other; the last one only if it starts in the frame. */
    method DecodeH4(bl: Level) returns (ret: int)
      requires Here(bl) && bl < BL_8X8
      modifies this
      ensures Ran(old(b), old(visited), PartitionBlocks(f, bl, old(bx), old(by_), PH4), ret)
      ensures pos == old(pos) && (ret == 0 ==> bx == old(bx) && by_ == old(by_))
    {
      var hsz := Hsz(bl);
      ghost var bs, b0, v0 := PartitionBlocks(f, bl, bx, by_, PH4), b, visited;
      assert Decoded(b0, v0, bs[..0]) && NoneFails(f, bs[..0]) by { DecodedNothing(); }
      hide RecordAll, WalkBlocks, Decoded, NoneFails, Ran;
      ret := DecodeTwoStrips(bl, PH4, 2 * hsz, hsz / 2, 0, hsz / 2, b0, v0, bs, 0);
      if ret != 0 {
        return -1;
      }
      ret := DecodeB(bl, PH4, 2 * hsz, hsz / 2, b0, v0, bs, 2);
      if ret != 0 {
        return -1;
      }
      by_ := by_ + hsz / 2;
      if by_ < f.bh {
        ret := DecodeB(bl, PH4, 2 * hsz, hsz / 2, b0, v0, bs, 3);
        if ret != 0 {
          return -1;
        }
      }
      by_ := by_ - hsz * 3 / 2;
      Completed(b0, v0, bs);
    }

    /** Four strips side by side; the last one only if it starts in the frame. */
    method DecodeV4(bl: Level) returns (ret: int)
      requires Here(bl) && bl < BL_8X8
      modifies this
      ensures Ran(old(b), old(visited), PartitionBlocks(f, bl, old(bx), old(by_), PV4), ret)
      ensures pos == old(pos) && (ret == 0 ==> bx == old(bx) && by_ == old(by_))
    {
      var hsz := Hsz(bl);
      ghost var bs, b0, v0 := PartitionBlocks(f, bl, bx, by_, PV4), b, visited;
      assert Decoded(b0, v0, bs[..0]) && NoneFails(f, bs[..0]) by { DecodedNothing(); }
      hide RecordAll, WalkBlocks, Decoded, NoneFails, Ran;
      ret := DecodeTwoStrips(bl, PV4, hsz / 2, 2 * hsz, hsz / 2, 0, b0, v0, bs, 0);
      if ret != 0 {
        return -1;
      }
      ret := DecodeB(bl, PV4, hsz / 2, 2 * hsz, b0, v0, bs, 2);
      if ret != 0 {
        return -1;
      }
      bx := bx + hsz / 2;
      if bx < f.bw {
        ret := DecodeB(bl, PV4, hsz / 2, 2 * hsz, b0, v0, bs, 3);
        if ret != 0 {
          return -1;
        }
      }
      bx := bx - hsz * 3 / 2;
      Completed(b0, v0, bs);
    }

    /** The blocks of one partition, in coding order. */
    method DecodePartition(bl: Level, bp: Partition) returns (ret: int)
      requires Here(bl) && (bp == PSplit ==> bl == BL_8X8) && (bp == PH4 || bp == PV4 ==> bl < BL_8X8)
      modifies this
      ensures Ran(old(b), old(visited), PartitionBlocks(f, bl, old(bx), old(by_), bp), ret)
      ensures pos == old(pos) && (ret == 0 ==> bx == old(bx) && by_ == old(by_))
    {
      hide PartitionBlocks, Ran, Hsz;
      match bp {
        case PNone => ret := DecodeNone(bl);
        case PH => ret := DecodeH(bl);
        case PV => ret := DecodeV(bl);
        case PSplit => ret := DecodeSplit(bl);
        case PTTop => ret := DecodeTTop(bl);
        case PTBottom => ret := DecodeTBottom(bl);
        case PTLeft => ret := DecodeTLeft(bl);
        case PTRight => ret := DecodeTRight(bl);
        case PH4 => ret := DecodeH4(bl);
        case PV4 => ret := DecodeV4(bl);
      }
    }

    /** The single block of a square that the frame edge cuts in two. */
    method DecodeEdge(bl: Level, bp: Partition, w: nat, h: nat) returns (ret: int)
      modifies this
      ensures Ran(old(b), old(visited), [Block(bl, bp, old(bx), old(by_), w, h)], ret)
      ensures pos == old(pos) && bx == old(bx) && by_ == old(by_)
    {
      ghost var bs, b0, v0 := [Block(bl, bp, bx, by_, w, h)], b, visited;
      assert Decoded(b0, v0, bs[..0]) by { DecodedNothing(); }
      ret := DecodeB(bl, bp, w, h, b0, v0, bs, 0);
      if ret == 0 {
        Completed(b0, v0, bs);
      }
    }

    /** The walk of the square at the current position agrees with the specification. */
    ghost predicate Walked(src: Source, bl: Level, x: nat, y: nat, p0: nat, b0: Records, v0: seq<Block>, ret: int)
      requires f.Valid() && Inside(f, x, y)
      reads this
    {
      var o := Walk(f, src, bl, x, y, p0);
      ret == o.code && pos == o.pos && Decoded(b0, v0, o.blocks)
    }

    /** Decodes the square number `k` of the list `at`; `acc` is what the squares before it gave. */
    method DecodeChild(bl: Level, ghost at: seq<(nat, nat)>, ghost k: nat, ghost src: Source, ghost p0: nat,
                       ghost b0: Records, ghost v0: seq<Block>, ghost acc: seq<Block>)
      returns (ret: int, ghost acc': seq<Block>)
      requires f.Valid() && (forall i | 0 <= i < |at| :: Inside(f, at[i].0, at[i].1))
      requires k < |at| && at[k] == (bx, by_)
      requires src == (if secondPass then Replay(b0) else Symbols(stream)) && SaneSquares(f, src, bl, at)
      requires Decoded(b0, v0, acc) && Resumes(f, src, bl, at, p0, k, pos, acc)
      modifies this
      ensures Decoded(b0, v0, acc')
      ensures ret == 0 ==> bx == old(bx) && by_ == old(by_) && Resumes(f, src, bl, at, p0, k + 1, pos, acc')
      ensures ret != 0 ==> WalkSquares(f, src, bl, at, p0) == Outcome(ret, acc', pos)
      decreases BL_8X8 - bl, 2
    {
      assert Source() == src && SaneSquare(f, src, bl, bx, by_);
      hide Walk, WalkSquares, RecordAll, Resumes, SaneSquare, SaneSquares, Inside;
      ghost var p, b1, v1 := pos, b, visited;
      ghost var o := Walk(f, src, bl, at[k].0, at[k].1, p);
      ResumesNext(f, src, bl, at, p0, k, p, acc);
      assert v1 == v0 + acc && b1 == if secondPass then b0 else RecordAll(b0, acc);
      ret := DecodeSb(bl);
      assert ret == o.code && pos == o.pos && Decoded(b1, v1, o.blocks);
      hide Decoded;
      acc' := acc + o.blocks;
      DecodedMore(b0, v0, b1, v1, acc, o.blocks);
    }

    lemma DecodedMore(b0: Records, v0: seq<Block>, b1: Records, v1: seq<Block>, as_: seq<Block>, bs: seq<Block>)
      requires v1 == v0 + as_ && b1 == (if secondPass then b0 else RecordAll(b0, as_)) && Decoded(b1, v1, bs)
      ensures Decoded(b0, v0, as_ + bs)
    {
      RecordAllAppend(b0, as_, bs);
      assert v0 + as_ + bs == v0 + (as_ + bs);
    }

    /** Decodes the square of level `bl` at the current position. On success the position is restored. */
    method DecodeSb(bl: Level) returns (ret: int)
      requires f.Valid() && Inside(f, bx, by_) && SaneSquare(f, Source(), bl, bx, by_)
      modifies this
      ensures Walked(old(Source()), bl, old(bx), old(by_), old(pos), old(b), old(visited), ret)
      ensures ret == 0 ==> bx == old(bx) && by_ == old(by_)
      decreases BL_8X8 - bl, 1
    {
      var haveH, haveV := f.bw > bx + Hsz(bl), f.bh > by_ + Hsz(bl);
      if !haveH && !haveV {
        ret := DecodeCorner(bl);
      } else if haveH && haveV {
        ret := DecodeWhole(bl);
      } else {
        ret := DecodeCut(bl, haveH);
      }
    }

    /** A square of which only the first quarter starts in the frame: nothing is read, and the walk goes
        on one level down. */
    method DecodeCorner(bl: Level) returns (ret: int)
      requires f.Valid() && Inside(f, bx, by_) && SaneSquare(f, Source(), bl, bx, by_)
      requires f.bw <= bx + Hsz(bl) && f.bh <= by_ + Hsz(bl)
      modifies this
      ensures Walked(old(Source()), bl, old(bx), old(by_), old(pos), old(b), old(visited), ret)
      ensures ret == 0 ==> bx == old(bx) && by_ == old(by_)
      decreases BL_8X8 - bl, 0, 1
    {
      ghost var src, p0, b0, v0 := Source(), pos, b, visited;
      ghost var at, acc := [(bx, by_)], [];
      hide RecordAll, WalkSquares;
      SquaresInFrame(f, src, bl, bx, by_, p0);
      SaneParts(f, src, bl, bx, by_, p0);
      StartSquares(f, src, bl + 1, at, p0);
      DecodedNothing();
      ret, acc := DecodeChild(bl + 1, at, 0, src, p0, b0, v0, acc);
      if ret == 0 {
        EndSquares(f, src, bl + 1, at, p0, pos, acc);
      }
    }

    /** A square whose four quarters all start in the frame. */
    method DecodeWhole(bl: Level) returns (ret: int)
      requires f.Valid() && Inside(f, bx, by_) && SaneSquare(f, Source(), bl, bx, by_)
      requires f.bw > bx + Hsz(bl) && f.bh > by_ + Hsz(bl)
      modifies this
      ensures Walked(old(Source()), bl, old(bx), old(by_), old(pos), old(b), old(visited), ret)
      ensures ret == 0 ==> bx == old(bx) && by_ == old(by_)
      decreases BL_8X8 - bl, 0, 2
    {
      ghost var src, b0, v0 := Source(), b, visited;
      ghost var (d, next) := Decide(f, src, bl, bx, by_, pos);
      SaneParts(f, src, bl, bx, by_, pos);
      var bp: Partition;
      hide RecordAll, PartitionBlocks, Hsz, WalkSquares, WalkBlocks, SaneSquare, SaneSquares, SaneBlocks;
      DecodedNothing();
      if secondPass {
        var r := Lookup(b, bx, by_);
        bp := if r.bl == bl then r.bp else PSplit;
      } else {
        bp := PARTITIONS[stream(pos) % PartitionCount(bl)];
        pos := pos + 1;
        if f.is422 && (bp == PV || bp == PV4 || bp == PTLeft || bp == PTRight) {
          return 1;
        }
      }
      assert next == pos && d == if bp == PSplit && bl < BL_8X8 then Squares(Quarters(bx, by_, Hsz(bl)))
                                 else Leaves(PartitionBlocks(f, bl, bx, by_, bp));
      hide Decide;
      ghost var at := if bp == PSplit && bl < BL_8X8 then d.at else [];
      if bp == PSplit && bl < BL_8X8 {
        QuartersInside(f, bl, bx, by_);
      }
      if d.Leaves? {
        WalkBlocksPos(f, d.blocks, next, next);
      }
      ret := DecodeChosen(bl, bp, at, src, b0, v0);
    }

    /** What follows the choice of the partition. */
    method DecodeChosen(bl: Level, bp: Partition, ghost at: seq<(nat, nat)>, ghost src: Source,
                        ghost b0: Records, ghost v0: seq<Block>)
      returns (ret: int)
      requires f.Valid() && Inside(f, bx, by_) && f.bw > bx + Hsz(bl) && f.bh > by_ + Hsz(bl)
      requires at == (if bp == PSplit && bl < BL_8X8 then Quarters(bx, by_, Hsz(bl)) else [])
      requires forall i | 0 <= i < |at| :: Inside(f, at[i].0, at[i].1)
      requires src == (if secondPass then Replay(b0) else Symbols(stream)) && b == b0 && visited == v0
      requires if bp == PSplit && bl < BL_8X8 then SaneSquares(f, src, bl + 1, at)
               else SaneBlocks(PartitionBlocks(f, bl, bx, by_, bp))
      modifies this
      ensures if bp == PSplit && bl < BL_8X8
              then var o := WalkSquares(f, src, bl + 1, at, old(pos));
                   ret == (if o.code == 0 then 0 else 1) && pos == o.pos && Decoded(b0, v0, o.blocks)
              else var o := WalkBlocks(f, PartitionBlocks(f, bl, old(bx), old(by_), bp), pos);
                   ret == o.code && pos == old(pos) && Decoded(b0, v0, o.blocks)
      ensures ret == 0 ==> bx == old(bx) && by_ == old(by_)
      decreases BL_8X8 - bl, 0, 1
    {
      hide RecordAll, PartitionBlocks, Hsz, WalkSquares, WalkBlocks, SaneSquare, SaneSquares, SaneBlocks;
      DecodedNothing();
      if bp == PSplit && bl < BL_8X8 {
        StartSquares(f, src, bl + 1, at, pos);
        ret := DecodeQuarters(bl, Hsz(bl), at, src, pos, b0, v0);
      } else {
        SanePartition(f, bl, bx, by_, bp);
        ret := DecodePartition(bl, bp);
      }
    }

    /** A square that the right or the bottom edge of the frame cuts in two. */
    method DecodeCut(bl: Level, haveH: bool) returns (ret: int)
      requires f.Valid() && Inside(f, bx, by_) && SaneSquare(f, Source(), bl, bx, by_)
      requires haveH == (f.bw > bx + Hsz(bl)) == !(f.bh > by_ + Hsz(bl))
      modifies this
      ensures Walked(old(Source()), bl, old(bx), old(by_), old(pos), old(b), old(visited), ret)
      ensures ret == 0 ==> bx == old(bx) && by_ == old(by_)
      decreases BL_8X8 - bl, 0, 1
    {
      ghost var src, p0, b0, v0 := Source(), pos, b, visited;
      ghost var (d, next) := Decide(f, src, bl, bx, by_, pos);
      SaneParts(f, src, bl, bx, by_, pos);
      var hsz := Hsz(bl);
      var isSplit: bool;
      assert bl < BL_8X8;
      hide RecordAll, PartitionBlocks, Hsz, WalkSquares, WalkBlocks, SaneSquare, SaneSquares;
      DecodedNothing();
      if secondPass {
        isSplit := Lookup(b, bx, by_).bl != bl;
      } else {
        isSplit := stream(pos) % 2 == 1;
        pos := pos + 1;
        if !haveH && f.is422 && !isSplit {
          return 1;
        }
      }
      assert next == pos && d
            == if isSplit then Squares([(bx, by_), if haveH then (bx + hsz, by_) else (bx, by_ + hsz)])
          else Leaves([if haveH then Block(bl, PH, bx, by_, 2 * hsz, hsz) else Block(bl, PV, bx, by_, hsz, 2 * hsz)]);
      hide Decide;
      if isSplit {
        ghost var at := d.at;
        SquaresInFrame(f, src, bl, bx, by_, p0);
        StartSquares(f, src, bl + 1, at, pos);
        ret := DecodeHalves(bl, haveH, hsz, at, src, pos, b0, v0);
      } else if haveH {
        ret := DecodeEdge(bl, PH, 2 * hsz, hsz);
      } else {
        ret := DecodeEdge(bl, PV, hsz, 2 * hsz);
      }
      if !isSplit {
        WalkBlocksPos(f, d.blocks, next, next);
      }
    }

    /** The superblocks at the positions `at`, of level `root`, one after the other, until one fails or the
        flush flag, read before each, is set. */
    method DecodeSuperblocks(root: Level, at: seq<(nat, nat)>, flush: nat -> bool) returns (ret: int)
      requires f.Valid() && forall i | 0 <= i < |at| :: Inside(f, at[i].0, at[i].1)
      requires SaneSquares(f, Source(), root, at[..Begun(flush, |at|)])
      modifies this
      ensures var m := Begun(flush, |at|);
              var o := WalkSquares(f, old(Source()), root, at[..m], old(pos));
              && ret == (if m == |at| && o.code == 0 then 0 else 1)
              && pos == o.pos && Decoded(old(b), old(visited), o.blocks)
    {
      ghost var src, p0, b0, v0, acc := Source(), pos, b, visited, [];
      ghost var begun := at[..Begun(flush, |at|)];
      hide RecordAll, WalkSquares, Resumes, Decoded, SaneSquare;
      StartSquares(f, src, root, begun, p0);
      DecodedNothing();
      for k := 0 to |at|
        invariant k <= |begun| && Decoded(b0, v0, acc) && Resumes(f, src, root, begun, p0, k, pos, acc)
      {
        if flush(k) {
          EndSquares(f, src, root, begun, p0, pos, acc);
          return 1;
        }
        bx, by_ := at[k].0, at[k].1;
        ret, acc := DecodeChild(root, begun, k, src, p0, b0, v0, acc);
        if ret != 0 {
          return 1;
        }
      }
      ret := 0;
      EndSquares(f, src, root, begun, p0, pos, acc);
    }

    /** Two quarters side by side, number `k` and the next; the position is restored. */
    method DecodeTwoQuarters(bl: Level, hsz: nat, ghost at: seq<(nat, nat)>, ghost k: nat,
                             ghost src: Source, ghost p0: nat, ghost b0: Records, ghost v0: seq<Block>,
                             ghost acc: seq<Block>)
      returns (ret: int, ghost acc': seq<Block>)
      requires f.Valid() && (forall i | 0 <= i < |at| :: Inside(f, at[i].0, at[i].1))
      requires k + 1 < |at| && at[k] == (bx, by_) && at[k + 1] == (bx + hsz, by_)
      requires src == (if secondPass then Replay(b0) else Symbols(stream)) && SaneSquares(f, src, bl, at)
      requires Decoded(b0, v0, acc) && Resumes(f, src, bl, at, p0, k, pos, acc)
      modifies this
      ensures Decoded(b0, v0, acc')
      ensures ret == 0 ==> bx == old(bx) && by_ == old(by_) && Resumes(f, src, bl, at, p0, k + 2, pos, acc')
      ensures ret != 0 ==> WalkSquares(f, src, bl, at, p0) == Outcome(ret, acc', pos)
      decreases BL_8X8 - bl, 3
    {
      hide RecordAll, WalkSquares, Walk, Resumes, Decoded, SaneSquare;
      ret, acc' := DecodeChild(bl, at, k, src, p0, b0, v0, acc);
      if ret == 0 {
        bx := bx + hsz;
        ret, acc' := DecodeChild(bl, at, k + 1, src, p0, b0, v0, acc');
        bx := if ret == 0 then bx - hsz else bx;
      }
    }

    /** The four quarters of a square, as squares of the next level. */
    method DecodeQuarters(bl: Level, hsz: nat, ghost at: seq<(nat, nat)>,
                          ghost src: Source, ghost p0: nat, ghost b0: Records,
                          ghost v0: seq<Block>)
      returns (ret: int)
      requires f.Valid() && (forall i | 0 <= i < |at| :: Inside(f, at[i].0, at[i].1))
      requires |at| == 4 && at[0] == (bx, by_) && at[1] == (bx + hsz, by_)
      requires at[2] == (bx, by_ + hsz) && at[3] == (bx + hsz, by_ + hsz) && bl < BL_8X8
      requires src == (if secondPass then Replay(b0) else Symbols(stream)) && SaneSquares(f, src, bl + 1, at)
      requires Decoded(b0, v0, []) && Resumes(f, src, bl + 1, at, p0, 0, pos, [])
      modifies this
      ensures var o := WalkSquares(f, src, bl + 1, at, p0);
              ret == (if o.code == 0 then 0 else 1) && pos == o.pos && Decoded(b0, v0, o.blocks)
      ensures ret == 0 ==> bx == old(bx) && by_ == old(by_)
      decreases BL_8X8 - bl, 0, 0
    {
      hide RecordAll, WalkSquares, Walk, Resumes, Decoded, SaneSquare, Inside;
      ghost var acc: seq<Block> := [];
      ret, acc := DecodeTwoQuarters(bl + 1, hsz, at, 0, src, p0, b0, v0, acc);
      if ret != 0 {
        return 1;
      }
      by_ := by_ + hsz;
      ret, acc := DecodeTwoQuarters(bl + 1, hsz, at, 2, src, p0, b0, v0, acc);
      if ret != 0 {
        return 1;
      }
      by_ := by_ - hsz;
      EndSquares(f, src, bl + 1, at, p0, pos, acc);
    }

    /** The two in-frame quarters of a square that the frame edge cuts in two. */
    method DecodeHalves(bl: Level, haveH: bool, hsz: nat, ghost at: seq<(nat, nat)>, ghost src: Source,
                        ghost p0: nat, ghost b0: Records, ghost v0: seq<Block>)
      returns (ret: int)
      requires f.Valid() && bl < BL_8X8 && (forall i | 0 <= i < |at| :: Inside(f, at[i].0, at[i].1))
      requires at == [(bx, by_), if haveH then (bx + hsz, by_) else (bx, by_ + hsz)]
      requires src == (if secondPass then Replay(b0) else Symbols(stream)) && SaneSquares(f, src, bl + 1, at)
      requires Decoded(b0, v0, []) && Resumes(f, src, bl + 1, at, p0, 0, pos, [])
      modifies this
      ensures var o := WalkSquares(f, src, bl + 1, at, p0);
              ret == (if o.code == 0 then 0 else 1) && pos == o.pos && Decoded(b0, v0, o.blocks)
      ensures ret == 0 ==> bx == old(bx) && by_ == old(by_)
      decreases BL_8X8 - bl, 0, 0
    {
      hide RecordAll, WalkSquares, Walk, Resumes, Decoded, SaneSquare, Inside;
      ghost var acc: seq<Block> := [];
      ret, acc := DecodeChild(bl + 1, at, 0, src, p0, b0, v0, acc);
      if ret != 0 {
        return 1;
      }
      if haveH {
        bx := bx + hsz;
      } else {
        by_ := by_ + hsz;
      }
      ret, acc := DecodeChild(bl + 1, at, 1, src, p0, b0, v0, acc);
      if ret != 0 {
        return 1;
      }
      if haveH {
        bx := bx - hsz;
      } else {
        by_ := by_ - hsz;
      }
      EndSquares(f, src, bl + 1, at, p0, pos, acc);
    }
  }

  /** No block of the list is a four-way strip of an 8x8 square. */
  ghost predicate SaneBlocks(bs: seq<Block>) {
    forall i | 0 <= i < |bs| && bs[i].bl == BL_8X8 :: bs[i].bp != PH4 && bs[i].bp != PV4
  }

  /** Replaying the square from records meets no four-way strip at 8x8. What the records hold where the
      replay does not look is of no concern. */
  ghost predicate SaneSquare(f: Frame, src: Source, bl: Level, x: nat, y: nat)
    requires f.Valid() && Inside(f, x, y)
    decreases BL_8X8 - bl, 1, 0
  {
    src.Replay? ==>
      match Decide(f, src, bl, x, y, 0).0
      case Invalid => true
      case Leaves(bs) => SaneBlocks(bs)
      case Squares(at) => SquaresInFrame(f, src, bl, x, y, 0); SaneSquares(f, src, bl + 1, at)
  }

  ghost predicate SaneSquares(f: Frame, src: Source, bl: Level, at: seq<(nat, nat)>)
    requires f.Valid() && forall i | 0 <= i < |at| :: Inside(f, at[i].0, at[i].1)
    decreases BL_8X8 - bl, 2, |at|
  {
    forall i | 0 <= i < |at| :: SaneSquare(f, src, bl, at[i].0, at[i].1)
  }

  lemma SanePartition(f: Frame, bl: Level, x: nat, y: nat, bp: Partition)
    requires SaneBlocks(PartitionBlocks(f, bl, x, y, bp))
    ensures bp == PH4 || bp == PV4 ==> bl < BL_8X8
  {
    var b := PartitionBlocks(f, bl, x, y, bp)[0];
    assert b.bl == bl && b.bp == bp;
  }

  lemma SaneParts(f: Frame, src: Source, bl: Level, x: nat, y: nat, pos: nat)
    requires f.Valid() && Inside(f, x, y) && SaneSquare(f, src, bl, x, y)
    ensures var d := Decide(f, src, bl, x, y, pos).0;
            && (d.Leaves? ==> SaneBlocks(d.blocks))
            && (d.Squares? ==> (SquaresInFrame(f, src, bl, x, y, pos); SaneSquares(f, src, bl + 1, d.at)))
  {
    if src.Symbols? {
      LeavesSane(f, src, bl, x, y, pos);
      var d := Decide(f, src, bl, x, y, pos).0;
      if d.Squares? {
        SquaresInFrame(f, src, bl, x, y, pos);
      }
    } else {
      assert Decide(f, src, bl, x, y, pos).0 == Decide(f, src, bl, x, y, 0).0;
    }
  }

  /** After the first `k` squares, which gave `acc` and read up to symbol `p`, the walk of the list is what
      the remaining squares add. */
  ghost predicate Resumes(f: Frame, src: Source, bl: Level, at: seq<(nat, nat)>, p0: nat, k: nat,
                          p: nat, acc: seq<Block>)
    requires f.Valid() && (forall i | 0 <= i < |at| :: Inside(f, at[i].0, at[i].1)) && k <= |at|
  {
    var rest := WalkSquares(f, src, bl, at[k..], p);
    WalkSquares(f, src, bl, at, p0) == Outcome(rest.code, acc + rest.blocks, rest.pos)
  }

  lemma QuartersInside(f: Frame, bl: Level, x: nat, y: nat)
    requires f.Valid() && Inside(f, x, y) && bl < BL_8X8 && f.bw > x + Hsz(bl) && f.bh > y + Hsz(bl)
    ensures var at := Quarters(x, y, Hsz(bl)); forall i | 0 <= i < |at| :: Inside(f, at[i].0, at[i].1)
  {
    hide Hsz;
  }

  /** The walk of square `k` leads to where the rest resumes, or ends the walk of the list. */
  lemma ResumesNext(f: Frame, src: Source, bl: Level, at: seq<(nat, nat)>, p0: nat, k: nat, p: nat, acc: seq<Block>)
    requires f.Valid() && (forall i | 0 <= i < |at| :: Inside(f, at[i].0, at[i].1)) && k < |at|
    requires Resumes(f, src, bl, at, p0, k, p, acc)
    ensures var o := Walk(f, src, bl, at[k].0, at[k].1, p);
            if o.code == 0 then Resumes(f, src, bl, at, p0, k + 1, o.pos, acc + o.blocks)
            else WalkSquares(f, src, bl, at, p0) == Outcome(o.code, acc + o.blocks, o.pos)
  {
    hide Walk;
    var o := Walk(f, src, bl, at[k].0, at[k].1, p);
    assert at[k..][1..] == at[k + 1..];
    if o.code == 0 {
      var rest := WalkSquares(f, src, bl, at[k + 1..], o.pos).blocks;
      assert acc + (o.blocks + rest) == acc + o.blocks + rest;
    }
  }

  lemma StartSquares(f: Frame, src: Source, bl: Level, at: seq<(nat, nat)>, p0: nat)
    requires f.Valid() && (forall i | 0 <= i < |at| :: Inside(f, at[i].0, at[i].1))
    ensures Resumes(f, src, bl, at, p0, 0, p0, [])
  {
    assert at[0..] == at;
  }

  lemma EndSquares(f: Frame, src: Source, bl: Level, at: seq<(nat, nat)>, p0: nat, p: nat, acc: seq<Block>)
    requires f.Valid() && (forall i | 0 <= i < |at| :: Inside(f, at[i].0, at[i].1))
    requires Resumes(f, src, bl, at, p0, |at|, p, acc)
    ensures WalkSquares(f, src, bl, at, p0) == Outcome(0, acc, p)
  {
    assert acc + [] == acc;
  }

  lemma {:induction false} RecordAllAppend(b: Records, as_: seq<Block>, bs: seq<Block>)
    ensures RecordAll(b, as_ + bs) == RecordAll(RecordAll(b, as_), bs)
  {
    if bs == [] {
      assert as_ + bs == as_;
    } else {
      RecordAllAppend(b, as_, bs[..|bs| - 1]);
      assert (as_ + bs)[..|as_ + bs| - 1] == as_ + bs[..|bs| - 1];
    }
  }

  lemma RecordsSane(f: Frame, g: Frame, src: Source, before: Records, root: Level, at: seq<(nat, nat)>, m: nat)
    requires f.Valid() && f.Like(g) && src.Symbols? && forall i | 0 <= i < |at| :: Inside(f, at[i].0, at[i].1)
    requires Apart(at, 2 * Hsz(root)) && m <= |at| && WalkSquares(f, src, root, at, 0).code == 0
    ensures SaneSquares(g, Replay(RecordAll(before, WalkSquares(f, src, root, at, 0).blocks)), root, at[..m])
  {
    hide WalkSquares, RecordAll, SaneSquare;
    var bs := WalkSquares(f, src, root, at, 0).blocks;
    WalkSquaresTile(f, src, root, at, 0);
    TilesAreRecorded(before, bs);
    ReplaySquaresSane(f, g, src, RecordAll(before, bs), root, at, 0);
  }

  lemma PlacedInMore(f: Frame, bs: seq<Block>, at: seq<(nat, nat)>, m: nat, side: int)
    requires m <= |at| && PlacedInSquares(f, bs, at[..m], side)
    ensures PlacedInSquares(f, bs, at, side)
  {
    forall i | 0 <= i < |bs| ensures WithinSome(bs[i], at, side) {
      assert WithinSome(bs[i], at[..m], side);
      var k :| 0 <= k < |at[..m]| && Within(bs[i], at[..m][k].0, at[..m][k].1, side);
      assert Within(bs[i], at[k].0, at[k].1, side);
    }
  }

  /** However it ends, the first pass decodes only blocks that start in the frame and do not overlap; it
      succeeds if and only if the walk does and it never sees the flag, and then the blocks tile the
      superblocks. */
  method FirstPass(f: Frame, stream: nat -> nat, before: Records, root: Level, at: seq<(nat, nat)>,
                   flush: nat -> bool)
    returns (ret: int, first: TaskContext)
    requires f.Valid() && (forall i | 0 <= i < |at| :: Inside(f, at[i].0, at[i].1)) && Apart(at, 2 * Hsz(root))
    ensures PlacedInSquares(f, first.visited, at, 2 * Hsz(root))
    ensures ret == 0 <==> Begun(flush, |at|) == |at| && WalkSquares(f, Symbols(stream), root, at, 0).code == 0
    ensures ret == 0 ==>
              && first.visited == WalkSquares(f, Symbols(stream), root, at, 0).blocks
              && first.b == RecordAll(before, first.visited)
              && TilesSquares(f, first.visited, at, 2 * Hsz(root))
  {
    first := new TaskContext(f, stream, false, before);
    ret := first.DecodeSuperblocks(root, at, flush);
    ghost var src, m := Symbols(stream), Begun(flush, |at|);
    hide WalkSquares, RecordAll, PlacedInSquares, TilesSquares, SaneSquare;
    assert first.visited == WalkSquares(f, src, root, at[..m], 0).blocks;
    assert at[..|at|] == at;
    WalkSquaresPlace(f, src, root, at[..m], 0);
    PlacedInMore(f, first.visited, at, m, 2 * Hsz(root));
    if ret == 0 {
      WalkSquaresTile(f, src, root, at, 0);
    }
  }

  /** The second pass over superblocks whose first pass has succeeded, with the records that one left: it
      decodes the same blocks in the same order, up to and including the first that fails in it, or up to
      the superblock before which it sees the flag. */
  method SecondPass(f: Frame, fails: Block -> bool, stream: nat -> nat, ghost before: Records, b: Records,
                    root: Level, at: seq<(nat, nat)>, flush: nat -> bool)
    returns (ret: int, second: TaskContext)
    requires f.Valid() && (forall i | 0 <= i < |at| :: Inside(f, at[i].0, at[i].1)) && Apart(at, 2 * Hsz(root))
    requires WalkSquares(f, Symbols(stream), root, at, 0).code == 0
    requires b == RecordAll(before, WalkSquares(f, Symbols(stream), root, at, 0).blocks)
    ensures var (g, m) := (f.(fails := fails), Begun(flush, |at|));
            var bs := WalkSquares(f, Symbols(stream), root, at, 0).blocks;
            var part := WalkSquares(f, Symbols(stream), root, at[..m], 0).blocks;
            && second.visited <= part <= bs && second.visited == WalkBlocks(g, part, 0).blocks
            && (ret == 0 <==> m == |at| && NoneFails(g, bs)) && (ret == 0 ==> second.visited == bs)
  {
    var g := f.(fails := fails);
    ghost var src, m := Symbols(stream), Begun(flush, |at|);
    second := new TaskContext(g, stream, true, b);
    RecordsSane(f, g, src, before, root, at, m);
    ret := second.DecodeSuperblocks(root, at, flush);
    hide WalkSquares, WalkBlocks, RecordAll, NoneFails, SaneSquare;
    assert second.visited == WalkSquares(g, Replay(b), root, at[..m], 0).blocks;
    assert at[..|at|] == at;
    SecondPassRepeatsFirst(f, g, src, before, root, at, m);
  }

  /** Both passes over a list of superblocks, the second one with the record buffer of the first, and with
      its own failures and its own readings of the flush flag. The second pass never decodes anything the
      first one did not, and it succeeds if and only if the first one does, it never sees the flag and none
      of the blocks fails in it. */
  method DecodeTwice(f: Frame, fails: Block -> bool, stream: nat -> nat, before: Records, root: Level,
                     at: seq<(nat, nat)>, flush: nat -> bool, flush2: nat -> bool)
    returns (ret: int, ret2: int, first: TaskContext, second: TaskContext)
    requires f.Valid() && (forall i | 0 <= i < |at| :: Inside(f, at[i].0, at[i].1)) && Apart(at, 2 * Hsz(root))
    ensures PlacedInSquares(f, first.visited, at, 2 * Hsz(root))
    ensures ret == 0 <==> Begun(flush, |at|) == |at| && WalkSquares(f, Symbols(stream), root, at, 0).code == 0
    ensures ret == 0 ==> TilesSquares(f, first.visited, at, 2 * Hsz(root))
    ensures ret == 0 ==>
              var part := WalkSquares(f, Symbols(stream), root, at[..Begun(flush2, |at|)], 0).blocks;
              second.visited <= part <= first.visited
              && second.visited == WalkBlocks(f.(fails := fails), part, 0).blocks
    ensures ret2 == 0 <==> ret == 0 && Begun(flush2, |at|) == |at| && NoneFails(f.(fails := fails), first.visited)
    ensures ret2 == 0 ==> second.visited == first.visited
  {
    hide WalkSquares, WalkBlocks, RecordAll, NoneFails, PlacedInSquares, TilesSquares, Apart;
    ret, first := FirstPass(f, stream, before, root, at, flush);
    ret2, second := ret, first;
    if ret == 0 {
      ret2, second := SecondPass(f, fails, stream, before, first.b, root, at, flush2);
    }
  }

  lemma LeavesSane(f: Frame, src: Source, bl: Level, x: nat, y: nat, pos: nat)
    requires f.Valid() && Inside(f, x, y) && src.Symbols?
    ensures var d := Decide(f, src, bl, x, y, pos).0; d.Leaves? ==> SaneBlocks(d.blocks)
  {
  }

  /** The records of a successful first pass never send the second one to a four-way strip at 8x8. */
  lemma {:induction false} ReplaySane(f: Frame, g: Frame, src: Source, b: Records, bl: Level, x: nat, y: nat, pos: nat)
    requires f.Valid() && f.Like(g) && Inside(f, x, y) && src.Symbols?
    requires Walk(f, src, bl, x, y, pos).code == 0
    requires Recorded(b, Walk(f, src, bl, x, y, pos).blocks)
    ensures SaneSquare(g, Replay(b), bl, x, y)
    decreases BL_8X8 - bl, 1, 0
  {
    DecisionRepeats(f, g, src, b, bl, x, y, pos, 0);
    LeavesSane(f, src, bl, x, y, pos);
    hide Decide;
    var (d, next) := Decide(f, src, bl, x, y, pos);
    if d.Squares? {
      SquaresInFrame(f, src, bl, x, y, pos);
      ReplaySquaresSane(f, g, src, b, bl + 1, d.at, next);
    }
  }

  lemma {:induction false} ReplaySquaresSane(f: Frame, g: Frame, src: Source, b: Records, bl: Level,
                                            at: seq<(nat, nat)>, pos: nat)
    requires f.Valid() && f.Like(g) && src.Symbols? && forall i | 0 <= i < |at| :: Inside(f, at[i].0, at[i].1)
    requires WalkSquares(f, src, bl, at, pos).code == 0
    requires Recorded(b, WalkSquares(f, src, bl, at, pos).blocks)
    ensures SaneSquares(g, Replay(b), bl, at)
    decreases BL_8X8 - bl, 2, |at|
  {
    if at != [] {
      hide Decide, Walk, SaneSquare;
      var first := Walk(f, src, bl, at[0].0, at[0].1, pos);
      RecordedParts(b, first.blocks, WalkSquares(f, src, bl, at[1..], first.pos).blocks);
      ReplaySane(f, g, src, b, bl, at[0].0, at[0].1, pos);
      ReplaySquaresSane(f, g, src, b, bl, at[1..], first.pos);
      forall i | 0 <= i < |at| ensures SaneSquare(g, Replay(b), bl, at[i].0, at[i].1) {
        if i > 0 {
          assert at[i] == at[1..][i - 1];
        }
      }
    }
  }

  ghost predicate NoneFails(f: Frame, bs: seq<Block>) {
    forall i | 0 <= i < |bs| :: !f.fails(bs[i])
  }

  lemma {:induction false} FailsAt(f: Frame, bs: seq<Block>, k: nat, pos: nat)
    requires k < |bs| && NoneFails(f, bs[..k]) && f.fails(bs[k])
    ensures WalkBlocks(f, bs, pos) == Outcome(-1, bs[..k + 1], pos)
  {
    if k > 0 {
      assert bs[0] == bs[..k][0];
      assert bs[1..][..k - 1] == bs[..k][1..];
      FailsAt(f, bs[1..], k - 1, pos);
      assert bs[..k + 1] == [bs[0]] + bs[1..][..k];
    }
  }

  lemma {:induction false} NoneFailsWalk(f: Frame, bs: seq<Block>, pos: nat)
    requires NoneFails(f, bs)
    ensures WalkBlocks(f, bs, pos) == Outcome(0, bs, pos)
  {
    if bs != [] {
      NoneFailsWalk(f, bs[1..], pos);
    }
  }
}
