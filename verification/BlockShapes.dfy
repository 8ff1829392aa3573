/** What the partition symbols mean: by which lines each of them cuts a square, in which order the pieces are
    decoded, and what happens where the frame ends. */
module BlockShapes {
  import opened BlockTree

  /** Some block holds both cells. */
  ghost predicate Together(bs: seq<Block>, ax: int, ay: int, cx: int, cy: int) {
    exists i :: 0 <= i < |bs| && Both(bs[i], ax, ay, cx, cy)
  }

  predicate Both(b: Block, ax: int, ay: int, cx: int, cy: int) { Contains(b, ax, ay) && Contains(b, cx, cy) }

  lemma TogetherIs(bs: seq<Block>, ax: int, ay: int, cx: int, cy: int)
    requires 0 < |bs| <= 4
    ensures Together(bs, ax, ay, cx, cy) <==>
              || Both(bs[0], ax, ay, cx, cy) || (|bs| > 1 && Both(bs[1], ax, ay, cx, cy))
              || (|bs| > 2 && Both(bs[2], ax, ay, cx, cy)) || (|bs| > 3 && Both(bs[3], ax, ay, cx, cy))
  {
    hide Both;
  }

  predicate InSquare(x: nat, y: nat, side: nat, cx: int, cy: int) { x <= cx < x + side && y <= cy < y + side }

  /** Symbol `k` is coded at level `bl`. */
  predicate HasSymbol(bl: Level, k: nat) { k < PartitionCount(bl) }

  /** Four-way strips are coded from 64x64 to 16x16 only, splits into three from 16x16 up. */
  lemma SymbolsOfLevel(bl: Level, k: nat)
    ensures HasSymbol(bl, k) <==> k < 4 || (k < 8 && bl < BL_8X8) || (k < 10 && 0 < bl < BL_8X8)
    ensures 2 * Hsz(bl)
            == if bl == 0 then 32 else if bl == 1 then 16 else if bl == 2 then 8 else if bl == 3 then 4 else 2
  {
  }

  /** Two cells of the square are in one block exactly if no line between them cuts the square. Symbol 0 cuts
      nowhere; symbol 1 cuts at the middle row, symbol 2 at the middle column, symbol 3 at both; symbols 4 and
      5 cut at the middle row and halve the upper or the lower part, symbols 6 and 7 cut at the middle column
      and halve the left or the right part; symbols 8 and 9 cut at every quarter of the rows or of the columns.
      Of a last strip that starts outside the frame there is nothing. */
  lemma PartitionCuts(f: Frame, bl: Level, x: nat, y: nat, k: nat, ax: int, ay: int, cx: int, cy: int)
    requires HasSymbol(bl, k)
    requires InSquare(x, y, 2 * Hsz(bl), ax, ay) && InSquare(x, y, 2 * Hsz(bl), cx, cy)
    requires k == 8 ==> var l := y + Hsz(bl) / 2 * 3; l < f.bh || (ay < l && cy < l)
    requires k == 9 ==> var l := x + Hsz(bl) / 2 * 3; l < f.bw || (ax < l && cx < l)
    ensures var (h, q) := (Hsz(bl), Hsz(bl) / 2);
            var (rows, columns) := (ay < y + h <==> cy < y + h, ax < x + h <==> cx < x + h);
            var t := Together(PartitionBlocks(f, bl, x, y, PARTITIONS[k]), ax, ay, cx, cy);
            && (k == 0 ==> t)
            && (k == 1 ==> (t <==> rows))
            && (k == 2 ==> (t <==> columns))
            && (k == 3 ==> (t <==> rows && columns))
            && (k == 4 ==> (t <==> rows && (ay < y + h ==> columns)))
            && (k == 5 ==> (t <==> rows && (ay >= y + h ==> columns)))
            && (k == 6 ==> (t <==> columns && (ax < x + h ==> rows)))
            && (k == 7 ==> (t <==> columns && (ax >= x + h ==> rows)))
            && (k == 8 ==> (t <==> rows && (ay < y + q <==> cy < y + q) && (ay < y + h + q <==> cy < y + h + q)))
            && (k == 9 ==> (t <==> columns && (ax < x + q <==> cx < x + q) && (ax < x + h + q <==> cx < x + h + q)))
  {
    hide Hsz, PartitionBlocks, Together;
    if k < 4 {
      HalvesCut(f, bl, x, y, k, ax, ay, cx, cy);
    } else if k < 6 {
      RowSplitsCut(f, bl, x, y, k, ax, ay, cx, cy);
    } else if k < 8 {
      ColumnSplitsCut(f, bl, x, y, k, ax, ay, cx, cy);
    } else {
      StripsCut(f, bl, x, y, k, ax, ay, cx, cy);
    }
  }

  lemma HalvesCut(f: Frame, bl: Level, x: nat, y: nat, k: nat, ax: int, ay: int, cx: int, cy: int)
    requires HasSymbol(bl, k) && k < 4
    requires InSquare(x, y, 2 * Hsz(bl), ax, ay) && InSquare(x, y, 2 * Hsz(bl), cx, cy)
    ensures var (h, q) := (Hsz(bl), Hsz(bl) / 2);
            var (rows, columns) := (ay < y + h <==> cy < y + h, ax < x + h <==> cx < x + h);
            var t := Together(PartitionBlocks(f, bl, x, y, PARTITIONS[k]), ax, ay, cx, cy);
            && (k == 0 ==> t)
            && (k == 1 ==> (t <==> rows))
            && (k == 2 ==> (t <==> columns))
            && (k == 3 ==> (t <==> rows && columns))
  {
    TogetherIs(PartitionBlocks(f, bl, x, y, PARTITIONS[k]), ax, ay, cx, cy);
    hide Hsz, Together;
  }

  lemma RowSplitsCut(f: Frame, bl: Level, x: nat, y: nat, k: nat, ax: int, ay: int, cx: int, cy: int)
    requires HasSymbol(bl, k) && 4 <= k < 6
    requires InSquare(x, y, 2 * Hsz(bl), ax, ay) && InSquare(x, y, 2 * Hsz(bl), cx, cy)
    ensures var (h, q) := (Hsz(bl), Hsz(bl) / 2);
            var (rows, columns) := (ay < y + h <==> cy < y + h, ax < x + h <==> cx < x + h);
            var t := Together(PartitionBlocks(f, bl, x, y, PARTITIONS[k]), ax, ay, cx, cy);
            && (k == 4 ==> (t <==> rows && (ay < y + h ==> columns)))
            && (k == 5 ==> (t <==> rows && (ay >= y + h ==> columns)))
  {
    assert k >= 4 ==> Hsz(bl) == Hsz(bl) / 2 * 2;
    TogetherIs(PartitionBlocks(f, bl, x, y, PARTITIONS[k]), ax, ay, cx, cy);
    hide Hsz, Together;
  }

  lemma ColumnSplitsCut(f: Frame, bl: Level, x: nat, y: nat, k: nat, ax: int, ay: int, cx: int, cy: int)
    requires HasSymbol(bl, k) && 6 <= k < 8
    requires InSquare(x, y, 2 * Hsz(bl), ax, ay) && InSquare(x, y, 2 * Hsz(bl), cx, cy)
    ensures var (h, q) := (Hsz(bl), Hsz(bl) / 2);
            var (rows, columns) := (ay < y + h <==> cy < y + h, ax < x + h <==> cx < x + h);
            var t := Together(PartitionBlocks(f, bl, x, y, PARTITIONS[k]), ax, ay, cx, cy);
            && (k == 6 ==> (t <==> columns && (ax < x + h ==> rows)))
            && (k == 7 ==> (t <==> columns && (ax >= x + h ==> rows)))
  {
    assert k >= 4 ==> Hsz(bl) == Hsz(bl) / 2 * 2;
    TogetherIs(PartitionBlocks(f, bl, x, y, PARTITIONS[k]), ax, ay, cx, cy);
    hide Hsz, Together;
  }

  lemma StripsCut(f: Frame, bl: Level, x: nat, y: nat, k: nat, ax: int, ay: int, cx: int, cy: int)
    requires HasSymbol(bl, k) && 8 <= k
    requires InSquare(x, y, 2 * Hsz(bl), ax, ay) && InSquare(x, y, 2 * Hsz(bl), cx, cy)
    requires k == 8 ==> var l := y + Hsz(bl) / 2 * 3; l < f.bh || (ay < l && cy < l)
    requires k == 9 ==> var l := x + Hsz(bl) / 2 * 3; l < f.bw || (ax < l && cx < l)
    ensures var (h, q) := (Hsz(bl), Hsz(bl) / 2);
            var (rows, columns) := (ay < y + h <==> cy < y + h, ax < x + h <==> cx < x + h);
            var t := Together(PartitionBlocks(f, bl, x, y, PARTITIONS[k]), ax, ay, cx, cy);
            && (k == 8 ==> (t <==> rows && (ay < y + q <==> cy < y + q) && (ay < y + h + q <==> cy < y + h + q)))
            && (k == 9 ==> (t <==> columns && (ax < x + q <==> cx < x + q) && (ax < x + h + q <==> cx < x + h + q)))
  {
    assert k >= 4 ==> Hsz(bl) == Hsz(bl) / 2 * 2;
    TogetherIs(PartitionBlocks(f, bl, x, y, PARTITIONS[k]), ax, ay, cx, cy);
    hide Hsz, Together;
  }

  /** The blocks of a partition are decoded row by row, from left to right, except that symbol 6, whose left
      part is halved, goes column by column. */
  lemma PartitionOrder(f: Frame, bl: Level, x: nat, y: nat, k: nat)
    requires HasSymbol(bl, k)
    ensures var bs := PartitionBlocks(f, bl, x, y, PARTITIONS[k]);
            forall i, j | 0 <= i < j < |bs| ::
              if k == 6 then bs[i].x < bs[j].x || (bs[i].x == bs[j].x && bs[i].y < bs[j].y)
              else bs[i].y < bs[j].y || (bs[i].y == bs[j].y && bs[i].x < bs[j].x)
  {
    assert k >= 4 ==> Hsz(bl) == Hsz(bl) / 2 * 2;
    hide Hsz;
  }

  /** Every block is recorded under its square's level and the partition of the symbol. */
  lemma PartitionRecords(f: Frame, bl: Level, x: nat, y: nat, bp: Partition)
    ensures forall b | b in PartitionBlocks(f, bl, x, y, bp) :: b.bl == bl && b.bp == bp
  {
  }

  /** In the first pass, a square that starts four quarters in the frame reads one symbol. Symbol 3 above 8x8
      leads to the four quarters, row by row; any other one cuts the square as it says, unless that would
      give 4:2:2 a block taller than wide, which is an error. */
  lemma WholeSquare(f: Frame, stream: nat -> nat, bl: Level, x: nat, y: nat, pos: nat)
    requires f.Valid() && Inside(f, x, y) && x + Hsz(bl) < f.bw && y + Hsz(bl) < f.bh
    requires HasSymbol(bl, stream(pos))
    ensures var ((d, next), k, h) := (Decide(f, Symbols(stream), bl, x, y, pos), stream(pos), Hsz(bl));
            var bs := PartitionBlocks(f, bl, x, y, PARTITIONS[k]);
            && next == pos + 1
            && (k == 3 && bl < BL_8X8 ==> d == Squares([(x, y), (x + h, y), (x, y + h), (x + h, y + h)]))
            && ((k != 3 || bl == BL_8X8) && !(f.is422 && SomeTall(bs)) ==> d == Leaves(bs))
            && ((k != 3 || bl == BL_8X8) && f.is422 && SomeTall(bs) ==> d == Invalid)
  {
    TallPartitions(f, bl, x, y, stream(pos));
    hide Hsz, PartitionBlocks, SomeTall;
  }

  ghost predicate SomeTall(bs: seq<Block>) { exists i :: 0 <= i < |bs| && bs[i].h > bs[i].w }

  lemma TallPartitions(f: Frame, bl: Level, x: nat, y: nat, k: nat)
    requires HasSymbol(bl, k)
    ensures SomeTall(PartitionBlocks(f, bl, x, y, PARTITIONS[k])) <==> k == 2 || k == 6 || k == 7 || k == 9
  {
    var bs := PartitionBlocks(f, bl, x, y, PARTITIONS[k]);
    assert k >= 4 ==> Hsz(bl) == Hsz(bl) / 2 * 2;
    hide Hsz;
    if k == 2 || k == 9 {
      assert bs[0].h > bs[0].w;
    } else if k == 6 {
      assert bs[2].h > bs[2].w;
    } else if k == 7 {
      assert bs[0].h > bs[0].w;
    }
  }

  /** Where the frame ends below the upper half, or right of the left half, one bit is read: 1 leads to the two
      quarters in the frame, 0 to one block that is the half in the frame; in 4:2:2 the left half, taller than
      wide, is an error. Where it ends in the first quarter nothing is read and that quarter follows. */
  lemma CutSquare(f: Frame, stream: nat -> nat, bl: Level, x: nat, y: nat, pos: nat)
    requires f.Valid() && Inside(f, x, y) && stream(pos) < 2
    ensures var ((d, next), bit, h) := (Decide(f, Symbols(stream), bl, x, y, pos), stream(pos), Hsz(bl));
            && (x + h < f.bw && y + h >= f.bh ==>
                  && next == pos + 1
                  && d == if bit == 1 then Squares([(x, y), (x + h, y)]) else Leaves([Block(bl, PH, x, y, 2 * h, h)]))
            && (x + h >= f.bw && y + h < f.bh ==>
                  && next == pos + 1
                  && d == if bit == 1 then Squares([(x, y), (x, y + h)])
                          else if f.is422 then Invalid
                          else Leaves([Block(bl, PV, x, y, h, 2 * h)]))
            && (x + h >= f.bw && y + h >= f.bh ==> next == pos && d == Squares([(x, y)]))
  {
    hide Hsz;
  }
}
