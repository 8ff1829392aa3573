/** The padded 12x12 working buffer of the CDEF filter: which taps are available,
    and the routine that gathers them from the four places they live in. */
module CdefPadding {

  /** The tap buffer has this row stride, whatever the block width. */
  const TMP_STRIDE := 12
  const TMP_SIZE := 144

  /** Marks a tap that lies outside the frame: the smallest 16-bit integer. */
  const SENTINEL := -32768

  datatype Edges = Edges(left: bool, right: bool, top: bool, bottom: bool)

  /** Cell (i, j) of the buffer is pixel (i - 2, j - 2) of the block; it is available unless it
      falls in a two-pixel border the frame does not have. */
  predicate Available(e: Edges, w: nat, h: nat, i: int, j: int) {
    && (i < 2 ==> e.top)
    && (h + 2 <= i ==> e.bottom)
    && (j < 2 ==> e.left)
    && (w + 2 <= j ==> e.right)
  }

  /** The sizes the filter is called with. */
  predicate BlockSize(w: nat, h: nat) {
    (w == 4 || w == 8) && (h == 4 || h == 8)
  }

  /** The picture has the whole block, and every neighbour row and column that `e` announces. */
  ghost predicate Fits(pic: array3<int>, pl: nat, r0: nat, c0: nat, w: nat, h: nat, e: Edges) {
    && pl < pic.Length0
    && r0 + h + (if e.bottom then 2 else 0) <= pic.Length1
    && c0 + w + (if e.right then 2 else 0) <= pic.Length2
    && (e.left ==> 2 <= c0)
  }

  /** The backup buffers are large enough: left[bit][plane][8][2] and line[toggle][plane][2][width]. */
  ghost predicate Backups(pic: array3<int>, left: array4<int>, line: array4<int>, bit: nat, tf: nat) {
    && bit < left.Length0 && pic.Length0 <= left.Length1 && left.Length2 == 8 && left.Length3 == 2
    && tf < line.Length0 && pic.Length0 <= line.Length1 && line.Length2 == 2
    && pic.Length2 <= line.Length3
  }

  /** What cell (i, j) of the buffer must hold, in terms of the buffers it is gathered from:
      the rows above come from the line backup, the columns to the left from the column backup,
      and everything else from the picture. */
  ghost function Cell(pic: array3<int>, pl: nat, r0: nat, c0: nat, left: array4<int>, bit: nat,
                      line: array4<int>, tf: nat, w: nat, h: nat, e: Edges, i: nat, j: nat): int
    requires BlockSize(w, h) && Fits(pic, pl, r0, c0, w, h, e) && Backups(pic, left, line, bit, tf)
    reads pic, left, line
  {
    if h + 4 <= i || w + 4 <= j then 0
    else if !Available(e, w, h, i, j) then SENTINEL
    else if i < 2 then line[tf, pl, i, c0 + j - 2]
    else if i < h + 2 && j < 2 then left[bit, pl, i - 2, j]
    else pic[pl, r0 + i - 2, c0 + j - 2]
  }

  ghost predicate InRect(k: int, i0: int, i1: int, j0: int, j1: int) {
    i0 <= k / TMP_STRIDE < i1 && j0 <= k % TMP_STRIDE < j1
  }

  /** Writes the sentinel over a rectangle of `h` rows and `w` columns whose corner is (i0, j0). */
  method Fill(tmp: array<int>, i0: nat, j0: nat, w: nat, h: nat)
    requires tmp.Length == TMP_SIZE && i0 + h <= TMP_STRIDE && j0 + w <= TMP_STRIDE
    modifies tmp
    ensures forall k | 0 <= k < TMP_SIZE ::
              tmp[k] == if InRect(k, i0, i0 + h, j0, j0 + w) then SENTINEL else old(tmp[k])
  {
    for y := 0 to h
      invariant forall k | 0 <= k < TMP_SIZE ::
                  tmp[k] == if InRect(k, i0, i0 + y, j0, j0 + w) then SENTINEL else old(tmp[k])
    {
      for x := 0 to w
        invariant forall k | 0 <= k < TMP_SIZE ::
                    tmp[k] == if InRect(k, i0, i0 + y, j0, j0 + w) || InRect(k, i0 + y, i0 + y + 1, j0, j0 + x)
                              then SENTINEL else old(tmp[k])
      {
        tmp[(i0 + y) * TMP_STRIDE + j0 + x] := SENTINEL;
      }
    }
  }

  /** Copies a rectangle of the line backup into the first two rows. */
  method CopyTop(tmp: array<int>, line: array4<int>, tf: nat, pl: nat, c0: nat, yStart: nat, xStart: nat, xEnd: nat)
    requires tmp.Length == TMP_SIZE && yStart <= 2 && xStart <= xEnd <= TMP_STRIDE
    requires tf < line.Length0 && pl < line.Length1 && line.Length2 == 2
    requires xStart < 2 ==> 2 <= c0
    requires c0 + xEnd <= line.Length3 + 2
    modifies tmp
    ensures forall k | 0 <= k < TMP_SIZE ::
              tmp[k] == if InRect(k, yStart, 2, xStart, xEnd)
                        then line[tf, pl, k / TMP_STRIDE, c0 + k % TMP_STRIDE - 2] else old(tmp[k])
  {
    for y := yStart to 2
      invariant forall k | 0 <= k < TMP_SIZE ::
                  tmp[k] == if InRect(k, yStart, y, xStart, xEnd)
                            then line[tf, pl, k / TMP_STRIDE, c0 + k % TMP_STRIDE - 2] else old(tmp[k])
    {
      for x := xStart to xEnd
        invariant forall k | 0 <= k < TMP_SIZE ::
                    tmp[k] == if InRect(k, yStart, y, xStart, xEnd) || InRect(k, y, y + 1, xStart, x)
                              then line[tf, pl, k / TMP_STRIDE, c0 + k % TMP_STRIDE - 2] else old(tmp[k])
      {
        tmp[x + y * TMP_STRIDE] := line[tf, pl, y, c0 + x - 2];
      }
    }
  }

  /** Copies the column backup into the two columns left of the block. */
  method CopyLeft(tmp: array<int>, left: array4<int>, bit: nat, pl: nat, h: nat, xStart: nat)
    requires tmp.Length == TMP_SIZE && h <= 8 && xStart <= 2
    requires bit < left.Length0 && pl < left.Length1 && left.Length2 == 8 && left.Length3 == 2
    modifies tmp
    ensures forall k | 0 <= k < TMP_SIZE ::
              tmp[k] == if InRect(k, 2, h + 2, xStart, 2)
                        then left[bit, pl, k / TMP_STRIDE - 2, k % TMP_STRIDE] else old(tmp[k])
  {
    for y := 0 to h
      invariant forall k | 0 <= k < TMP_SIZE ::
                  tmp[k] == if InRect(k, 2, y + 2, xStart, 2)
                            then left[bit, pl, k / TMP_STRIDE - 2, k % TMP_STRIDE] else old(tmp[k])
    {
      for x := xStart to 2
        invariant forall k | 0 <= k < TMP_SIZE ::
                    tmp[k] == if InRect(k, 2, y + 2, xStart, 2) || InRect(k, y + 2, y + 3, xStart, x)
                              then left[bit, pl, k / TMP_STRIDE - 2, k % TMP_STRIDE] else old(tmp[k])
      {
        tmp[x + (y + 2) * TMP_STRIDE] := left[bit, pl, y, x];
      }
    }
  }

  /** Copies a rectangle of the picture, given in buffer coordinates. */
  method CopyPicture(tmp: array<int>, pic: array3<int>, pl: nat, r0: nat, c0: nat,
                     yStart: nat, yEnd: nat, xStart: nat, xEnd: nat)
    requires tmp.Length == TMP_SIZE && 2 <= yStart <= yEnd <= TMP_STRIDE && xStart <= xEnd <= TMP_STRIDE
    requires pl < pic.Length0 && r0 + yEnd <= pic.Length1 + 2 && c0 + xEnd <= pic.Length2 + 2
    requires xStart < 2 ==> 2 <= c0
    modifies tmp
    ensures forall k | 0 <= k < TMP_SIZE ::
              tmp[k] == if InRect(k, yStart, yEnd, xStart, xEnd)
                        then pic[pl, r0 + k / TMP_STRIDE - 2, c0 + k % TMP_STRIDE - 2] else old(tmp[k])
  {
    for y := yStart to yEnd
      invariant forall k | 0 <= k < TMP_SIZE ::
                  tmp[k] == if InRect(k, yStart, y, xStart, xEnd)
                            then pic[pl, r0 + k / TMP_STRIDE - 2, c0 + k % TMP_STRIDE - 2] else old(tmp[k])
    {
      for x := xStart to xEnd
        invariant forall k | 0 <= k < TMP_SIZE ::
                    tmp[k] == if InRect(k, yStart, y, xStart, xEnd) || InRect(k, y, y + 1, xStart, x)
                              then pic[pl, r0 + k / TMP_STRIDE - 2, c0 + k % TMP_STRIDE - 2] else old(tmp[k])
      {
        tmp[x + y * TMP_STRIDE] := pic[pl, r0 + y - 2, c0 + x - 2];
      }
    }
  }

  /** Builds the whole tap buffer of one block. */
  method Padding(pic: array3<int>, pl: nat, r0: nat, c0: nat, left: array4<int>, bit: nat,
                 line: array4<int>, tf: nat, w: nat, h: nat, e: Edges) returns (tmp: array<int>)
    requires BlockSize(w, h) && Fits(pic, pl, r0, c0, w, h, e) && Backups(pic, left, line, bit, tf)
    ensures fresh(tmp) && tmp.Length == TMP_SIZE
    ensures forall k | 0 <= k < TMP_SIZE ::
              tmp[k] == Cell(pic, pl, r0, c0, left, bit, line, tf, w, h, e, k / TMP_STRIDE, k % TMP_STRIDE)
  {
    tmp := new int[TMP_SIZE](_ => 0);
    var xStart, xEnd, yStart, yEnd := 0, w + 4, 0, h + 4;
    if !e.top {
      Fill(tmp, 0, 0, w + 4, 2);
      yStart := yStart + 2;
    }
    if !e.bottom {
      Fill(tmp, h + 2, 0, w + 4, 2);
      yEnd := yEnd - 2;
    }
    if !e.left {
      Fill(tmp, yStart, 0, 2, yEnd - yStart);
      xStart := xStart + 2;
    }
    if !e.right {
      Fill(tmp, yStart, w + 2, 2, yEnd - yStart);
      xEnd := xEnd - 2;
    }
    CopyTop(tmp, line, tf, pl, c0, yStart, xStart, xEnd);
    CopyLeft(tmp, left, bit, pl, h, xStart);
    CopyPicture(tmp, pic, pl, r0, c0, 2, h + 2, 2, xEnd);
    CopyPicture(tmp, pic, pl, r0, c0, h + 2, yEnd, xStart, xEnd);
  }
}
