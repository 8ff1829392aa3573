/** The per-superblock record that block decoding leaves for CDEF: which 8x8 positions hold coded
    coefficients, and which strength entry each 64x64 unit uses. */
module LoopFilterMask {
  import opened IntOps

  /** One 128x128 superblock. A mask row covers two 4-pixel rows; its two 16-bit halves cover the
      32 columns of 4 pixels. A `cdefIdx` of -1 means that no index was coded for the unit. */
  datatype Av1Filter = Av1Filter(cdefIdx: seq<int>, noskip: seq<(bv16, bv16)>) {
    ghost predicate Valid() {
      |cdefIdx| == 4 && |noskip| == 16 && forall i | 0 <= i < 4 :: -1 <= cdefIdx[i] < 8
    }
  }

  /** The index of the 64x64 unit, within its superblock, that holds the 4x4 cell (bx4, by4). */
  function UnitOf(bx4: nat, by4: nat): (u: nat)
    ensures u < 4
  {
    (by4 / 16 % 2) * 2 + bx4 / 16 % 2
  }

  /** The two bits of pair `k` of a mask row. */
  function Pair(lo: bv16, hi: bv16, k: nat): bv32
    requires k < 16
  {
    (((hi as bv32) << 16) | (lo as bv32)) & ((3 as bv32) << (k * 2))
  }

  /** CDEF's test of the 8x8 position at (bx4, by4): are any of its two mask bits set? */
  predicate Coded(m: Av1Filter, bx4: nat, by4: nat)
    requires |m.noskip| == 16
  {
    var row := m.noskip[by4 % 32 / 2];
    Pair(row.0, row.1, bx4 % 32 / 2) != 0
  }

  // ----- What block decoding has to record -----

  /** A decoded block, in cells of 4x4 from the corner of its 128x128 area; `idx` is the strength index
      the bitstream holds for it, should one be read. */
  datatype Blk = Blk(x: nat, y: nat, w: nat, h: nat, skip: bool, idx: nat) {
    ghost predicate Valid() {
      && IsSize(w) && IsSize(h) && x % w == 0 && y % h == 0 && x + w <= 32 && y + h <= 32
      && (w == 32 ==> h >= 16) && (h == 32 ==> w >= 16) && idx < 8
    }

    predicate Has(bx4: int, by4: int) { x <= bx4 < x + w && y <= by4 < y + h }

    /** Does the block reach into the 64x64 unit `u`? */
    predicate In(u: nat) {
      u % 2 * 16 < x + w && x < u % 2 * 16 + 16 && u / 2 * 16 < y + h && y < u / 2 * 16 + 16
    }
  }

  ghost predicate Disjoint(a: Blk, b: Blk) {
    a.x + a.w <= b.x || b.x + b.w <= a.x || a.y + a.h <= b.y || b.y + b.h <= a.y
  }

  /** Is one of the two cells at column `c` of mask row `r` in a block that is not skipped? */
  ghost predicate Touched(done: seq<Blk>, r: nat, c: nat) {
    exists i :: 0 <= i < |done| && !done[i].skip && (done[i].Has(c, 2 * r) || done[i].Has(c, 2 * r + 1))
  }

  /** The index of the first block of unit `u` that is not skipped, or -1. */
  ghost function FirstIdx(done: seq<Blk>, u: nat): int {
    if done == [] then -1
    else
      var n := |done| - 1;
      var before := FirstIdx(done[..n], u);
      if before == -1 && !done[n].skip && done[n].In(u) then done[n].idx else before
  }

  lemma {:induction false} FirstIdxNone(done: seq<Blk>, u: nat)
    ensures FirstIdx(done, u) == -1 <==> forall i | 0 <= i < |done| :: done[i].skip || !done[i].In(u)
  {
    if done != [] {
      FirstIdxNone(done[..|done| - 1], u);
    }
  }

  /** The index belongs to a block of the unit that is not skipped, and every block of the unit before it is. */
  lemma {:induction false} FirstIdxIs(done: seq<Blk>, u: nat)
    requires FirstIdx(done, u) != -1
    ensures exists i :: 0 <= i < |done| && IsFirst(done, u, i) && FirstIdx(done, u) == done[i].idx
  {
    var n := |done| - 1;
    if FirstIdx(done[..n], u) != -1 {
      FirstIdxIs(done[..n], u);
      var i :| 0 <= i < n && IsFirst(done[..n], u, i) && FirstIdx(done[..n], u) == done[..n][i].idx;
      assert forall j | 0 <= j <= i :: done[..n][j] == done[j];
      assert IsFirst(done, u, i);
    } else {
      FirstIdxNone(done[..n], u);
      assert forall j | 0 <= j < n :: done[..n][j] == done[j];
      assert IsFirst(done, u, n);
    }
  }

  ghost predicate IsFirst(done: seq<Blk>, u: nat, i: nat) {
    i < |done| && !done[i].skip && done[i].In(u) && forall j | 0 <= j < i :: done[j].skip || !done[j].In(u)
  }

  lemma FirstIdxAppend(done: seq<Blk>, b: Blk, u: nat)
    ensures FirstIdx(done + [b], u)
         == if FirstIdx(done, u) == -1 && !b.skip && b.In(u) then b.idx else FirstIdx(done, u)
  {
    assert (done + [b])[..|done|] == done;
  }

  // ----- Mask bits -----

  predicate Bit(m: bv16, c: nat)
    requires c < 16
  {
    m & ((1 as bv16) << c) != 0
  }

  /** The bits of `w` columns from column `lo` of their half. */
  function RowMask(w: nat, lo: nat): bv32
    requires 0 < w <= 32 && lo < 16
  {
    (0xffff_ffff as bv32 >> (32 - w)) << lo
  }

  function Low16(m: bv32): bv16 { (m & 0xffff) as bv16 }

  lemma RowMaskBits(w: nat, lo: nat, c: nat)
    requires IsSize(w) && lo < 16 && lo % w == 0 && c < 16
    ensures Bit(Low16(RowMask(w, lo)), c) <==> lo <= c < lo + w
  {
    if w == 1 {
      NarrowMask(1, lo, c);
    } else if w == 2 {
      NarrowMask(2, lo, c);
    } else {
      WideMask(w, lo, c);
    }
  }

  lemma NarrowMask(w: nat, lo: nat, c: nat)
    requires w == 1 || w == 2
    requires lo < 16 && lo % w == 0 && c < 16
    ensures Bit(Low16(RowMask(w, lo)), c) <==> lo <= c < lo + w
  {
  }

  lemma WideMask(w: nat, lo: nat, c: nat)
    requires w == 4 || w == 8 || w == 16 || w == 32
    requires lo < 16 && lo % w == 0 && c < 16
    ensures Bit(Low16(RowMask(w, lo)), c) <==> lo <= c < lo + w
  {
  }

  lemma BitOfOr(a: bv16, b: bv16, c: nat)
    requires c < 16
    ensures Bit(a | b, c) <==> Bit(a, c) || Bit(b, c)
  {
    var one := (1 as bv16) << c;
    assert (a | b) & one == (a & one) | (b & one);
  }

  function And(m: bv16, x: bv32): bv32 { (m as bv32) & x }

  predicate Meets(m: bv16, x: bv32) { And(m, x) != 0 }

  function TwoColumns(k: nat): bv32
    requires k < 8
  {
    (3 as bv32) << (k * 2)
  }

  function Column(c: nat): bv32
    requires c < 16
  {
    (1 as bv32) << c
  }

  lemma LowPair(lo: bv16, hi: bv16, k: nat)
    requires k < 8
    ensures Pair(lo, hi, k) == And(lo, TwoColumns(k))
  {
  }

  lemma HighPair(lo: bv16, hi: bv16, k: nat)
    requires 8 <= k < 16
    ensures Pair(lo, hi, k) == And(hi, TwoColumns(k - 8)) << 16
  {
    ShiftedColumns(k);
    HighHalf(lo, hi, TwoColumns(k - 8));
  }

  lemma ShiftedColumns(k: nat)
    requires 8 <= k < 16
    ensures (3 as bv32) << (k * 2) == TwoColumns(k - 8) << 16
  {
  }

  /** Columns of the upper half do not read the lower one. */
  lemma HighHalf(lo: bv16, hi: bv16, t: bv32)
    ensures (((hi as bv32) << 16) | (lo as bv32)) & (t << 16) == And(hi, t) << 16
  {
  }

  lemma ShiftedAnd(m: bv16, x: bv32)
    ensures And(m, x) << 16 != 0 <==> Meets(m, x)
    ensures And(m, x) != 0 <==> Meets(m, x)
  {
  }

  lemma ColumnsOf(k: nat)
    requires k < 8
    ensures TwoColumns(k) == Column(2 * k) | Column(2 * k + 1)
  {
  }

  lemma MeetsEither(m: bv16, a: bv32, b: bv32)
    ensures Meets(m, a | b) <==> Meets(m, a) || Meets(m, b)
  {
    assert (m as bv32) & (a | b) == ((m as bv32) & a) | ((m as bv32) & b);
  }

  lemma MeetsColumn(m: bv16, c: nat)
    requires c < 16
    ensures Meets(m, Column(c)) <==> Bit(m, c)
  {
  }

  lemma TwoBits(m: bv16, k: nat)
    requires k < 8
    ensures Meets(m, TwoColumns(k)) <==> Bit(m, 2 * k) || Bit(m, 2 * k + 1)
  {
    hide Column, Bit, Meets, TwoColumns;
    ColumnsOf(k);
    MeetsColumn(m, 2 * k);
    MeetsColumn(m, 2 * k + 1);
    MeetsEither(m, Column(2 * k), Column(2 * k + 1));
  }

  /** CDEF's two-bit test reads the bits of two neighbouring columns. */
  lemma PairOfBits(lo: bv16, hi: bv16, k: nat)
    requires k < 16
    ensures Pair(lo, hi, k) != 0
       <==> if k < 8 then Bit(lo, 2 * k) || Bit(lo, 2 * k + 1) else Bit(hi, 2 * k - 16) || Bit(hi, 2 * k - 15)
  {
    hide Bit, Pair, Meets, TwoColumns;
    if k < 8 {
      LowPair(lo, hi, k);
      ShiftedAnd(lo, TwoColumns(k));
      TwoBits(lo, k);
    } else {
      HighPair(lo, hi, k);
      ShiftedAnd(hi, TwoColumns(k - 8));
      TwoBits(hi, k - 8);
    }
  }

  function Half(row: (bv16, bv16), h: nat): bv16 { if h == 0 then row.0 else row.1 }

  /** The mask bits are those of `blocks`. */
  ghost predicate MarksAre(words: seq<(bv16, bv16)>, blocks: seq<Blk>)
    requires |words| == 16
  {
    forall r, h, c | 0 <= r < 16 && 0 <= h < 2 && 0 <= c < 16 ::
      Bit(Half(words[r], h), c) <==> Touched(blocks, r, 16 * h + c)
  }

  // ----- Block decoding -----

  /** The part of the tile state that writes one 128x128 area's record. The ghost fields say which
      blocks were decoded and which 64x64 units have been begun. */
  class MaskWriter {
    const sb128: bool
    const cdefIdx: array<int>
    const noskip: array2<bv16>
    var cur: nat
    ghost var done: seq<Blk>
    ghost var begun: set<nat>

    ghost predicate Shaped() { cdefIdx.Length == 4 && noskip.Length0 == 16 && noskip.Length1 == 2 }

    ghost predicate Valid()
      reads this, cdefIdx, noskip
    {
      && Shaped() && cur < 4 && (sb128 ==> cur == 0)
      && (forall i | 0 <= i < |done| :: done[i].Valid())
      && MarksAre(Words(), done)
      && (forall u | u in begun && u < 4 :: cdefIdx[u] == FirstIdx(done, u))
      && (forall u | 0 <= u < 4 :: -1 <= cdefIdx[u] < 8)
      && (forall i, u: nat | 0 <= i < |done| && u < 4 && done[i].In(u) :: u in begun)
    }

    /** Nothing of unit `u` has been decoded. */
    ghost predicate Fresh(u: nat)
      reads this
    {
      forall i | 0 <= i < |done| :: !done[i].In(u)
    }

    /** Before a frame is decoded its records are all zeros. */
    constructor (sb128: bool)
      ensures Valid() && this.sb128 == sb128 && fresh(cdefIdx) && fresh(noskip)
      ensures done == [] && begun == {}
    {
      this.sb128, this.cur, this.done, this.begun := sb128, 0, [], {};
      this.cdefIdx := new int[4](_ => 0);
      this.noskip := new bv16[16, 2]((_, _) => 0);
    }

    /** Begins the superblock that holds the cell (x, y). */
    method BeginSuperblock(x: nat, y: nat)
      requires Valid() && x < 32 && y < 32
      requires forall u | 0 <= u < 4 && (sb128 || u == UnitOf(x, y)) :: Fresh(u)
      modifies this, cdefIdx
      ensures Valid() && done == old(done) && (sb128 || cur == UnitOf(x, y))
      ensures begun == old(begun) + if sb128 then {0, 1, 2, 3} else {UnitOf(x, y)}
    {
      forall u | 0 <= u < 4 && (sb128 || u == UnitOf(x, y)) ensures FirstIdx(done, u) == -1 {
        assert Fresh(u);
        FirstIdxNone(done, u);
      }
      hide FirstIdx, Touched, Bit, MarksAre, Blk.Valid, Blk.In;
      if sb128 {
        cur := 0;
        cdefIdx[0], cdefIdx[1], cdefIdx[2], cdefIdx[3] := -1, -1, -1, -1;
        begun := begun + {0, 1, 2, 3};
      } else {
        cur := x / 16 % 2 + y / 16 % 2 * 2;
        cdefIdx[cur] := -1;
        begun := begun + {cur};
      }
    }

    /** The index of a block that is not skipped is read for the first such block of each unit. */
    method ReadIndex(b: Blk)
      requires Valid() && b.Valid() && !b.skip
      requires forall i | 0 <= i < |done| :: Disjoint(done[i], b)
      requires InSuperblock(b)
      modifies cdefIdx
      ensures forall u | u in begun && u < 4 :: cdefIdx[u] == FirstIdx(done + [b], u)
      ensures forall u | 0 <= u < 4 :: -1 <= cdefIdx[u] < 8
    {
      hide MarksAre;
      assert b.idx < 8;
      UnitsOfBlock(b);
      IndexAppend(done, b);
      hide FirstIdx, Touched, Bit, Blk.In, Disjoint, Blk.Valid;
      var idx := if sb128 then b.x / 16 % 2 + b.y / 16 % 2 * 2 else 0;
      assert sb128 ==> cur + idx == UnitOf(b.x, b.y);
      assert Reaches(b, UnitOf(b.x, b.y));
      hide UnitOf;
      assert b.In(cur + idx);
      if cdefIdx[cur + idx] == -1 {
        cdefIdx[cur + idx] := b.idx;
        if b.w > 16 {
          cdefIdx[cur + idx + 1] := b.idx;
        }
        if b.h > 16 {
          cdefIdx[cur + idx + 2] := b.idx;
        }
        if b.w == 32 && b.h == 32 {
          cdefIdx[cur + idx + 3] := b.idx;
        }
      }
    }

    /** The mask rows of a block that is not skipped. */
    method MarkRows(b: Blk)
      requires Shaped() && MarksAre(Words(), done) && b.Valid() && !b.skip
      modifies noskip
      ensures MarksAre(Words(), done + [b])
    {
      var mask := Low16(RowMask(b.w, b.x % 16));
      var half := b.x / 16 % 2;
      assert b.w == 32 ==> half == 0 by { MaskColumn(b, 0, 0); }
      var y := 0;
      hide Bit, Touched, MarksAre, Low16, RowMask, Blk.Valid;
      while y < b.h
        invariant y % 2 == 0 && y <= b.h + 1
        invariant forall r, h | 0 <= r < 16 && 0 <= h < 2 ::
                    noskip[r, h] == Marked(old(noskip[r, h]), mask,
                                           b.y / 2 <= r < b.y / 2 + y / 2 && (h == half || b.w == 32))
      {
        RowOfBlock(b, y);
        OrInto(b.y / 2 + y / 2, half, mask, b.w == 32);
        y := y + 2;
      }
      MarksAppend(b, done, mask, old(Words()), Words(), y);
    }

    /** The mask words, two to a row. */
    function Words(): (s: seq<(bv16, bv16)>)
      requires Shaped()
      reads this, noskip
      ensures |s| == 16 && forall r | 0 <= r < 16 :: s[r] == (noskip[r, 0], noskip[r, 1])
    {
      seq(16, r requires 0 <= r < 16 reads noskip => (noskip[r, 0], noskip[r, 1]))
    }

    method OrInto(row: nat, half: nat, mask: bv16, both: bool)
      requires Shaped() && row < 16 && half < 2 && (both ==> half == 0)
      modifies noskip
      ensures forall r, h | 0 <= r < 16 && 0 <= h < 2 ::
                noskip[r, h] == Marked(old(noskip[r, h]), mask, r == row && (h == half || both))
    {
      noskip[row, half] := noskip[row, half] | mask;
      if both {
        noskip[row, 1] := noskip[row, 1] | mask;
      }
    }

    /** What decoding a block records: its strength index, then its mask bits. */
    method DecodeBlock(b: Blk)
      requires Valid() && b.Valid() && InSuperblock(b)
      requires forall i | 0 <= i < |done| :: Disjoint(done[i], b)
      modifies this, cdefIdx, noskip
      ensures Valid() && done == old(done) + [b] && begun == old(begun) && cur == old(cur)
    {
      if !b.skip {
        ReadIndex(b);
        MarkRows(b);
      } else {
        forall u: nat { FirstIdxAppend(done, b, u); }
        forall r: nat, c: nat ensures Touched(done + [b], r, c) <==> Touched(done, r, c) {
          TouchedAppend(done, b, r, c);
        }
      }
      hide Bit, Touched, FirstIdx;
      done := done + [b];
    }

    function View(): (m: Av1Filter)
      requires Shaped()
      reads this, cdefIdx, noskip
      ensures |m.noskip| == 16
    {
      Av1Filter(cdefIdx[..], Words())
    }

    /** The block belongs to the superblock last begun. */
    ghost predicate InSuperblock(b: Blk)
      reads this
    {
      if sb128 then begun == {0, 1, 2, 3} else cur in begun && forall u: nat | u < 4 && b.In(u) :: u == cur
    }
  }

  /** The columns of the block, in as many mask rows as `y` rows of cells make. */
  predicate InRows(b: Blk, y: nat, r: int, c: int) {
    b.x <= c < b.x + b.w && b.y / 2 <= r < b.y / 2 + y / 2
  }

  lemma MaskColumn(b: Blk, h: nat, c: nat)
    requires b.Valid() && h < 2 && c < 16
    ensures Bit(Low16(RowMask(b.w, b.x % 16)), c) && (h == b.x / 16 % 2 || b.w == 32)
       <==> b.x <= 16 * h + c < b.x + b.w
    ensures b.w == 32 ==> b.x == 0
  {
    ColumnAligned(b.x, b.w);
    RowMaskBits(b.w, b.x % 16, c);
  }

  lemma MarksAppend(b: Blk, done: seq<Blk>, mask: bv16, before: seq<(bv16, bv16)>, after: seq<(bv16, bv16)>, y: nat)
    requires b.Valid() && !b.skip && mask == Low16(RowMask(b.w, b.x % 16)) && b.h <= y <= b.h + 1 && y % 2 == 0
    requires |before| == 16 && |after| == 16 && MarksAre(before, done)
    requires forall r, h | 0 <= r < 16 && 0 <= h < 2 ::
               Half(after[r], h)
                 == Marked(Half(before[r], h), mask, b.y / 2 <= r < b.y / 2 + y / 2 && (h == b.x / 16 % 2 || b.w == 32))
    ensures MarksAre(after, done + [b])
  {
    hide Bit, Touched, Low16, RowMask, Blk.Valid, Half, Marked;
    forall r, h, c | 0 <= r < 16 && 0 <= h < 2 && 0 <= c < 16
      ensures Bit(Half(after[r], h), c) <==> Touched(done + [b], r, 16 * h + c)
    {
      assert Bit(Half(before[r], h), c) <==> Touched(done, r, 16 * h + c);
      MarkedBit(b, done, mask, r, h, c, Half(before[r], h), Half(after[r], h), y);
    }
  }

  /** One word of one mask row, before and after. */
  lemma MarkedBit(b: Blk, done: seq<Blk>, mask: bv16, r: nat, h: nat, c: nat, before: bv16, after: bv16, y: nat)
    requires b.Valid() && !b.skip && mask == Low16(RowMask(b.w, b.x % 16)) && b.h <= y <= b.h + 1 && y % 2 == 0
    requires h < 2 && c < 16
    requires after == Marked(before, mask, b.y / 2 <= r < b.y / 2 + y / 2 && (h == b.x / 16 % 2 || b.w == 32))
    requires Bit(before, c) <==> Touched(done, r, 16 * h + c)
    ensures Bit(after, c) <==> Touched(done + [b], r, 16 * h + c)
  {
    TouchedAppend(done, b, r, 16 * h + c);
    RowsOfBlock(b, y, r, 16 * h + c);
    MaskColumn(b, h, c);
    BitOfMarked(before, mask, b.y / 2 <= r < b.y / 2 + y / 2 && (h == b.x / 16 % 2 || b.w == 32), c);
    hide Bit, Low16, RowMask, Blk.Valid, Touched, Marked;
  }

  function Marked(word: bv16, mask: bv16, on: bool): bv16 { if on then word | mask else word }

  lemma BitOfMarked(word: bv16, mask: bv16, on: bool, c: nat)
    requires c < 16
    ensures Bit(Marked(word, mask, on), c) <==> Bit(word, c) || (on && Bit(mask, c))
  {
    BitOfOr(word, mask, c);
  }

  lemma ColumnAligned(x: nat, w: nat)
    requires IsSize(w) && x % w == 0 && x + w <= 32
    ensures x % 16 % w == 0
    ensures x / 16 < 2 && (w == 32 ==> x == 0) && (w <= 16 ==> x % 16 + w <= 16)
  {
    if w == 1 || w == 2 || w == 4 {
    } else if w == 8 || w == 16 {
    }
  }

  lemma RowOfBlock(b: Blk, y: nat)
    requires b.Valid() && y < b.h && y % 2 == 0
    ensures b.y / 2 + y / 2 < 16
  {
    ColumnAligned(b.y, b.h);
  }

  /** A block of a single row of cells marks the mask row that row belongs to. */
  lemma RowsOfBlock(b: Blk, y: nat, r: nat, c: nat)
    requires b.Valid() && b.h <= y <= b.h + 1 && y % 2 == 0
    ensures InRows(b, y, r, c) <==> b.Has(c, 2 * r) || b.Has(c, 2 * r + 1)
  {
    if b.h > 1 {
      assert b.h % 2 == 0 && b.y % 2 == 0 by { EvenRows(b.y, b.h); }
    }
  }

  lemma EvenRows(y: nat, h: nat)
    requires IsSize(h) && h > 1 && y % h == 0
    ensures h % 2 == 0 && y % 2 == 0
  {
    var k := h / 2;
    assert h == 2 * k;
    EvenMultiple(y, k);
  }

  lemma EvenMultiple(y: nat, k: nat)
    requires k > 0 && y % (2 * k) == 0
    ensures y % 2 == 0
  {
    var q := y / (2 * k);
    assert y == (2 * k) * q;
    assert (2 * k) * q == 2 * (k * q);
  }

  lemma TouchedAppend(done: seq<Blk>, b: Blk, r: nat, c: nat)
    ensures Touched(done + [b], r, c)
       <==> Touched(done, r, c) || (!b.skip && (b.Has(c, 2 * r) || b.Has(c, 2 * r + 1)))
  {
    var all := done + [b];
    assert all[|done|] == b;
    forall i | 0 <= i < |done| ensures all[i] == done[i] {
    }
    if Touched(done, r, c) {
      var i :| 0 <= i < |done| && !done[i].skip && (done[i].Has(c, 2 * r) || done[i].Has(c, 2 * r + 1));
      assert all[i] == done[i];
    }
  }

  lemma Span(x: nat, w: nat, p: nat)
    requires IsSize(w) && x % w == 0 && x + w <= 32 && p < 2
    ensures p * 16 < x + w && x < p * 16 + 16 <==> p == x / 16 || w == 32
    ensures w == 32 ==> x == 0
  {
    if w == 1 || w == 2 || w == 4 {
    } else if w == 8 || w == 16 {
    }
  }

  /** A block of up to 64x64 lies in one unit; a larger one fills the units it reaches. */
  lemma UnitsOfBlock(b: Blk)
    requires b.Valid()
    ensures forall u: nat | u < 4 :: b.In(u) <==> Reaches(b, u)
    ensures b.w == 32 ==> UnitOf(b.x, b.y) % 2 == 0
    ensures b.h == 32 ==> UnitOf(b.x, b.y) < 2
  {
    var p, q := b.x / 16, b.y / 16;
    Span(b.x, b.w, 0);
    Span(b.x, b.w, 1);
    Span(b.y, b.h, 0);
    Span(b.y, b.h, 1);
    forall u: nat | u < 4 ensures b.In(u) <==> Reaches(b, u) {
      InByAxis(b, u, p, q);
    }
  }

  predicate Reaches(b: Blk, u: nat) {
    var o := UnitOf(b.x, b.y);
    u == o || (b.w == 32 && u == o + 1) || (b.h == 32 && u == o + 2) || (b.w == 32 && b.h == 32 && u == o + 3)
  }

  lemma InByAxis(b: Blk, u: nat, p: nat, q: nat)
    requires u < 4 && p == b.x / 16 < 2 && q == b.y / 16 < 2
    requires b.w == 32 ==> p == 0
    requires b.h == 32 ==> q == 0
    requires u % 2 * 16 < b.x + b.w && b.x < u % 2 * 16 + 16 <==> u % 2 == p || b.w == 32
    requires u / 2 * 16 < b.y + b.h && b.y < u / 2 * 16 + 16 <==> u / 2 == q || b.h == 32
    ensures b.In(u) <==> Reaches(b, u)
  {
    assert UnitOf(b.x, b.y) == 2 * q + p;
  }

  /** A block larger than 64x64 is the first one in the units it reaches. */
  lemma UnitIsFree(done: seq<Blk>, b: Blk, u: nat)
    requires b.Valid() && u < 4 && b.In(u) && (b.w == 32 || b.h == 32)
    requires forall i | 0 <= i < |done| :: done[i].Valid() && Disjoint(done[i], b)
    ensures FirstIdx(done, u) == -1
  {
    FirstIdxNone(done, u);
  }

  /** What one more block means for the index of each unit. */
  lemma IndexAppend(done: seq<Blk>, b: Blk)
    requires b.Valid() && !b.skip
    requires forall i | 0 <= i < |done| :: done[i].Valid() && Disjoint(done[i], b)
    ensures forall u | 0 <= u < 4 ::
              FirstIdx(done + [b], u) == if FirstIdx(done, u) == -1 && b.In(u) then b.idx else FirstIdx(done, u)
    ensures b.w == 32 || b.h == 32 ==> forall u | 0 <= u < 4 && b.In(u) :: FirstIdx(done, u) == -1
  {
    hide FirstIdx, Blk.In, Disjoint, Blk.Valid;
    forall u | 0 <= u < 4
      ensures FirstIdx(done + [b], u) == if FirstIdx(done, u) == -1 && b.In(u) then b.idx else FirstIdx(done, u)
    {
      FirstIdxAppend(done, b, u);
    }
    if b.w == 32 || b.h == 32 {
      forall u | 0 <= u < 4 && b.In(u) ensures FirstIdx(done, u) == -1 {
        UnitIsFree(done, b, u);
      }
    }
  }

  // ----- What CDEF reads -----

  /** A cell of a block that is not skipped lies in the 8x8 position of (bx4, by4). */
  ghost predicate HasCoefficients(done: seq<Blk>, bx4: nat, by4: nat) {
    exists i, x, y :: 0 <= i < |done| && !done[i].skip && done[i].Has(x, y) && x / 2 == bx4 / 2 && y / 2 == by4 / 2
  }

  lemma TouchedIsCoefficients(done: seq<Blk>, bx4: nat, by4: nat, r: nat, k: nat)
    requires r == by4 / 2 && k == bx4 / 2
    ensures HasCoefficients(done, bx4, by4) <==> Touched(done, r, 2 * k) || Touched(done, r, 2 * k + 1)
  {
    TouchedHasCoefficients(done, bx4, by4, r, 2 * k);
    TouchedHasCoefficients(done, bx4, by4, r, 2 * k + 1);
    if HasCoefficients(done, bx4, by4) {
      var i, x, y :| 0 <= i < |done| && !done[i].skip && done[i].Has(x, y) && x / 2 == bx4 / 2 && y / 2 == by4 / 2;
      assert (x == 2 * k || x == 2 * k + 1) && (y == 2 * r || y == 2 * r + 1);
    }
  }

  lemma TouchedHasCoefficients(done: seq<Blk>, bx4: nat, by4: nat, r: nat, c: nat)
    requires r == by4 / 2 && c / 2 == bx4 / 2
    ensures Touched(done, r, c) ==> HasCoefficients(done, bx4, by4)
  {
    if Touched(done, r, c) {
      var i :| 0 <= i < |done| && !done[i].skip && (done[i].Has(c, 2 * r) || done[i].Has(c, 2 * r + 1));
      assert done[i].Has(c, 2 * r) || done[i].Has(c, 2 * r + 1);
    }
  }

  /** After any sequence of blocks, CDEF's test of an 8x8 position is true exactly when one of its four
      cells is in a block that was not skipped. */
  lemma CodedMeansCoefficients(w: MaskWriter, bx4: nat, by4: nat)
    requires w.Valid() && bx4 < 32 && by4 < 32
    ensures Coded(w.View(), bx4, by4) <==> HasCoefficients(w.done, bx4, by4)
  {
    var r, k := by4 / 2, bx4 / 2;
    assert w.View().noskip == w.Words() && MarksAre(w.Words(), w.done);
    hide FirstIdx, Bit, Touched, Pair, HasCoefficients, MarksAre, Coded, MaskWriter.Words,
         MaskWriter.View, MaskWriter.Valid;
    CodedIsPair(w.View(), bx4, by4, r, k);
    TouchedIsCoefficients(w.done, bx4, by4, r, k);
    PairTouched(w.Words(), w.done, r, k);
  }

  lemma CodedIsPair(m: Av1Filter, bx4: nat, by4: nat, r: nat, k: nat)
    requires |m.noskip| == 16 && bx4 < 32 && by4 < 32 && r == by4 / 2 && k == bx4 / 2
    ensures Coded(m, bx4, by4) == (Pair(m.noskip[r].0, m.noskip[r].1, k) != 0)
  {
    hide Pair;
  }

  lemma PairTouched(words: seq<(bv16, bv16)>, done: seq<Blk>, r: nat, k: nat)
    requires |words| == 16 && MarksAre(words, done) && r < 16 && k < 16
    ensures Pair(words[r].0, words[r].1, k) != 0 <==> Touched(done, r, 2 * k) || Touched(done, r, 2 * k + 1)
  {
    hide Bit, Touched, Pair;
    PairOfBits(words[r].0, words[r].1, k);
    var h, c := k / 8, k % 8 * 2;
    assert Bit(Half(words[r], h), c) <==> Touched(done, r, 16 * h + c);
    assert Bit(Half(words[r], h), c + 1) <==> Touched(done, r, 16 * h + (c + 1));
  }

  /** A unit's index is -1 exactly when none of its positions is to be filtered; otherwise it is the
      index of the first block of the unit that was not skipped. */
  lemma NoIndexMeansNoMask(w: MaskWriter, u: nat)
    requires w.Valid() && u < 4 && u in w.begun
    ensures w.View().cdefIdx[u] == FirstIdx(w.done, u)
    ensures w.View().cdefIdx[u] == -1
       <==> forall bx4, by4 | 0 <= bx4 < 32 && 0 <= by4 < 32 && UnitOf(bx4, by4) == u :: !Coded(w.View(), bx4, by4)
  {
    FirstIdxNone(w.done, u);
    assert w.View().cdefIdx[u] == w.cdefIdx[u];
    if i :| 0 <= i < |w.done| && !w.done[i].skip && w.done[i].In(u) {
      var (x, y) := CellInUnit(w.done[i], u);
      assert HasCoefficients(w.done, x, y);
      CodedMeansCoefficients(w, x, y);
    } else {
      forall bx4, by4 | 0 <= bx4 < 32 && 0 <= by4 < 32 && UnitOf(bx4, by4) == u ensures !Coded(w.View(), bx4, by4) {
        CodedMeansCoefficients(w, bx4, by4);
        if HasCoefficients(w.done, bx4, by4) {
          CoefficientsInUnit(w.done, bx4, by4);
        }
      }
    }
  }

  /** A cell of the block in unit `u`. */
  function CellInUnit(b: Blk, u: nat): (c: (nat, nat))
    requires b.Valid() && u < 4 && b.In(u)
    ensures b.Has(c.0, c.1) && c.0 < 32 && c.1 < 32 && UnitOf(c.0, c.1) == u
  {
    (Max(b.x, u % 2 * 16), Max(b.y, u / 2 * 16))
  }

  lemma CoefficientsInUnit(done: seq<Blk>, bx4: nat, by4: nat)
    requires HasCoefficients(done, bx4, by4) && bx4 < 32 && by4 < 32
    ensures exists i :: 0 <= i < |done| && !done[i].skip && done[i].In(UnitOf(bx4, by4))
  {
    var i, x, y :| 0 <= i < |done| && !done[i].skip && done[i].Has(x, y) && x / 2 == bx4 / 2 && y / 2 == by4 / 2;
    CellInItsUnit(done[i], x, y, bx4, by4);
  }

  lemma CellInItsUnit(b: Blk, x: int, y: int, bx4: nat, by4: nat)
    requires b.Has(x, y) && x / 2 == bx4 / 2 && y / 2 == by4 / 2 && bx4 < 32 && by4 < 32
    ensures b.In(UnitOf(bx4, by4))
  {
    assert x / 16 == bx4 / 16 && y / 16 == by4 / 16;
  }

  /** Whatever has been decoded so far, CDEF can read the record. */
  lemma ViewIsValid(w: MaskWriter)
    requires w.Valid()
    ensures w.View().Valid()
  {
  }

  /** The index CDEF finds for a position with coefficients is one that was coded. */
  lemma CodedHasIndex(w: MaskWriter, bx4: nat, by4: nat)
    requires w.Valid() && bx4 < 32 && by4 < 32 && HasCoefficients(w.done, bx4, by4)
    ensures w.View().cdefIdx[UnitOf(bx4, by4)] == FirstIdx(w.done, UnitOf(bx4, by4))
    ensures 0 <= FirstIdx(w.done, UnitOf(bx4, by4)) < 8
  {
    var u := UnitOf(bx4, by4);
    CoefficientsInUnit(w.done, bx4, by4);
    FirstIdxNone(w.done, u);
    hide FirstIdx, HasCoefficients, MarksAre, MaskWriter.Words;
    assert u in w.begun;
    assert w.View().cdefIdx[u] == w.cdefIdx[u];
  }
}
