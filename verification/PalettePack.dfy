/** The last step of reading a palette map: invisible edges are filled with the nearest visible index, and
    two indices are packed into a byte, in a buffer of its own or over the map itself. */
module PalettePack {
  import opened IntOps
  import opened Options
  import opened Palette

  /** Two 4-bit indices in one byte. */
  function Pack(a: nat, b: nat): (r: nat)
    requires a < 256 && b < 256
    ensures r < 256
  {
    ((a as bv8) | ((b as bv8) << 4)) as nat
  }

  lemma PackNibbles(a: nat, b: nat)
    requires a < 16 && b < 16
    ensures Pack(a, b) == a + 16 * b
  {
    var x, y := a as bv8, b as bv8;
    Halves(x, y);
    hide *;
    assert x as nat == a && y as nat == b;
  }

  lemma Halves(x: bv8, y: bv8)
    requires x < 16 && y < 16
    ensures (x | (y << 4)) as nat == x as nat + 16 * (y as nat)
  {
    assert x | (y << 4) == x + 16 * y;
  }

  /** The indices of a map and the cells beside it fit four bits. */
  ghost predicate Nibbles(t: seq<nat>) { forall k | 0 <= k < |t| :: t[k] < 16 }

  /** What byte `x` of a packed row is made of, when the row of the map starts at `p`: two visible indices,
      or twice the index behind the visible ones. */
  function PackedAt(t: seq<nat>, p: nat, w: nat, x: nat): nat
    requires Nibbles(t) && p + w <= |t| && (2 * x + 1 < w || p + w < |t|)
  {
    if 2 * x + 1 < w then Pack(t[p + 2 * x], t[p + 2 * x + 1]) else 0x11 * t[p + w]
  }

  /** The same with the last visible index, as the C code has it. */
  function PackedInC(t: seq<nat>, p: nat, w: nat, x: nat): nat
    requires Nibbles(t) && 0 < w && p + w <= |t|
  {
    if 2 * x + 1 < w then Pack(t[p + 2 * x], t[p + 2 * x + 1]) else 0x11 * t[p + w - 1]
  }

  // ----- Rows -----

  /** Rows of `2 * d` indices become rows of `d` bytes. */
  lemma RowStart(d: nat, y: nat)
    ensures At(2 * d, y, 0) == 2 * At(d, y, 0)
    ensures At(d, y + 1, 0) == At(d, y, 0) + d
  {
    assert y * (2 * d) == 2 * (y * d);
    assert (y + 1) * d == y * d + d;
  }

  lemma RowInside(d: nat, y: nat, n: nat)
    requires y < n
    ensures At(d, y, 0) + d <= At(d, n, 0)
  {
    RowStart(d, y);
    Multiples(y + 1, n, d);
  }

  /** Row `y` of the bytes is made of row `y` of the map, or of the last visible one if that is above it. */
  ghost predicate RowPacked(out: seq<nat>, t: seq<nat>, d: nat, w: nat, h: nat, y: nat)
    requires Nibbles(t) && 0 < w <= 2 * d && w % 2 == 0 && 0 < h
  {
    var (q, p) := (At(d, y, 0), 2 * At(d, Min(y, h - 1), 0));
    q + d <= |out| && p + 2 * d <= |t| && forall x: nat | x < d :: out[q + x] == PackedAt(t, p, w, x)
  }

  ghost predicate RowsPacked(out: seq<nat>, t: seq<nat>, d: nat, w: nat, h: nat, n: nat)
    requires Nibbles(t) && 0 < w <= 2 * d && w % 2 == 0 && 0 < h
  {
    forall y: nat | y < n :: RowPacked(out, t, d, w, h, y)
  }

  /** Rows that come before a change keep their bytes. */
  lemma RowsKept(out: seq<nat>, out': seq<nat>, t: seq<nat>, d: nat, w: nat, h: nat, n: nat)
    requires Nibbles(t) && 0 < w <= 2 * d && w % 2 == 0 && 0 < h && RowsPacked(out, t, d, w, h, n)
    requires At(d, n, 0) <= |out| && At(d, n, 0) <= |out'| && out[..At(d, n, 0)] == out'[..At(d, n, 0)]
    ensures RowsPacked(out', t, d, w, h, n)
  {
    hide Nibbles, PackedAt, At;
    forall y: nat | y < n ensures RowPacked(out', t, d, w, h, y) {
      RowInside(d, y, n);
      assert RowPacked(out, t, d, w, h, y);
      var (q, p) := (At(d, y, 0), 2 * At(d, Min(y, h - 1), 0));
      assert out'[q..q + d] == out[..At(d, n, 0)][q..q + d] == out[q..q + d];
      forall x: nat | x < d ensures out'[q + x] == PackedAt(t, p, w, x) {
        assert out'[q..q + d][x] == out[q..q + d][x];
      }
    }
  }

  // ----- The steps -----

  /** Repeats the last visible index of every visible row up to the end of the row. */
  method FillEdge(tmp: array<nat>, stride: nat, w: nat, h: nat)
    requires Fits(tmp, stride, w, h) && 0 < w
    modifies tmp
    ensures forall r: nat, c: nat | r < h && c < stride ::
              tmp[At(stride, r, c)] == old(tmp[At(stride, r, Min(c, w - 1))])
  {
    if stride > w {
      for y := 0 to h
        invariant forall r: nat, c: nat | r < h && c < stride ::
                    tmp[At(stride, r, c)] == old(tmp[At(stride, r, if r < y then Min(c, w - 1) else c)])
      {
        FillRow(tmp, stride, w, h, y);
      }
    }
  }

  method FillRow(tmp: array<nat>, stride: nat, w: nat, h: nat, y: nat)
    requires Fits(tmp, stride, w, h) && 0 < w < stride && y < h
    modifies tmp
    ensures forall r: nat, c: nat | r < h && c < stride ::
              tmp[At(stride, r, c)] == old(tmp[At(stride, r, if r == y then Min(c, w - 1) else c)])
  {
    var offset := y * stride + w;
    var len := stride - w;
    RowInside(stride, y, h);
    var filler := tmp[offset - 1];
    forall k | 0 <= k < len {
      tmp[offset + k] := filler;
    }
    forall r: nat, c: nat | r < h && c < stride
      ensures tmp[At(stride, r, c)] == old(tmp[At(stride, r, if r == y then Min(c, w - 1) else c)])
    {
      RowsApart(stride, r, y);
      RowsApart(stride, y, r);
    }
  }

  /** Packs the row that starts at `2 * q` over the bytes from `q` on. No index is overwritten before it has
      been read. */
  method PackRowInPlace(tmp: array<nat>, ghost t: seq<nat>, q: nat, d: nat, w: nat)
    requires |t| <= tmp.Length && Nibbles(t) && 0 < w <= 2 * d && w % 2 == 0 && 2 * q + 2 * d <= |t|
    requires forall k | 2 * q <= k < |t| :: tmp[k] == t[k]
    modifies tmp
    ensures tmp[..q] == old(tmp[..q])
    ensures forall x: nat | x < d :: tmp[q + x] == PackedAt(t, 2 * q, w, x)
    ensures forall k | 2 * q + 2 * d <= k < |t| :: tmp[k] == t[k]
  {
    hide Nibbles, Pack;
    assert forall k | 0 <= k < |t| :: t[k] < 16 by { NibblesAre(t); }
    for x := 0 to w / 2
      invariant tmp[..q] == old(tmp[..q])
      invariant forall i: nat | i < x :: tmp[q + i] == PackedAt(t, 2 * q, w, i)
      invariant forall k | 2 * q + 2 * x <= k < |t| :: tmp[k] == t[k]
    {
      tmp[q + x] := Pack(tmp[2 * q + 2 * x], tmp[2 * q + 2 * x + 1]);
    }
    if w / 2 < d {
      var filler := 0x11 * tmp[2 * q + w];
      forall k | w / 2 <= k < d {
        tmp[q + k] := filler;
      }
    }
  }

  lemma NibblesAre(t: seq<nat>)
    requires Nibbles(t)
    ensures forall k | 0 <= k < |t| :: t[k] < 16
  {
  }

  /** Packs the row that starts at `2 * q` into another buffer. */
  method PackRow(dst: array<nat>, tmp: array<nat>, ghost t: seq<nat>, q: nat, d: nat, w: nat)
    requires dst != tmp && |t| <= tmp.Length && tmp[..|t|] == t && Nibbles(t) && 0 < w <= 2 * d && w % 2 == 0
    requires 2 * q + 2 * d <= |t| && q + d <= dst.Length
    modifies dst
    ensures dst[..q] == old(dst[..q])
    ensures forall x: nat | x < d :: dst[q + x] == PackedAt(t, 2 * q, w, x)
  {
    hide Nibbles, Pack;
    assert forall k | 0 <= k < |t| :: t[k] < 16 by { NibblesAre(t); }
    assert forall k | 0 <= k < |t| :: tmp[k] == tmp[..|t|][k] == t[k];
    for x := 0 to w / 2
      invariant dst[..q] == old(dst[..q])
      invariant forall i: nat | i < x :: dst[q + i] == PackedAt(t, 2 * q, w, i)
    {
      dst[q + x] := Pack(tmp[2 * q + 2 * x], tmp[2 * q + 2 * x + 1]);
    }
    if w / 2 < d {
      var filler := 0x11 * tmp[2 * q + w];
      forall k | w / 2 <= k < d {
        dst[q + k] := filler;
      }
    }
  }

  /** Copies the last visible row to the rows below it. */
  method CopyLastRow(out: array<nat>, ghost t: seq<nat>, d: nat, w: nat, h: nat, bh: nat)
    requires Nibbles(t) && 0 < w <= 2 * d && w % 2 == 0 && 0 < h <= bh && At(d, bh, 0) <= out.Length
    requires RowsPacked(out[..], t, d, w, h, h)
    modifies out
    ensures RowsPacked(out[..], t, d, w, h, bh)
  {
    for y := h to bh
      invariant RowsPacked(out[..], t, d, w, h, y)
    {
      ghost var before := out[..];
      RowInside(d, y, bh);
      RowInside(d, h - 1, y);
      assert RowPacked(out[..], t, d, w, h, h - 1);
      var last, row := (h - 1) * d, y * d;
      forall x | 0 <= x < d {
        out[row + x] := out[last + x];
      }
      hide PackedAt, Nibbles, RowsPacked;
      assert out[..][..At(d, y, 0)] == before[..At(d, y, 0)];
      RowsKept(before, out[..], t, d, w, h, y);
      assert RowPacked(out[..], t, d, w, h, y);
      RowsMore(out[..], t, d, w, h, y);
    }
  }

  lemma RowsMore(out: seq<nat>, t: seq<nat>, d: nat, w: nat, h: nat, n: nat)
    requires Nibbles(t) && 0 < w <= 2 * d && w % 2 == 0 && 0 < h
    requires RowsPacked(out, t, d, w, h, n) && RowPacked(out, t, d, w, h, n)
    ensures RowsPacked(out, t, d, w, h, n + 1)
  {
  }

  /** Packs the visible rows over the map itself. */
  method PackInPlace(tmp: array<nat>, ghost t: seq<nat>, d: nat, w: nat, h: nat)
    requires |t| <= tmp.Length && tmp[..|t|] == t && Nibbles(t) && |t| == 2 * At(d, h, 0)
    requires 0 < w <= 2 * d && w % 2 == 0 && 0 < h
    modifies tmp
    ensures RowsPacked(tmp[..], t, d, w, h, h)
  {
    assert forall k | 0 <= k < |t| :: tmp[k] == tmp[..|t|][k] == t[k];
    for y := 0 to h
      invariant RowsPacked(tmp[..], t, d, w, h, y)
      invariant forall k | 2 * At(d, y, 0) <= k < |t| :: tmp[k] == t[k]
    {
      ghost var before := tmp[..];
      RowStart(d, y);
      RowInside(d, y, h);
      PackRowInPlace(tmp, t, y * d, d, w);
      hide PackedAt, Nibbles, RowsPacked;
      assert tmp[..][..At(d, y, 0)] == before[..At(d, y, 0)];
      RowsKept(before, tmp[..], t, d, w, h, y);
      assert RowPacked(tmp[..], t, d, w, h, y);
      RowsMore(tmp[..], t, d, w, h, y);
    }
  }

  /** Packs the visible rows into a buffer of their own. */
  method PackOut(dst: array<nat>, tmp: array<nat>, ghost t: seq<nat>, d: nat, w: nat, h: nat)
    requires dst != tmp && |t| <= tmp.Length && tmp[..|t|] == t && Nibbles(t) && |t| == 2 * At(d, h, 0)
    requires 0 < w <= 2 * d && w % 2 == 0 && 0 < h && At(d, h, 0) <= dst.Length
    modifies dst
    ensures RowsPacked(dst[..], t, d, w, h, h)
  {
    for y := 0 to h
      invariant RowsPacked(dst[..], t, d, w, h, y)
    {
      ghost var before := dst[..];
      RowStart(d, y);
      RowInside(d, y, h);
      PackRow(dst, tmp, t, y * d, d, w);
      hide PackedAt, Nibbles, RowsPacked;
      assert dst[..][..At(d, y, 0)] == before[..At(d, y, 0)];
      RowsKept(before, dst[..], t, d, w, h, y);
      assert RowPacked(dst[..], t, d, w, h, y);
      RowsMore(dst[..], t, d, w, h, y);
    }
  }

  /** Packs a map whose rows have `2 * d` indices into `dst` or, without it, over the map. */
  method Finish(dst: Option<array<nat>>, tmp: array<nat>, ghost t: seq<nat>, d: nat, bh: nat, w: nat, h: nat)
    requires |t| <= tmp.Length && tmp[..|t|] == t && Nibbles(t) && |t| == 2 * At(d, h, 0)
    requires 0 < w <= 2 * d && w % 2 == 0 && 0 < h <= bh && 2 * At(d, bh, 0) <= tmp.Length
    requires dst.Some? ==> dst.value != tmp && At(d, bh, 0) <= dst.value.Length
    modifies if dst.Some? then {dst.value} else {tmp}
    ensures RowsPacked((if dst.Some? then dst.value else tmp)[..], t, d, w, h, bh)
  {
    Multiples(h, bh, d);
    var out := tmp;
    if dst.Some? {
      out := dst.value;
      PackOut(out, tmp, t, d, w, h);
    } else {
      PackInPlace(tmp, t, d, w, h);
    }
    hide RowsPacked, Nibbles;
    CopyLastRow(out, t, d, w, h, bh);
  }

  // ----- What is read back -----

  /** The index of column `c` in a packed row. */
  function Unpacked(out: seq<nat>, d: nat, r: nat, c: nat): nat
    requires At(d, r, 0) + c / 2 < |out|
  {
    var b := out[At(d, r, 0) + c / 2];
    if c % 2 == 0 then b % 16 else b / 16
  }

  lemma PackedBack(t: seq<nat>, p: nat, w: nat, c: nat)
    requires Nibbles(t) && 0 < w && p + w <= |t| && w % 2 == 0 && (c < w || p + w < |t|)
    ensures var b := PackedAt(t, p, w, c / 2);
            (if c % 2 == 0 then b % 16 else b / 16) == if c < w then t[p + c] else t[p + w]
  {
    assert c == c / 2 * 2 || c == c / 2 * 2 + 1;
    hide Pack;
    if c < w {
      PackNibbles(t[p + c / 2 * 2], t[p + c / 2 * 2 + 1]);
      NibblesBack(t[p + c / 2 * 2], t[p + c / 2 * 2 + 1]);
    } else {
      NibblesBack(t[p + w], t[p + w]);
    }
  }

  lemma NibblesBack(a: nat, b: nat)
    requires a < 16
    ensures (a + 16 * b) % 16 == a && (a + 16 * b) / 16 == b
  {
  }

  /** The bytes read back as the map, the index behind the visible ones on their right, and the last visible
      row below. */
  lemma ReadsBack(out: seq<nat>, t: seq<nat>, d: nat, w: nat, h: nat, bh: nat, r: nat, c: nat)
    requires Nibbles(t) && 0 < w <= 2 * d && w % 2 == 0 && 0 < h && RowsPacked(out, t, d, w, h, bh)
    requires r < bh && c < 2 * d
    ensures At(d, r, 0) + c / 2 < |out| && At(2 * d, Min(r, h - 1), Min(c, w)) < |t|
    ensures Unpacked(out, d, r, c) == t[At(2 * d, Min(r, h - 1), Min(c, w))]
  {
    hide PackedAt, Nibbles;
    var from := Min(r, h - 1);
    RowStart(d, from);
    assert RowPacked(out, t, d, w, h, r);
    PackedBack(t, 2 * At(d, from, 0), w, c);
    assert out[At(d, r, 0) + c / 2] == PackedAt(t, 2 * At(d, from, 0), w, c / 2);
    assert At(2 * d, from, Min(c, w)) == 2 * At(d, from, 0) + Min(c, w);
  }

  /** The Rust code doubles the index behind the visible ones, the C code the last visible one. They pack a
      row alike exactly if there is nothing behind the visible ones or the two are the same. */
  lemma FinishAgrees(t: seq<nat>, p: nat, d: nat, w: nat)
    requires Nibbles(t) && 0 < w <= 2 * d && w % 2 == 0 && p + 2 * d <= |t|
    ensures (forall x: nat | x < d :: PackedAt(t, p, w, x) == PackedInC(t, p, w, x))
       <==> w == 2 * d || t[p + w] == t[p + w - 1]
  {
    if w < 2 * d {
      assert PackedAt(t, p, w, w / 2) == 0x11 * t[p + w] && PackedInC(t, p, w, w / 2) == 0x11 * t[p + w - 1];
    }
  }

  /** After the edges are filled, all cells of the visible rows hold decoded indices. */
  ghost predicate Filled(t: seq<nat>, stride: nat, syms: seq<nat>, w: nat, h: nat, n: nat)
    requires 0 < w && 0 < h && ValidSymbols(syms, w, h, n) && n <= COLORS
  {
    && |t| == At(stride, h, 0)
    && forall r: nat, c: nat | r < h && c < stride ::
         At(stride, r, c) < |t| && t[At(stride, r, c)] == Decoded(syms, w, h, n, r, Min(c, w - 1))
  }

  /** With the edges filled, the Rust code packs every row as the C code does. */
  lemma FilledAgrees(t: seq<nat>, syms: seq<nat>, d: nat, w: nat, h: nat, n: nat, r: nat)
    requires 0 < w <= 2 * d && w % 2 == 0 && 0 < h && ValidSymbols(syms, w, h, n) && n <= COLORS && r < h
    requires Filled(t, 2 * d, syms, w, h, n) && Nibbles(t)
    ensures var p := 2 * At(d, r, 0);
            p + 2 * d <= |t| && forall x: nat | x < d :: PackedAt(t, p, w, x) == PackedInC(t, p, w, x)
  {
    hide Nibbles, Decoded, ValidSymbols;
    RowStart(d, r);
    RowInside(2 * d, r, h);
    assert t[At(2 * d, r, w - 1)] == Decoded(syms, w, h, n, r, w - 1);
    if w < 2 * d {
      assert t[At(2 * d, r, w)] == Decoded(syms, w, h, n, r, w - 1);
    }
    FinishAgrees(t, 2 * At(d, r, 0), d, w);
  }

  lemma FilledNibbles(t: seq<nat>, stride: nat, syms: seq<nat>, w: nat, h: nat, n: nat)
    requires 0 < w && 0 < h && ValidSymbols(syms, w, h, n) && n <= COLORS && 0 < stride
    requires Filled(t, stride, syms, w, h, n)
    ensures Nibbles(t)
  {
    hide Decoded;
    forall k | 0 <= k < |t| ensures t[k] < 16 {
      var r, c := k / stride, k % stride;
      assert k == At(stride, r, c);
      Multiples(h, r, stride);
      assert t[At(stride, r, c)] == Decoded(syms, w, h, n, r, Min(c, w - 1));
    }
  }

  /** Reads the symbols and fills the edges. */
  method ReadAndFill(tmp: array<nat>, syms: seq<nat>, w4: nat, h4: nat, bw4: nat, n: nat,
                     order: array2<nat>, ctx: array<nat>) returns (pos: nat)
    requires 0 < w4 <= bw4 && 0 < h4 && n <= COLORS && ValidSymbols(syms, 4 * w4, 4 * h4, n)
    requires Fits(tmp, 4 * bw4, 4 * w4, 4 * h4)
    requires 4 * w4 <= order.Length0 && order.Length1 == COLORS && 4 * w4 <= ctx.Length && tmp != ctx
    modifies tmp, order, ctx
    ensures pos == |syms| && At(4 * bw4, 4 * h4, 0) <= tmp.Length
    ensures Filled(tmp[..At(4 * bw4, 4 * h4, 0)], 4 * bw4, syms, 4 * w4, 4 * h4, n)
  {
    pos := ReadPalIndices(tmp, syms, w4, h4, bw4, n, order, ctx);
    hide ValidSymbols, OutsideKept, Decoded;
    var stride, w, h := 4 * bw4, 4 * w4, 4 * h4;
    assert forall r: nat, c: nat | r < h && c < w :: CellDecoded(tmp, stride, syms, w, h, n, r, c);
    label decoded:
    FillEdge(tmp, stride, w, h);
    forall r: nat, c: nat | r < h && c < stride
      ensures At(stride, r, c) < At(stride, h, 0)
      ensures tmp[At(stride, r, c)] == Decoded(syms, w, h, n, r, Min(c, w - 1))
    {
      AtInside(stride, h, r, c);
      assert old@decoded(CellDecoded(tmp, stride, syms, w, h, n, r, Min(c, w - 1)));
    }
  }

  /** Reading a palette map whole: symbols to indices, edges, packing. The bytes, in `palIdx` or over the
      map, read back as the decoded map, whose last visible column and row are repeated to the right and
      below. */
  method ReadAndPack(tmp: array<nat>, palIdx: Option<array<nat>>, syms: seq<nat>, w4: nat, h4: nat, bw4: nat, bh4: nat,
                     n: nat, order: array2<nat>, ctx: array<nat>) returns (pos: nat)
    requires 0 < w4 <= bw4 && 0 < h4 <= bh4 && n <= COLORS && ValidSymbols(syms, 4 * w4, 4 * h4, n)
    requires Fits(tmp, 4 * bw4, 4 * w4, 4 * bh4)
    requires 4 * w4 <= order.Length0 && order.Length1 == COLORS && 4 * w4 <= ctx.Length && tmp != ctx
    requires palIdx.Some? ==>
               palIdx.value != tmp && palIdx.value != ctx && At(2 * bw4, 4 * bh4, 0) <= palIdx.value.Length
    modifies tmp, order, ctx, if palIdx.Some? then {palIdx.value} else {}
    ensures pos == |syms|
    ensures ReadsAsMap((if palIdx.Some? then palIdx.value else tmp)[..], 2 * bw4, 4 * bh4, syms, 4 * w4, 4 * h4, n)
  {
    pos := ReadAndFill(tmp, syms, w4, h4, bw4, n, order, ctx);
    ghost var t := tmp[..At(4 * bw4, 4 * h4, 0)];
    hide Filled, Nibbles, RowsPacked, ReadsAsMap, ValidSymbols;
    FilledNibbles(t, 4 * bw4, syms, 4 * w4, 4 * h4, n);
    RowStart(2 * bw4, 4 * h4);
    RowStart(2 * bw4, 4 * bh4);
    RowInside(4 * bw4, 4 * bh4 - 1, 4 * bh4);
    Finish(palIdx, tmp, t, 2 * bw4, 4 * bh4, 4 * w4, 4 * h4);
    MapReadsBack((if palIdx.Some? then palIdx.value else tmp)[..], t, syms, 2 * bw4, 4 * w4, 4 * h4, 4 * bh4, n);
  }

  /** The bytes read back as the decoded map, extended to the right and below. */
  ghost predicate ReadsAsMap(out: seq<nat>, d: nat, bh: nat, syms: seq<nat>, w: nat, h: nat, n: nat)
    requires 0 < w && 0 < h && ValidSymbols(syms, w, h, n) && n <= COLORS
  {
    forall r: nat, c: nat | r < bh && c < 2 * d :: ReadsDecoded(out, d, syms, w, h, n, r, c)
  }

  ghost predicate ReadsDecoded(out: seq<nat>, d: nat, syms: seq<nat>, w: nat, h: nat, n: nat, r: nat, c: nat)
    requires 0 < w && 0 < h && ValidSymbols(syms, w, h, n) && n <= COLORS
  {
    && At(d, r, 0) + c / 2 < |out|
    && Unpacked(out, d, r, c) == Decoded(syms, w, h, n, Min(r, h - 1), Min(c, w - 1))
  }

  lemma MapReadsBack(out: seq<nat>, t: seq<nat>, syms: seq<nat>, d: nat, w: nat, h: nat, bh: nat, n: nat)
    requires 0 < w <= 2 * d && w % 2 == 0 && 0 < h && ValidSymbols(syms, w, h, n) && n <= COLORS
    requires Filled(t, 2 * d, syms, w, h, n) && Nibbles(t) && RowsPacked(out, t, d, w, h, bh)
    ensures ReadsAsMap(out, d, bh, syms, w, h, n)
  {
    hide RowsPacked, Nibbles, Decoded, ValidSymbols, At;
    forall r: nat, c: nat | r < bh && c < 2 * d ensures ReadsDecoded(out, d, syms, w, h, n, r, c) {
      ReadsBack(out, t, d, w, h, bh, r, c);
      var from, col := Min(r, h - 1), Min(c, w);
      assert t[At(2 * d, from, col)] == Decoded(syms, w, h, n, from, Min(col, w - 1));
    }
  }

  // ----- Who reads the bytes -----

  function LowIndex(i: nat): nat
    requires i < 256
  {
    ((i as bv8) & 7) as nat
  }

  function HighIndex(i: nat): nat
    requires i < 256
  {
    ((i as bv8) >> 4) as nat
  }

  predicate OutOfPalette(i: nat)
    requires i < 256
  {
    (i as bv8) & 0x88 != 0
  }

  lemma ByteParts(a: nat, b: nat)
    requires a < 8 && b < 8
    ensures LowIndex(a + 16 * b) == a && HighIndex(a + 16 * b) == b && !OutOfPalette(a + 16 * b)
  {
    PackNibbles(a, b);
    var x, y := a as bv8, b as bv8;
    assert (a + 16 * b) as bv8 == x | (y << 4);
    BitParts(x, y);
    hide *;
    assert x as nat == a && y as nat == b;
  }

  lemma BitParts(x: bv8, y: bv8)
    requires x < 8 && y < 8
    ensures (x | (y << 4)) & 7 == x && (x | (y << 4)) >> 4 == y && (x | (y << 4)) & 0x88 == 0
  {
  }

  /** The colour of the decoded index at (r, c), or of the nearest visible one. */
  ghost function Colour(pal: seq<int>, syms: seq<nat>, vw: nat, vh: nat, n: nat, r: nat, c: nat): int
    requires |pal| == COLORS && 0 < vw && 0 < vh && ValidSymbols(syms, vw, vh, n) && n <= COLORS
  {
    pal[Decoded(syms, vw, vh, n, Min(r, vh - 1), Min(c, vw - 1))]
  }

  /** Prediction from a palette takes the indices from the bytes one after the other, the low half first. It
      finds the colour of every decoded index, and no byte with a bit that no index has. */
  method PalPred(dst: array2<int>, pal: seq<int>, idx: array<nat>, w: nat, h: nat,
                 ghost syms: seq<nat>, ghost vw: nat, ghost vh: nat, ghost n: nat)
    requires |pal| == COLORS && w % 2 == 0 && dst.Length0 == h && dst.Length1 == w
    requires 0 < vw && 0 < vh && ValidSymbols(syms, vw, vh, n) && n <= COLORS
    requires ReadsAsMap(idx[..], w / 2, h, syms, vw, vh, n)
    modifies dst
    ensures forall y: nat, x: nat | y < h && x < w :: dst[y, x] == Colour(pal, syms, vw, vh, n, y, x)
  {
    hide ReadsAsMap, Decoded, Colour, ValidSymbols;
    var j := 0;
    for y := 0 to h
      invariant j == At(w / 2, y, 0)
      invariant forall r: nat, c: nat | r < y && c < w :: dst[r, c] == Colour(pal, syms, vw, vh, n, r, c)
    {
      RowStart(w / 2, y);
      j := PredRow(dst, pal, idx, w, h, y, j, syms, vw, vh, n);
    }
  }

  method PredRow(dst: array2<int>, pal: seq<int>, idx: array<nat>, w: nat, h: nat, y: nat, j: nat,
                 ghost syms: seq<nat>, ghost vw: nat, ghost vh: nat, ghost n: nat)
    returns (j': nat)
    requires |pal| == COLORS && w % 2 == 0 && dst.Length0 == h && dst.Length1 == w && y < h
    requires 0 < vw && 0 < vh && ValidSymbols(syms, vw, vh, n) && n <= COLORS
    requires ReadsAsMap(idx[..], w / 2, h, syms, vw, vh, n) && j == At(w / 2, y, 0)
    modifies dst
    ensures j' == j + w / 2
    ensures forall x: nat | x < w :: dst[y, x] == Colour(pal, syms, vw, vh, n, y, x)
    ensures forall r, c | 0 <= r < h && 0 <= c < w && r != y :: dst[r, c] == old(dst[r, c])
  {
    hide ReadsAsMap, Decoded, Colour, ValidSymbols, LowIndex, HighIndex, OutOfPalette, At;
    j' := j;
    var x := 0;
    while x < w
      invariant 0 <= x <= w && x % 2 == 0 && j' == j + x / 2
      invariant forall c: nat | c < x :: dst[y, c] == Colour(pal, syms, vw, vh, n, y, c)
      invariant forall r, c | 0 <= r < h && 0 <= c < w && r != y :: dst[r, c] == old(dst[r, c])
    {
      ByteAt(idx[..], w / 2, h, pal, syms, vw, vh, n, y, x, j');
      var i := idx[j'];
      j' := j' + 1;
      assert !OutOfPalette(i);
      dst[y, x] := pal[LowIndex(i)];
      dst[y, x + 1] := pal[HighIndex(i)];
      x := x + 2;
    }
  }

  lemma ByteAt(out: seq<nat>, d: nat, bh: nat, pal: seq<int>, syms: seq<nat>, vw: nat, vh: nat, n: nat,
               y: nat, x: nat, j: nat)
    requires 0 < vw && 0 < vh && ValidSymbols(syms, vw, vh, n) && n <= COLORS && |pal| == COLORS
    requires ReadsAsMap(out, d, bh, syms, vw, vh, n)
    requires y < bh && x + 1 < 2 * d && x % 2 == 0 && j == At(d, y, 0) + x / 2
    ensures j < |out| && out[j] < 256 && !OutOfPalette(out[j])
    ensures LowIndex(out[j]) < COLORS && HighIndex(out[j]) < COLORS
    ensures pal[LowIndex(out[j])] == Colour(pal, syms, vw, vh, n, y, x)
    ensures pal[HighIndex(out[j])] == Colour(pal, syms, vw, vh, n, y, x + 1)
  {
    hide Decoded, ValidSymbols, At, LowIndex, HighIndex, OutOfPalette;
    assert ReadsDecoded(out, d, syms, vw, vh, n, y, x) && ReadsDecoded(out, d, syms, vw, vh, n, y, x + 1);
    assert (x + 1) / 2 == x / 2;
    var b := out[j];
    assert b == b % 16 + 16 * (b / 16);
    ByteParts(b % 16, b / 16);
  }
}
