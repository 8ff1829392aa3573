/** The buffer that keeps picture lines for CDEF: a ping-pong pair of two-line windows for every plane
    and superblock row, and optionally four unfiltered lines. Pictures may be stored top down or, with a
    negative stride, bottom up. */
module LineBuffers {
  import opened IntOps

  /** Superblock rows, the strides of luma and chroma in bytes, and whether unfiltered lines are kept. */
  datatype Geometry = Geometry(sbh: nat, yStride: int, uvStride: int, copy: bool) {
    function Stride(pl: nat): int { if pl == 0 then yStride else uvStride }

    /** The sizes of the parts for luma and for both chroma planes. */
    function YSize(): nat { Abs(yStride) * (4 * sbh) }
    function UvSize(): nat { Abs(uvStride) * (8 * sbh) }

    /** The allocated bytes. */
    function Allocated(): nat { 64 + YSize() * (if copy then 2 else 1) + UvSize() * (if copy then 2 else 1) }
  }

  // ----- The pointers -----

  /** Where the windows of plane `pl` start, for toggle `tf`. */
  function CdefLine(g: Geometry, tf: nat, pl: nat): int {
    var ptr := 32;
    if pl == 0 then
      if g.yStride < 0 then
        if tf == 0 then ptr - g.yStride * (g.sbh * 4 - 1) else ptr - g.yStride * (g.sbh * 4 - 3)
      else
        if tf == 0 then ptr + g.yStride * 0 else ptr + g.yStride * 2
    else
      var uv := ptr + g.YSize();
      if g.uvStride < 0 then
        if tf == 0 then
          if pl == 1 then uv - g.uvStride * (g.sbh * 8 - 1) else uv - g.uvStride * (g.sbh * 8 - 3)
        else
          if pl == 1 then uv - g.uvStride * (g.sbh * 8 - 5) else uv - g.uvStride * (g.sbh * 8 - 7)
      else
        if tf == 0 then
          if pl == 1 then uv + g.uvStride * 0 else uv + g.uvStride * 2
        else
          if pl == 1 then uv + g.uvStride * 4 else uv + g.uvStride * 6
  }

  /** Where the unfiltered lines of plane `pl` start. */
  function CdefLpfLine(g: Geometry, pl: nat): int {
    var ptr := 32 + g.YSize() + g.UvSize();
    if pl == 0 then
      if g.yStride < 0 then ptr - g.yStride * (g.sbh * 4 - 1) else ptr
    else
      var uv := ptr + g.YSize();
      if g.uvStride < 0 then
        if pl == 1 then uv - g.uvStride * (g.sbh * 4 - 1) else uv - g.uvStride * (g.sbh * 8 - 1)
      else
        if pl == 1 then uv else uv + g.uvStride * (g.sbh * 4)
  }

  /** A line of the buffer: line `i` of the window of a plane, toggle and superblock row, or one of the
      four unfiltered lines of a plane and superblock row. */
  datatype Line = Window(tf: nat, pl: nat, sby: nat, i: nat) | Unfiltered(pl: nat, sby: nat, i: nat) {
    ghost predicate Valid(g: Geometry) {
      pl < 3 && sby < g.sbh && if Window? then tf < 2 && i < 2 else g.copy && i < 4
    }
  }

  /** Where the first byte of a line is. */
  function Address(g: Geometry, l: Line): int {
    match l
    case Window(tf, pl, sby, i) =>
      CdefLine(g, tf, pl) + sby * (if pl == 0 then 4 else 8) * g.Stride(pl) + i * g.Stride(pl)
    case Unfiltered(pl, sby, i) =>
      CdefLpfLine(g, pl) + sby * 4 * g.Stride(pl) + i * g.Stride(pl)
  }

  // ----- Slots -----

  /** The number of a line in its part of the buffer, were the picture stored top down. */
  function Logical(g: Geometry, l: Line): nat {
    match l
    case Window(tf, pl, sby, i) => if pl == 0 then 4 * sby + 2 * tf + i else 8 * sby + 4 * tf + 2 * (pl - 1) + i
    case Unfiltered(pl, sby, i) => if pl < 2 then 4 * sby + i else 4 * g.sbh + 4 * sby + i
  }

  /** Does line `a` come before line `b` of the same part: windows by superblock row, toggle, plane and row,
      unfiltered lines by plane, superblock row and row. */
  predicate ComesBefore(a: Line, b: Line) {
    if a.Window? && b.Window? then
      a.sby < b.sby
      || (a.sby == b.sby && (a.tf < b.tf || (a.tf == b.tf && (a.pl < b.pl || (a.pl == b.pl && a.i < b.i)))))
    else a.pl < b.pl || (a.pl == b.pl && (a.sby < b.sby || (a.sby == b.sby && a.i < b.i)))
  }

  /** The lines of a part are numbered in that order. */
  lemma LinesInOrder(g: Geometry, a: Line, b: Line)
    requires a.Valid(g) && b.Valid(g) && PartOf(a) == PartOf(b)
    ensures Logical(g, a) < Logical(g, b) <==> ComesBefore(a, b)
    ensures Slot(g, a) < Slot(g, b) <==>
              if g.Stride(a.pl) >= 0 then ComesBefore(a, b)
              else if a.Unfiltered? && a.pl != b.pl then a.pl < b.pl
              else ComesBefore(b, a)
  {
  }

  /** How many lines the part has. */
  function Lines(g: Geometry, l: Line): nat { if l.pl == 0 then 4 * g.sbh else 8 * g.sbh }

  function PartStart(g: Geometry, l: Line): nat {
    match l
    case Window(_, pl, _, _) => if pl == 0 then 32 else 32 + g.YSize()
    case Unfiltered(pl, _, _) => 32 + g.YSize() + g.UvSize() + if pl == 0 then 0 else g.YSize()
  }

  /** With a negative stride everything is mirrored; for the unfiltered chroma lines, each plane by itself. */
  function Slot(g: Geometry, l: Line): int {
    if g.Stride(l.pl) >= 0 then Logical(g, l)
    else if l.Unfiltered? && l.pl > 0 then (if l.pl == 1 then 4 else 12) * g.sbh - 1 - Logical(g, l)
    else Lines(g, l) - 1 - Logical(g, l)
  }

  lemma SlotInPart(g: Geometry, l: Line)
    requires l.Valid(g)
    ensures 0 <= Slot(g, l) < Lines(g, l)
  {
  }

  /** Different lines of a part have different slots. */
  lemma SlotsDiffer(g: Geometry, a: Line, b: Line)
    requires a.Valid(g) && b.Valid(g) && a != b && PartOf(a) == PartOf(b)
    ensures Slot(g, a) != Slot(g, b)
  {
  }

  function PartOf(l: Line): (bool, bool) { (l.Window?, l.pl == 0) }

  /** The slot of the first line that a pointer is set to. */
  function FirstSlot(g: Geometry, l: Line): int {
    match l
    case Window(tf, pl, _, _) =>
      var k := if pl == 0 then 2 * tf else 4 * tf + 2 * (pl - 1);
      if g.Stride(pl) >= 0 then k else Lines(g, l) - 1 - k
    case Unfiltered(pl, _, _) =>
      if g.Stride(pl) >= 0 then if pl < 2 then 0 else 4 * g.sbh
      else if pl < 2 then 4 * g.sbh - 1 else 8 * g.sbh - 1
  }

  lemma PointerIsSlot(g: Geometry, l: Line)
    requires l.Valid(g)
    ensures (if l.Window? then CdefLine(g, l.tf, l.pl) else CdefLpfLine(g, l.pl))
         == PartStart(g, l) + Abs(g.Stride(l.pl)) * FirstSlot(g, l)
  {
    Reversed(g.Stride(l.pl), FirstSlot(g, l));
    hide Geometry.YSize, Geometry.UvSize;
  }

  lemma Reversed(s: int, k: int)
    ensures Abs(s) * k == if s < 0 then -(s * k) else s * k
    ensures s * 0 == 0
  {
  }

  /** The code's pointer arithmetic reaches exactly the slot, for both signs of the stride. */
  lemma AddressIsSlot(g: Geometry, l: Line)
    requires l.Valid(g)
    ensures Address(g, l) == PartStart(g, l) + Abs(g.Stride(l.pl)) * Slot(g, l)
  {
    hide CdefLine, CdefLpfLine, PartStart;
    PointerIsSlot(g, l);
    var s := g.Stride(l.pl);
    var per := if l.Unfiltered? || l.pl == 0 then 4 else 8;
    LineUp(l.sby, per, l.i, s);
    Advance(s, FirstSlot(g, l), per * l.sby + l.i);
    assert Slot(g, l) == if s < 0 then FirstSlot(g, l) - (per * l.sby + l.i) else FirstSlot(g, l) + (per * l.sby + l.i);
    hide Slot, FirstSlot, Geometry.Stride;
  }

  lemma LineUp(sby: nat, per: nat, i: nat, s: int)
    ensures sby * per * s + i * s == (per * sby + i) * s
  {
  }

  lemma Advance(s: int, k: int, n: int)
    ensures Abs(s) * k + n * s == Abs(s) * if s < 0 then k - n else k + n
  {
  }

  // ----- Lines do not overlap -----

  /** A line takes as many bytes as the stride, upwards from its address. */
  function Width(g: Geometry, l: Line): nat { Abs(g.Stride(l.pl)) }

  function PartSize(g: Geometry, l: Line): nat { if l.pl == 0 then g.YSize() else g.UvSize() }

  lemma LineInPart(g: Geometry, l: Line)
    requires l.Valid(g)
    ensures PartStart(g, l) <= Address(g, l) && Address(g, l) + Width(g, l) <= PartStart(g, l) + PartSize(g, l)
  {
    AddressIsSlot(g, l);
    SlotInPart(g, l);
    SlotFits(Width(g, l), Slot(g, l), Lines(g, l));
    hide Slot, Address, PartStart;
  }

  lemma SlotFits(w: nat, k: nat, n: nat)
    requires k < n
    ensures 0 <= w * k && w * k + w <= w * n
  {
    Multiples(k + 1, n, w);
    assert (k + 1) * w == w * k + w && n * w == w * n;
  }

  /** The parts of the buffer follow one another. */
  lemma PartsApart(g: Geometry, a: Line, b: Line)
    requires a.Valid(g) && b.Valid(g) && PartOf(a) != PartOf(b)
    ensures PartStart(g, a) + PartSize(g, a) <= PartStart(g, b) || PartStart(g, b) + PartSize(g, b) <= PartStart(g, a)
  {
    hide Geometry.YSize, Geometry.UvSize;
  }

  /** Every line lies inside the allocation, ... */
  lemma LineInside(g: Geometry, l: Line)
    requires l.Valid(g)
    ensures 32 <= Address(g, l) && Address(g, l) + Width(g, l) <= g.Allocated() - 32
  {
    LineInPart(g, l);
    hide Address, Geometry.YSize, Geometry.UvSize;
  }

  /** ... and no two lines share a byte. */
  lemma LinesDisjoint(g: Geometry, a: Line, b: Line)
    requires a.Valid(g) && b.Valid(g) && a != b
    ensures Address(g, a) + Width(g, a) <= Address(g, b) || Address(g, b) + Width(g, b) <= Address(g, a)
  {
    if PartOf(a) == PartOf(b) {
      hide Address, PartStart, Slot;
      AddressIsSlot(g, a);
      AddressIsSlot(g, b);
      SlotsDiffer(g, a, b);
      SamePart(g, a, b);
      SlotsApart(Width(g, a), Slot(g, a), Slot(g, b));
    } else {
      hide Address, PartStart, Slot, PartSize;
      LineInPart(g, a);
      LineInPart(g, b);
      PartsApart(g, a, b);
    }
  }

  /** The line with number `n` in a part, were the picture stored top down. */
  function LineNumbered(g: Geometry, window: bool, luma: bool, n: nat): Line {
    if window then
      if luma then Window(n / 2 % 2, 0, n / 4, n % 2) else Window(n / 4 % 2, 1 + n / 2 % 2, n / 8, n % 2)
    else if luma then Unfiltered(0, n / 4, n % 4)
    else if n < 4 * g.sbh then Unfiltered(1, n / 4, n % 4)
    else Unfiltered(2, (n - 4 * g.sbh) / 4, (n - 4 * g.sbh) % 4)
  }

  lemma NumberedIs(g: Geometry, window: bool, luma: bool, n: nat)
    requires n < (if luma then 4 else 8) * g.sbh && (!window ==> g.copy)
    ensures var l := LineNumbered(g, window, luma, n); l.Valid(g) && Logical(g, l) == n && PartOf(l) == (window, luma)
  {
    Digits(n);
    if n >= 4 * g.sbh {
      Digits(n - 4 * g.sbh);
    }
  }

  lemma Digits(n: nat)
    ensures n == 4 * (n / 4) + 2 * (n / 2 % 2) + n % 2 && n == 4 * (n / 4) + n % 4
    ensures n / 4 == 2 * (n / 8) + n / 4 % 2
  {
    assert n / 2 == 2 * (n / 4) + n / 2 % 2;
  }

  /** Every slot of a part belongs to a line. */
  lemma SlotHasLine(g: Geometry, window: bool, luma: bool, s: nat) returns (l: Line)
    requires s < (if luma then 4 else 8) * g.sbh && (!window ==> g.copy)
    ensures l.Valid(g) && PartOf(l) == (window, luma) && Slot(g, l) == s
  {
    var down := g.Stride(if luma then 0 else 1) >= 0;
    var n := if down then s
             else if luma then 4 * g.sbh - 1 - s
             else if window then 8 * g.sbh - 1 - s
             else if s < 4 * g.sbh then 4 * g.sbh - 1 - s else 12 * g.sbh - 1 - s;
    l := LineNumbered(g, window, luma, n);
    NumberedIs(g, window, luma, n);
    hide Logical;
    assert l.Unfiltered? && l.pl > 0 ==> (l.pl == 1 <==> n < 4 * g.sbh);
  }

  /** The lines fill the allocation: every byte but the 32 at either end belongs to one. */
  lemma EveryByteHasLine(g: Geometry, k: nat) returns (l: Line)
    requires 32 <= k < g.Allocated() - 32
    ensures l.Valid(g) && Address(g, l) <= k < Address(g, l) + Width(g, l)
  {
    var window := k < 32 + g.YSize() + g.UvSize();
    var base := 32 + if window then 0 else g.YSize() + g.UvSize();
    var luma := k < base + g.YSize();
    var start := if luma then base else base + g.YSize();
    var w, n := Abs(if luma then g.yStride else g.uvStride), (if luma then 4 else 8) * g.sbh;
    assert w * n == if luma then g.YSize() else g.UvSize();
    var s := SlotAt(k - start, w, n);
    l := SlotHasLine(g, window, luma, s);
    AddressIsSlot(g, l);
    hide Address, Slot;
    assert PartStart(g, l) == start && Width(g, l) == w;
  }

  lemma SlotAt(k: nat, w: nat, n: nat) returns (s: nat)
    requires k < w * n
    ensures s < n && w * s <= k < w * s + w
  {
    s := k / w;
    assert k == s * w + k % w;
    assert s * w == w * s && n * w == w * n;
    Multiples(n, s, w);
  }

  lemma SamePart(g: Geometry, a: Line, b: Line)
    requires a.Valid(g) && b.Valid(g) && PartOf(a) == PartOf(b)
    ensures PartStart(g, a) == PartStart(g, b) && g.Stride(a.pl) == g.Stride(b.pl)
  {
  }

  lemma SlotsApart(w: nat, k: int, j: int)
    requires k != j
    ensures w * k + w <= w * j || w * j + w <= w * k
  {
    if k < j {
      Multiples(k + 1, j, w);
      assert (k + 1) * w == w * k + w && j * w == w * j;
    } else {
      Multiples(j + 1, k, w);
      assert (j + 1) * w == w * j + w && k * w == w * k;
    }
  }

  // ----- Saving two lines -----

  /** A copy: where to, where from, and how many bytes. */
  datatype Plan = Plan(to: int, from: int, len: nat)

  /** The arithmetic of the Rust code, which adds a stride where it is negative. */
  function RustPlan(dst: int, src: int, stride: int, row: int): Plan {
    var strides := if stride < 0 then 1 else 0;
    Plan(dst + strides * stride, src + (row + strides) * stride, 2 * Abs(stride))
  }

  /** The arithmetic of the C code, which has a branch for either sign; `row` is 6, or 2 for chroma with
      half the rows. */
  function CPlan(dst: int, src: int, stride: int, row: int): Plan {
    if stride < 0 then Plan(dst + stride, src + (if row == 2 then 3 else 7) * stride, -2 * stride)
    else Plan(dst, src + row * stride, 2 * stride)
  }

  lemma PlansAgree(dst: int, src: int, stride: int, row: int)
    requires row == 2 || row == 6
    ensures RustPlan(dst, src, stride, row) == CPlan(dst, src, stride, row)
  {
  }

  /** Where row `row` of a picture starts. */
  function RowAt(src: int, row: int, stride: int): int { src + row * stride }

  ghost predicate Copied(buf: array<int>, to: int, pic: array<int>, from: int, len: nat)
    reads buf, pic
  {
    && 0 <= to && to + len <= buf.Length && 0 <= from && from + len <= pic.Length
    && buf[to..to + len] == pic[from..from + len]
  }

  /** Outside the bytes from `lo` to `hi` the buffer is as it was. */
  ghost predicate KeptOutside(buf: array<int>, was: seq<int>, lo: int, hi: int)
    reads buf
  {
    |was| == buf.Length && forall k | 0 <= k < buf.Length && !(lo <= k < hi) :: buf[k] == was[k]
  }

  method CopyBytes(buf: array<int>, to: nat, pic: array<int>, from: nat, len: nat)
    requires buf != pic && to + len <= buf.Length && from + len <= pic.Length
    modifies buf
    ensures Copied(buf, to, pic, from, len) && KeptOutside(buf, old(buf[..]), to, to + len)
  {
    forall k | to <= k < to + len {
      buf[k] := pic[from + (k - to)];
    }
  }

  lemma SubSlice(s: seq<int>, a: nat, n: nat, d: nat, m: nat)
    requires a + n <= |s| && d + m <= n
    ensures s[a..a + n][d..d + m] == s[a + d..a + d + m]
  {
    var t := s[a..a + n];
    assert forall i | 0 <= i < n :: t[i] == s[a + i];
    var u := t[d..d + m];
    assert forall i | 0 <= i < m :: u[i] == s[a + d + i];
  }

  lemma PartCopied(buf: array<int>, to: int, pic: array<int>, from: int, len: nat, d: nat, n: nat)
    requires Copied(buf, to, pic, from, len) && d + n <= len
    ensures Copied(buf, to + d, pic, from + d, n)
  {
    SubSlice(buf[..], to, len, d, n);
    SubSlice(pic[..], from, len, d, n);
    assert buf[to..to + len] == buf[..][to..to + len] && pic[from..from + len] == pic[..][from..from + len];
    assert buf[to + d..to + d + n] == buf[..][to + d..to + d + n];
    assert pic[from + d..from + d + n] == pic[..][from + d..from + d + n];
  }

  lemma PartKept(buf: array<int>, was: seq<int>, lo: int, hi: int, a: nat, n: nat)
    requires KeptOutside(buf, was, lo, hi) && a + n <= buf.Length && (a + n <= lo || hi <= a || n == 0)
    ensures buf[a..a + n] == was[a..a + n]
  {
  }

  /** Copies rows `row` and `row` + 1 of a picture to the line at `dst` and the one after it. */
  method SaveTwoLines(buf: array<int>, dst: int, pic: array<int>, src: int, stride: int, row: int)
    requires buf != pic
    requires var p := RustPlan(dst, src, stride, row);
             0 <= p.to && p.to + p.len <= buf.Length && 0 <= p.from && p.from + p.len <= pic.Length
    modifies buf
    ensures Copied(buf, dst, pic, RowAt(src, row, stride), Abs(stride))
    ensures Copied(buf, dst + stride, pic, RowAt(src, row + 1, stride), Abs(stride))
    ensures KeptOutside(buf, old(buf[..]), Min(dst, dst + stride), Max(dst, dst + stride) + Abs(stride))
  {
    PlanRows(dst, src, stride, row);
    hide RustPlan, RowAt, Copied, KeptOutside;
    var p := RustPlan(dst, src, stride, row);
    CopyBytes(buf, p.to, pic, p.from, p.len);
    PartCopied(buf, p.to, pic, p.from, p.len, 0, Abs(stride));
    PartCopied(buf, p.to, pic, p.from, p.len, Abs(stride), Abs(stride));
  }

  /** The bytes copied at once are both rows, the one at the lower address first. */
  lemma PlanRows(dst: int, src: int, stride: int, row: int)
    ensures var (p, r0, r1) := (RustPlan(dst, src, stride, row), RowAt(src, row, stride), RowAt(src, row + 1, stride));
            && p.len == 2 * Abs(stride)
            && (stride >= 0 ==> p.to == dst && p.from == r0 && r1 == r0 + Abs(stride))
            && (stride < 0 ==> p.to == dst + stride && p.from == r1 && r0 == r1 + Abs(stride))
  {
    assert (row + 1) * stride == row * stride + stride;
  }

  /** The two lines of a window are one stride apart, in the direction of the stride. */
  lemma WindowLines(g: Geometry, tf: nat, pl: nat, sby: nat)
    requires Window(tf, pl, sby, 0).Valid(g)
    ensures var a, s := Address(g, Window(tf, pl, sby, 0)), g.Stride(pl);
            && a == CdefLine(g, tf, pl) + sby * (if pl == 0 then 4 else 8) * s
            && Address(g, Window(tf, pl, sby, 1)) == a + s
            && 32 <= Min(a, a + s) && Max(a, a + s) + Abs(s) <= g.Allocated() - 32
  {
    LineInside(g, Window(tf, pl, sby, 0));
    LineInside(g, Window(tf, pl, sby, 1));
    hide CdefLine;
  }

  /** Saves two rows of plane `pl` in its window: they are what the two lines of the window then hold, and
      all other lines of the buffer keep their contents. */
  method SaveWindow(g: Geometry, buf: array<int>, tf: nat, pl: nat, sby: nat, pic: array<int>, src: int, row: int)
    requires buf != pic && buf.Length >= g.Allocated() && Window(tf, pl, sby, 0).Valid(g)
    requires var p := RustPlan(0, src, g.Stride(pl), row); 0 <= p.from && p.from + p.len <= pic.Length
    modifies buf
    ensures forall l: Line | l.Valid(g) :: ReadsBack(g, buf, old(buf[..]), tf, pl, sby, pic, src, row, l)
  {
    var stride := g.Stride(pl);
    WindowLines(g, tf, pl, sby);
    var dst := CdefLine(g, tf, pl) + sby * (if pl == 0 then 4 else 8) * stride;
    ghost var was, lo, hi := buf[..], Min(dst, dst + stride), Max(dst, dst + stride) + Abs(stride);
    hide Address, CdefLine, Geometry.Allocated, Copied, KeptOutside, RowAt;
    SaveTwoLines(buf, dst, pic, src, stride, row);
    hide RustPlan;
    forall l: Line | l.Valid(g) ensures ReadsBack(g, buf, was, tf, pl, sby, pic, src, row, l) {
      LineAfter(g, buf, was, tf, pl, sby, pic, src, row, dst, lo, hi, l);
    }
  }

  lemma LineAfter(g: Geometry, buf: array<int>, was: seq<int>, tf: nat, pl: nat, sby: nat, pic: array<int>,
                  src: int, row: int, dst: int, lo: int, hi: int, l: Line)
    requires buf.Length >= g.Allocated() && Window(tf, pl, sby, 0).Valid(g) && l.Valid(g)
    requires var s := g.Stride(pl); lo == Min(dst, dst + s) && hi == Max(dst, dst + s) + Abs(s)
    requires dst == Address(g, Window(tf, pl, sby, 0)) && dst + g.Stride(pl) == Address(g, Window(tf, pl, sby, 1))
    requires Copied(buf, dst, pic, RowAt(src, row, g.Stride(pl)), Abs(g.Stride(pl)))
    requires Copied(buf, dst + g.Stride(pl), pic, RowAt(src, row + 1, g.Stride(pl)), Abs(g.Stride(pl)))
    requires KeptOutside(buf, was, lo, hi) && |was| == buf.Length
    ensures ReadsBack(g, buf, was, tf, pl, sby, pic, src, row, l)
  {
    hide Address, Geometry.Allocated, Copied, KeptOutside, RowAt, Geometry.Stride, Geometry.YSize, Geometry.UvSize;
    LineInside(g, l);
    if l.Window? && l.tf == tf && l.pl == pl && l.sby == sby {
      assert l == Window(tf, pl, sby, 0) || l == Window(tf, pl, sby, 1);
    } else {
      LineBeside(g, tf, pl, sby, dst, lo, hi, l);
      PartKept(buf, was, lo, hi, Address(g, l), Width(g, l));
    }
  }

  lemma LineBeside(g: Geometry, tf: nat, pl: nat, sby: nat, dst: int, lo: int, hi: int, l: Line)
    requires Window(tf, pl, sby, 0).Valid(g) && l.Valid(g) && !(l.Window? && l.tf == tf && l.pl == pl && l.sby == sby)
    requires var s := g.Stride(pl); lo == Min(dst, dst + s) && hi == Max(dst, dst + s) + Abs(s)
    requires dst == Address(g, Window(tf, pl, sby, 0)) && dst + g.Stride(pl) == Address(g, Window(tf, pl, sby, 1))
    ensures Address(g, l) + Width(g, l) <= lo || hi <= Address(g, l) || Width(g, l) == 0
  {
    hide Address, Geometry.Allocated, Geometry.YSize, Geometry.UvSize;
    LinesDisjoint(g, l, Window(tf, pl, sby, 0));
    LinesDisjoint(g, l, Window(tf, pl, sby, 1));
  }

  /** A line of the window holds its saved row, any other line what it held before. */
  ghost predicate ReadsBack(g: Geometry, buf: array<int>, was: seq<int>, tf: nat, pl: nat, sby: nat,
                            pic: array<int>, src: int, row: int, l: Line)
    requires |was| == buf.Length
    reads buf, pic
  {
    var a, w := Address(g, l), Width(g, l);
    0 <= a && a + w <= buf.Length
    && if l.Window? && l.tf == tf && l.pl == pl && l.sby == sby
       then Copied(buf, a, pic, RowAt(src, row + l.i, g.Stride(pl)), w)
       else buf[a..a + w] == was[a..a + w]
  }

  // ----- Advancing by a row of blocks -----

  /** How far a plane's pointer moves for eight luma rows. */
  function RustAdvance(stride: int, ssVer: bool): int { 8 * if ssVer then stride / 2 else stride }

  function CAdvance(stride: int, ssVer: bool): int { if ssVer then 8 * stride / 2 else 8 * stride }

  /** The C code always moves by the rows of a block; the Rust code, which halves the stride first, does
      so exactly if the rows are not halved or the stride is even. */
  lemma AdvanceExact(stride: int, ssVer: bool)
    ensures CAdvance(stride, ssVer) == (if ssVer then 4 else 8) * stride
    ensures RustAdvance(stride, ssVer) == (if ssVer then 4 else 8) * stride <==> !ssVer || stride % 2 == 0
  {
  }
}
