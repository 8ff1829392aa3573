/** The table of tap offsets, and what it has to do with the lines of the direction search: a block that
    varies least along the lines of a direction is filtered along these lines, and across them. */
module CdefGeometry {
  import opened CdefApply
  import CdefDirection
  import opened CdefKernel
  import opened Picture

  /** The near and the far tap of the eight directions. */
  const CDEF_DIRECTIONS: Directions := [
    (Offset(-1, 1), Offset(-2, 2)),
    (Offset(0, 1), Offset(-1, 2)),
    (Offset(0, 1), Offset(0, 2)),
    (Offset(0, 1), Offset(1, 2)),
    (Offset(1, 1), Offset(2, 2)),
    (Offset(1, 0), Offset(2, 1)),
    (Offset(1, 0), Offset(2, 0)),
    (Offset(1, 0), Offset(2, -1))]

  /** The offsets as numbers, with the directions that wrap around, for a buffer with rows of twelve. */
  const FLAT_DIRECTIONS: seq<(int, int)> := [
    (12, 24), (12, 23), (-11, -22), (1, -10), (1, 2), (1, 14), (13, 26), (12, 25), (12, 24), (12, 23), (-11, -22),
    (1, -10)]

  lemma TableIsFlat(k: nat)
    requires k < 12
    ensures ValidDirections(CDEF_DIRECTIONS)
    ensures var t := Table(CDEF_DIRECTIONS)[k]; (t.0.Flat(), t.1.Flat()) == FLAT_DIRECTIONS[k]
  {
  }

  /** From any pixel, the far tap is on the pixel's own line, and the near one on it or the next. */
  lemma TapsFollowLines(d: Direction, y: nat, x: nat, k: nat)
    requires y < 8 && x < 8 && k < 2
    ensures var at := At(CDEF_DIRECTIONS[d], k);
            0 <= y + at.di < 8 && 0 <= x + at.dj < 8 ==>
              var (l, m) := (CdefDirection.LineAt(d, y, x), CdefDirection.LineAt(d, y + at.di, x + at.dj));
              if k == 1 || d % 2 == 0 then m == l else l - 1 <= m <= l + 1
  {
  }

  /** Twice the area that two offsets span, positive if the second is clockwise from the first. */
  function Turn(a: Offset, b: Offset): int { a.dj * b.di - a.di * b.dj }

  /** The directions go round clockwise, half a turn in all; direction 2 is horizontal and 6 vertical. Each is
      at right angles to the one across, up to the sign of an offset. */
  lemma DirectionsTurn(d: Direction)
    ensures d < 7 ==> Turn(CDEF_DIRECTIONS[d].1, CDEF_DIRECTIONS[d + 1].1) > 0
    ensures Turn(CDEF_DIRECTIONS[7].1, CDEF_DIRECTIONS[0].1.Negated()) > 0
    ensures CDEF_DIRECTIONS[2].1.di == 0 && CDEF_DIRECTIONS[6].1.dj == 0
    ensures var (a, b) := (CDEF_DIRECTIONS[d].1, CDEF_DIRECTIONS[CdefDirection.Across(d)].1);
            b == Offset(a.dj, -a.di) || b == Offset(-a.dj, a.di)
  {
  }

  /** Offsets on one line through the pixel, the second one as far out as the first or twice as far. */
  predicate SameLine(a: Offset, b: Offset) {
    var twice := Offset(2 * a.di, 2 * a.dj);
    a == b || a.Negated() == b || twice == b || twice.Negated() == b
  }

  /** Two steps on lies a direction half way to the one across: in the four main directions an eighth of a
      turn away, in the others mirrored at the next axis or at the next diagonal. */
  predicate HalfWay(d: Direction, p: Offset, s: Offset, t: Offset) {
    if d % 2 == 0 then
      SameLine(s, Offset(p.di + p.dj, p.dj - p.di)) && SameLine(t, Offset(p.di - p.dj, p.di + p.dj))
    else
      var axis, diagonal := Offset(-p.di, p.dj), Offset(p.dj, p.di);
      (SameLine(s, axis) && SameLine(t, diagonal)) || (SameLine(s, diagonal) && SameLine(t, axis))
  }

  lemma HalfWayDirections(d: Direction)
    ensures HalfWay(d, CDEF_DIRECTIONS[d].1, CDEF_DIRECTIONS[(d + 2) % 8].1, CDEF_DIRECTIONS[(d + 6) % 8].1)
  {
    hide HalfWay, SameLine;
    FarTaps();
    MainDirections();
    ObliqueDirections();
    match d
    case 0 =>
    case 1 =>
    case 2 =>
    case 3 =>
    case 4 =>
    case 5 =>
    case 6 =>
    case 7 =>
  }

  lemma MainDirections()
    ensures HalfWay(0, Offset(-2, 2), Offset(0, 2), Offset(2, 0))
    ensures HalfWay(2, Offset(0, 2), Offset(2, 2), Offset(-2, 2))
    ensures HalfWay(4, Offset(2, 2), Offset(2, 0), Offset(0, 2))
    ensures HalfWay(6, Offset(2, 0), Offset(-2, 2), Offset(2, 2))
  {
  }

  lemma ObliqueDirections()
    ensures HalfWay(1, Offset(-1, 2), Offset(1, 2), Offset(2, -1))
    ensures HalfWay(3, Offset(1, 2), Offset(2, 1), Offset(-1, 2))
    ensures HalfWay(5, Offset(2, 1), Offset(2, -1), Offset(1, 2))
    ensures HalfWay(7, Offset(2, -1), Offset(-1, 2), Offset(2, 1))
  {
  }

  lemma FarTaps()
    ensures CDEF_DIRECTIONS[0].1 == Offset(-2, 2) && CDEF_DIRECTIONS[1].1 == Offset(-1, 2)
    ensures CDEF_DIRECTIONS[2].1 == Offset(0, 2) && CDEF_DIRECTIONS[3].1 == Offset(1, 2)
    ensures CDEF_DIRECTIONS[4].1 == Offset(2, 2) && CDEF_DIRECTIONS[5].1 == Offset(2, 1)
    ensures CDEF_DIRECTIONS[6].1 == Offset(2, 0) && CDEF_DIRECTIONS[7].1 == Offset(2, -1)
  {
  }

  lemma TapDirections(dirs: Directions, r: Request, k: nat)
    requires |dirs| == 8 && r.dir < 8 && k < 2
    ensures var u := TapsAt(dirs, r, k);
            && |u| == 6 && u[0].at == At(dirs[r.dir], k)
            && u[2].at == At(dirs[(r.dir + 2) % 8], k) && u[4].at == At(dirs[(r.dir + 6) % 8], k)
  {
    hide PriTap, At;
  }

  /** The primary taps lie along the direction, the secondary ones half way to the direction across. */
  lemma SecondaryTaps(r: Request)
    requires r.dir < 8
    ensures var u := TapsAt(CDEF_DIRECTIONS, r, 1);
            u[0].at == CDEF_DIRECTIONS[r.dir].1 && HalfWay(r.dir, u[0].at, u[2].at, u[4].at)
  {
    hide HalfWay, SameLine, TapsAt;
    TapDirections(CDEF_DIRECTIONS, r, 1);
    HalfWayDirections(r.dir);
  }

  /** Both secondary taps at a distance are those of their own directions, which are across from each other. */
  lemma SecondaryAcross(r: Request, k: nat)
    requires r.dir < 8 && k < 2
    ensures var u := TapsAt(CDEF_DIRECTIONS, r, k);
            exists e: Direction ::
              u[2].at == At(CDEF_DIRECTIONS[e], k) && u[4].at == At(CDEF_DIRECTIONS[CdefDirection.Across(e)], k)
  {
    var e: Direction := (r.dir + 2) % 8;
    assert CdefDirection.Across(e) == (r.dir + 6) % 8;
  }

  /** In 4:2:2 chroma, half as wide as luma, the direction is that of the luma offset squeezed to half its
      width. Two directions fall between two others there, and become the vertical one. Elsewhere chroma has
      the shape of luma, and the direction is kept. */
  lemma ChromaDirection(f: FrameInfo, d: Direction)
    ensures f.layout != I422 ==> UvDir(f, d) == d
    ensures f.layout == I422 && d != 5 && d != 7 ==>
              var (a, b) := (CDEF_DIRECTIONS[d].1, CDEF_DIRECTIONS[UvDir(f, d)].1);
              SameLine(b, Offset(2 * a.di, a.dj))
    ensures f.layout == I422 && (d == 5 || d == 7) ==>
              var a := CDEF_DIRECTIONS[d].1;
              UvDir(f, d) == 6 && Turn(Offset(2 * a.di, a.dj), CDEF_DIRECTIONS[6].1)
                                  == -Turn(Offset(2 * a.di, a.dj), CDEF_DIRECTIONS[d].1)
  {
    FarTaps();
    SqueezedTaps();
    hide SameLine;
    match d
    case 0 => assert UvDir(f, 0) == if f.layout == I422 then 7 else 0;
    case 1 => assert UvDir(f, 1) == if f.layout == I422 then 0 else 1;
    case 2 => assert UvDir(f, 2) == 2;
    case 3 => assert UvDir(f, 3) == if f.layout == I422 then 4 else 3;
    case 4 => assert UvDir(f, 4) == if f.layout == I422 then 5 else 4;
    case 5 => assert UvDir(f, 5) == if f.layout == I422 then 6 else 5;
    case 6 => assert UvDir(f, 6) == 6;
    case 7 => assert UvDir(f, 7) == if f.layout == I422 then 6 else 7;
  }

  lemma SqueezedTaps()
    ensures SameLine(Offset(2, -1), Offset(-4, 2)) && SameLine(Offset(-2, 2), Offset(-2, 2))
    ensures SameLine(Offset(0, 2), Offset(0, 2)) && SameLine(Offset(2, 2), Offset(2, 2))
    ensures SameLine(Offset(2, 1), Offset(4, 2)) && SameLine(Offset(2, 0), Offset(4, 0))
  {
  }
}
