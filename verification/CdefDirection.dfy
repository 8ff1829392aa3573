/** The search for the direction along which a block varies least: each of eight directions splits the
    block into lines, and is credited with the energy that the line averages account for. */
module CdefDirection {
  import opened IntOps

  /** The 64 pixels of a block in raster order, less 128. */
  ghost predicate ValidBlock(v: seq<int>) {
    |v| == 64 && forall k | 0 <= k < 64 :: -128 <= v[k] <= 127
  }

  type Direction = d: nat | d < 8

  /** The line of the pixel in row `y` and column `x`. */
  function LineAt(d: Direction, y: nat, x: nat): int {
    match d
    case 0 => y + x
    case 1 => y + x / 2
    case 2 => y
    case 3 => 3 + y - x / 2
    case 4 => 7 + y - x
    case 5 => 3 - y / 2 + x
    case 6 => x
    case 7 => y / 2 + x
  }

  /** The number of the line of direction `d` that holds pixel `k`. */
  function Line(d: Direction, k: nat): (l: nat)
    requires k < 64
    ensures l < 15
  {
    LineAt(d, k / 8, k % 8)
  }

  /** Over the first `n` pixels: how many lie on line `l`, their sum, and the sum of their squares. */
  function LineLen(d: Direction, l: nat, n: nat): nat
    requires n <= 64
  {
    if n == 0 then 0 else LineLen(d, l, n - 1) + if Line(d, n - 1) == l then 1 else 0
  }

  ghost function LineSum(v: seq<int>, d: Direction, l: nat, n: nat): int
    requires |v| == 64 && n <= 64
  {
    if n == 0 then 0 else LineSum(v, d, l, n - 1) + if Line(d, n - 1) == l then v[n - 1] else 0
  }

  ghost function LineEnergy(v: seq<int>, d: Direction, l: nat, n: nat): int
    requires |v| == 64 && n <= 64
  {
    if n == 0 then 0 else LineEnergy(v, d, l, n - 1) + if Line(d, n - 1) == l then v[n - 1] * v[n - 1] else 0
  }

  /** The energy of the first `n` pixels. */
  ghost function Energy(v: seq<int>, n: nat): int
    requires |v| == 64 && n <= 64
  {
    if n == 0 then 0 else Energy(v, n - 1) + v[n - 1] * v[n - 1]
  }

  /** 840 is a multiple of every line length, so that 840 / length is exact. */
  function Weight(len: nat): nat {
    if len == 0 then 0 else 840 / len
  }

  ghost function LineCost(v: seq<int>, d: Direction, l: nat): int
    requires |v| == 64
  {
    Weight(LineLen(d, l, 64)) * (LineSum(v, d, l, 64) * LineSum(v, d, l, 64))
  }

  /** The first `m` lines of direction `d`. */
  ghost function CostUpTo(v: seq<int>, d: Direction, m: nat): int
    requires |v| == 64
  {
    if m == 0 then 0 else CostUpTo(v, d, m - 1) + LineCost(v, d, m - 1)
  }

  ghost function Cost(v: seq<int>, d: Direction): int
    requires |v| == 64
  {
    CostUpTo(v, d, 15)
  }

  // ----- A direction never gets more credit than the block has energy -----

  /** The squared distances of the first `n` pixels of a line from `a`. */
  ghost function Distance(v: seq<int>, d: Direction, l: nat, n: nat, a: int): int
    requires |v| == 64 && n <= 64
  {
    if n == 0 then 0
    else Distance(v, d, l, n - 1, a) + if Line(d, n - 1) == l then (v[n - 1] - a) * (v[n - 1] - a) else 0
  }

  lemma {:induction false} DistanceExpands(v: seq<int>, d: Direction, l: nat, n: nat, a: int)
    requires |v| == 64 && n <= 64
    ensures Distance(v, d, l, n, a)
            == LineEnergy(v, d, l, n) - 2 * (a * LineSum(v, d, l, n)) + LineLen(d, l, n) * (a * a)
  {
    if n > 0 {
      DistanceExpands(v, d, l, n - 1, a);
      if Line(d, n - 1) == l {
        Expanding(v[n - 1], a, LineSum(v, d, l, n - 1), LineLen(d, l, n - 1));
      }
    }
  }

  lemma Expanding(x: int, a: int, s: int, c: nat)
    ensures (x - a) * (x - a) == x * x - 2 * (a * x) + a * a
    ensures a * (s + x) == a * s + a * x
    ensures (c + 1) * (a * a) == c * (a * a) + a * a
  {
  }

  ghost predicate AllAre(v: seq<int>, d: Direction, l: nat, n: nat, a: int)
    requires |v| == 64 && n <= 64
  {
    forall k | 0 <= k < n && Line(d, k) == l :: v[k] == a
  }

  lemma {:induction false} DistanceZero(v: seq<int>, d: Direction, l: nat, n: nat, a: int)
    requires |v| == 64 && n <= 64
    ensures Distance(v, d, l, n, a) >= 0
    ensures Distance(v, d, l, n, a) == 0 <==> AllAre(v, d, l, n, a)
  {
    if n > 0 {
      DistanceZero(v, d, l, n - 1, a);
      hide Line;
      SquareZero(v[n - 1] - a);
    }
  }

  lemma SquareZero(x: int)
    ensures x * x >= 0 && (x * x == 0 <==> x == 0)
  {
  }

  /** A line of the first `n` pixels is constant. */
  ghost predicate Constant(v: seq<int>, d: Direction, l: nat, n: nat)
    requires |v| == 64 && n <= 64
  {
    forall j, k | 0 <= j < n && 0 <= k < n && Line(d, j) == l && Line(d, k) == l :: v[j] == v[k]
  }

  /** Length times energy, less the squared sum. */
  ghost function Spread(v: seq<int>, d: Direction, l: nat, n: nat): int
    requires |v| == 64 && n <= 64
  {
    LineLen(d, l, n) * LineEnergy(v, d, l, n) - LineSum(v, d, l, n) * LineSum(v, d, l, n)
  }

  lemma SpreadStep(v: seq<int>, d: Direction, l: nat, n: nat)
    requires |v| == 64 && 0 < n <= 64
    ensures Spread(v, d, l, n)
         == Spread(v, d, l, n - 1) + if Line(d, n - 1) == l then Distance(v, d, l, n - 1, v[n - 1]) else 0
  {
    if Line(d, n - 1) == l {
      var x, s, c, e := v[n - 1], LineSum(v, d, l, n - 1), LineLen(d, l, n - 1), LineEnergy(v, d, l, n - 1);
      DistanceExpands(v, d, l, n - 1, x);
      Completing(c, e, s, x);
    }
  }

  lemma Completing(c: nat, e: int, s: int, x: int)
    ensures (c + 1) * (e + x * x) - (s + x) * (s + x) == c * e - s * s + (e - 2 * (x * s) + c * (x * x))
  {
    assert (c + 1) * (e + x * x) == c * e + c * (x * x) + e + x * x;
    assert (s + x) * (s + x) == s * s + 2 * (x * s) + x * x;
  }

  lemma ConstantStep(v: seq<int>, d: Direction, l: nat, n: nat)
    requires |v| == 64 && 0 < n <= 64
    ensures Constant(v, d, l, n)
       <==> Constant(v, d, l, n - 1) && (Line(d, n - 1) == l ==> AllAre(v, d, l, n - 1, v[n - 1]))
  {
    hide Line;
  }

  /** Cauchy-Schwarz on one line, with the case of equality. */
  lemma {:induction false} SpreadZero(v: seq<int>, d: Direction, l: nat, n: nat)
    requires |v| == 64 && n <= 64
    ensures Spread(v, d, l, n) >= 0
    ensures Spread(v, d, l, n) == 0 <==> Constant(v, d, l, n)
  {
    if n > 0 {
      hide Spread, Distance, Line, Constant, AllAre;
      SpreadZero(v, d, l, n - 1);
      SpreadStep(v, d, l, n);
      DistanceZero(v, d, l, n - 1, v[n - 1]);
      ConstantStep(v, d, l, n);
    }
  }

  /** The energies of the first `m` lines. */
  ghost function LineEnergies(v: seq<int>, d: Direction, n: nat, m: nat): int
    requires |v| == 64 && n <= 64
  {
    if m == 0 then 0 else LineEnergies(v, d, n, m - 1) + LineEnergy(v, d, m - 1, n)
  }

  lemma {:induction false} PixelJoinsOneLine(v: seq<int>, d: Direction, n: nat, m: nat)
    requires |v| == 64 && 0 < n <= 64
    ensures LineEnergies(v, d, n, m)
         == LineEnergies(v, d, n - 1, m) + if Line(d, n - 1) < m then v[n - 1] * v[n - 1] else 0
  {
    if m > 0 {
      PixelJoinsOneLine(v, d, n, m - 1);
      hide Line;
    }
  }

  /** The lines of a direction share out the energy of the block. */
  lemma {:induction false} LinesShareEnergy(v: seq<int>, d: Direction, n: nat)
    requires |v| == 64 && n <= 64
    ensures LineEnergies(v, d, n, 15) == Energy(v, n)
  {
    if n > 0 {
      LinesShareEnergy(v, d, n - 1);
      PixelJoinsOneLine(v, d, n, 15);
    } else {
      NoEnergy(v, d, 15);
    }
  }

  lemma {:induction false} NoEnergy(v: seq<int>, d: Direction, m: nat)
    requires |v| == 64
    ensures LineEnergies(v, d, 0, m) == 0
  {
    if m > 0 {
      NoEnergy(v, d, m - 1);
    }
  }

  /** How long line `l` is. */
  function Length(d: Direction, l: nat): (len: nat)
    ensures len <= 8
  {
    if d % 4 == 2 then if l < 8 then 8 else 0
    else if d % 4 == 0 then if l < 8 then l + 1 else if l < 15 then 15 - l else 0
    else if l < 3 then 2 * (l + 1) else if l < 8 then 8 else if l < 11 then 2 * (11 - l) else 0
  }

  function One(b: bool): nat { if b then 1 else 0 }

  /** How many of the first `x` pixels of row `y` lie on line `l`. */
  function Hits(d: Direction, l: nat, y: nat, x: nat): nat {
    if x == 0 then 0 else Hits(d, l, y, x - 1) + One(LineAt(d, y, x - 1) == l)
  }

  lemma LineOfPixel(d: Direction, y: nat, x: nat)
    requires y < 8 && x < 8
    ensures Line(d, 8 * y + x) == LineAt(d, y, x)
  {
    hide LineAt;
  }

  lemma {:induction false} HitsAddUp(d: Direction, l: nat, y: nat, x: nat)
    requires y < 8 && x <= 8
    ensures LineLen(d, l, 8 * y + x) == LineLen(d, l, 8 * y) + Hits(d, l, y, x)
  {
    if x > 0 {
      var n := 8 * y + x;
      assert LineLen(d, l, n) == LineLen(d, l, n - 1) + One(Line(d, n - 1) == l);
      hide Line, LineAt, LineLen, One;
      HitsAddUp(d, l, y, x - 1);
      LineOfPixel(d, y, x - 1);
    }
  }

  /** How many of them that is. */
  function RowHits(d: Direction, l: nat, y: nat, x: nat): int {
    match d
    case 0 => One(0 <= l - y < x)
    case 1 => if l < y then 0 else Clip(x - 2 * (l - y), 0, 2)
    case 2 => if l == y then x else 0
    case 3 => if 3 + y < l then 0 else Clip(x - 2 * (3 + y - l), 0, 2)
    case 4 => One(0 <= 7 + y - l < x)
    case 5 => One(0 <= l + y / 2 - 3 < x)
    case 6 => One(l < x)
    case 7 => One(0 <= l - y / 2 < x)
  }

  lemma RowHitsStep(d: Direction, l: nat, y: nat, x: nat)
    requires y < 8 && x < 8
    ensures RowHits(d, l, y, x + 1) == RowHits(d, l, y, x) + One(LineAt(d, y, x) == l)
  {
    match d
    case 0 =>
    case 1 =>
    case 2 =>
    case 3 =>
    case 4 =>
    case 5 =>
    case 6 =>
    case 7 =>
  }

  lemma {:induction false} HitsOfRow(d: Direction, l: nat, y: nat, x: nat)
    requires y < 8 && x <= 8
    ensures Hits(d, l, y, x) == RowHits(d, l, y, x)
  {
    if x > 0 {
      HitsOfRow(d, l, y, x - 1);
      RowHitsStep(d, l, y, x - 1);
    }
  }

  /** How many pixels of the first `y` rows lie on line `l`. */
  function RowsHits(d: Direction, l: nat, y: nat): int {
    if y == 0 then 0 else RowsHits(d, l, y - 1) + RowHits(d, l, y - 1, 8)
  }

  lemma {:induction false} RowsAddUp(d: Direction, l: nat, y: nat)
    requires y <= 8
    ensures LineLen(d, l, 8 * y) == RowsHits(d, l, y)
  {
    if y > 0 {
      hide LineAt, Line, RowHits;
      RowsAddUp(d, l, y - 1);
      HitsAddUp(d, l, y - 1, 8);
      HitsOfRow(d, l, y - 1, 8);
    }
  }

  lemma RowsOfBlock(d: Direction, l: nat)
    ensures RowsHits(d, l, 8) == RowHits(d, l, 0, 8) + RowHits(d, l, 1, 8) + RowHits(d, l, 2, 8) + RowHits(d, l, 3, 8)
                               + RowHits(d, l, 4, 8) + RowHits(d, l, 5, 8) + RowHits(d, l, 6, 8) + RowHits(d, l, 7, 8)
  {
    hide RowHits;
    assert RowsHits(d, l, 1) == RowHits(d, l, 0, 8);
    assert RowsHits(d, l, 2) == RowsHits(d, l, 1) + RowHits(d, l, 1, 8);
    assert RowsHits(d, l, 4) == RowsHits(d, l, 2) + RowHits(d, l, 2, 8) + RowHits(d, l, 3, 8);
    assert RowsHits(d, l, 6) == RowsHits(d, l, 4) + RowHits(d, l, 4, 8) + RowHits(d, l, 5, 8);
    assert RowsHits(d, l, 8) == RowsHits(d, l, 6) + RowHits(d, l, 6, 8) + RowHits(d, l, 7, 8);
  }

  lemma EvenLengths(d: Direction, l: nat)
    requires l < 15 && d % 2 == 0
    ensures RowsHits(d, l, 8) == Length(d, l)
  {
    RowsOfBlock(d, l);
    hide RowsHits;
    match d
    case 0 => assert RowsHits(0, l, 8) == Length(0, l);
    case 2 => assert RowsHits(2, l, 8) == Length(2, l);
    case 4 => assert RowsHits(4, l, 8) == Length(4, l);
    case 6 => assert RowsHits(6, l, 8) == Length(6, l);
  }

  lemma OddLengths(d: Direction, l: nat)
    requires l < 15 && d % 2 == 1
    ensures RowsHits(d, l, 8) == Length(d, l)
  {
    RowsOfBlock(d, l);
    hide RowsHits;
    match d
    case 1 => assert RowsHits(1, l, 8) == Length(1, l);
    case 3 => assert RowsHits(3, l, 8) == Length(3, l);
    case 5 => assert RowsHits(5, l, 8) == Length(5, l);
    case 7 => assert RowsHits(7, l, 8) == Length(7, l);
  }

  lemma Lengths(d: Direction, l: nat)
    requires l < 15
    ensures LineLen(d, l, 64) == Length(d, l)
  {
    RowsAddUp(d, l, 8);
    if d % 2 == 0 {
      EvenLengths(d, l);
    } else {
      OddLengths(d, l);
    }
  }

  lemma WeightOfLength(d: Direction, l: nat)
    requires l < 15
    ensures Length(d, l) > 0 ==> Weight(Length(d, l)) * Length(d, l) == 840
    ensures Length(d, l) == 0 <==> Weight(Length(d, l)) == 0
  {
  }

  lemma {:induction false} EmptyLine(v: seq<int>, d: Direction, l: nat, n: nat)
    requires |v| == 64 && n <= 64 && LineLen(d, l, n) == 0
    ensures LineEnergy(v, d, l, n) == 0 && LineSum(v, d, l, n) == 0
    ensures forall k | 0 <= k < n :: Line(d, k) != l
  {
    if n > 0 {
      EmptyLine(v, d, l, n - 1);
    }
  }

  /** What a line falls short of its energy by, scaled. */
  lemma LineShortfall(v: seq<int>, d: Direction, l: nat)
    requires |v| == 64 && l < 15
    ensures 840 * LineEnergy(v, d, l, 64) - LineCost(v, d, l) >= 0
    ensures 840 * LineEnergy(v, d, l, 64) == LineCost(v, d, l) <==> Constant(v, d, l, 64)
  {
    Lengths(d, l);
    WeightOfLength(d, l);
    SpreadZero(v, d, l, 64);
    var c, e, s := LineLen(d, l, 64), LineEnergy(v, d, l, 64), LineSum(v, d, l, 64);
    if c == 0 {
      EmptyLine(v, d, l, 64);
    } else {
      hide LineLen, LineEnergy, LineSum, Constant, Length, Weight, Line;
      Scaled(Weight(c), c, e, s);
    }
  }

  lemma Scaled(w: nat, c: nat, e: int, s: int)
    requires w * c == 840 && c * e - s * s >= 0
    ensures 840 * e - w * (s * s) == w * (c * e - s * s) >= 0
    ensures 840 * e == w * (s * s) <==> c * e - s * s == 0
  {
    assert w > 0;
    assert 840 * e == w * (c * e) by { assert w * c * e == w * (c * e); }
    var spread := c * e - s * s;
    assert w * (c * e) - w * (s * s) == w * spread;
    if spread > 0 {
      assert w * spread > 0;
    }
  }

  ghost predicate ConstantAlong(v: seq<int>, d: Direction)
    requires |v| == 64
  {
    forall j, k | 0 <= j < 64 && 0 <= k < 64 && Line(d, j) == Line(d, k) :: v[j] == v[k]
  }

  lemma {:induction false} CostsBelowEnergies(v: seq<int>, d: Direction, m: nat)
    requires |v| == 64 && m <= 15
    ensures CostUpTo(v, d, m) <= 840 * LineEnergies(v, d, 64, m)
    ensures CostUpTo(v, d, m) == 840 * LineEnergies(v, d, 64, m) <==> forall l | 0 <= l < m :: Constant(v, d, l, 64)
  {
    if m > 0 {
      hide Constant, LineCost;
      CostsBelowEnergies(v, d, m - 1);
      LineShortfall(v, d, m - 1);
    }
  }

  /** No direction has a cost above the energy of the block, and a direction reaches it exactly when the
      block is constant along each of its lines. */
  lemma CostBelowEnergy(v: seq<int>, d: Direction)
    requires |v| == 64
    ensures Cost(v, d) <= 840 * Energy(v, 64)
    ensures Cost(v, d) == 840 * Energy(v, 64) <==> ConstantAlong(v, d)
  {
    CostsBelowEnergies(v, d, 15);
    LinesShareEnergy(v, d, 64);
    ConstantByLines(v, d);
  }

  lemma ConstantByLines(v: seq<int>, d: Direction)
    requires |v| == 64
    ensures ConstantAlong(v, d) <==> forall l | 0 <= l < 15 :: Constant(v, d, l, 64)
  {
    hide LineAt;
    if forall l | 0 <= l < 15 :: Constant(v, d, l, 64) {
      forall j, k | 0 <= j < 64 && 0 <= k < 64 && Line(d, j) == Line(d, k) ensures v[j] == v[k] {
        assert Constant(v, d, Line(d, j), 64);
      }
    }
  }

  /** The first of the directions with the largest cost. */
  ghost predicate IsBest(v: seq<int>, d: Direction)
    requires |v| == 64
  {
    && (forall e: Direction :: Cost(v, e) <= Cost(v, d))
    && (forall e: Direction | e < d :: Cost(v, e) < Cost(v, d))
  }

  /** There is only one such direction, ... */
  lemma BestIsUnique(v: seq<int>, d: Direction, e: Direction)
    requires |v| == 64 && IsBest(v, d) && IsBest(v, e)
    ensures d == e
  {
    hide Cost;
    assert Cost(v, d) <= Cost(v, e) && Cost(v, e) <= Cost(v, d);
  }

  /** ... and there is one. */
  ghost function Best(v: seq<int>, n: nat): (d: Direction)
    requires |v| == 64 && 0 < n <= 8
    ensures d < n
  {
    if n == 1 then 0
    else if Cost(v, n - 1) > Cost(v, Best(v, n - 1)) then n - 1 else Best(v, n - 1)
  }

  lemma {:induction false} BestBelow(v: seq<int>, n: nat)
    requires |v| == 64 && 0 < n <= 8
    ensures forall e: Direction | e < n :: Cost(v, e) <= Cost(v, Best(v, n))
    ensures forall e: Direction | e < Best(v, n) :: Cost(v, e) < Cost(v, Best(v, n))
  {
    hide Cost;
    if n > 1 {
      BestBelow(v, n - 1);
    }
  }

  lemma BestIsBest(v: seq<int>)
    requires |v| == 64
    ensures IsBest(v, Best(v, 8))
    ensures Lead(v, Best(v, 8)) == (Cost(v, Best(v, 8)) - Cost(v, Across(Best(v, 8)))) / 1024
  {
    hide Cost;
    BestBelow(v, 8);
  }

  /** The direction at right angles to `d`. */
  function Across(d: Direction): Direction { if d < 4 then d + 4 else d - 4 }

  /** The lines across are the lines of `d` after a quarter turn of the block, numbered from the other end
      where the turn reverses them. */
  lemma AcrossIsQuarterTurn(d: Direction, y: nat, x: nat)
    requires y < 8 && x < 8
    ensures var l := LineAt(d, x, 7 - y);
            LineAt(Across(d), y, x) == if d == 0 then 14 - l
                                       else if d == 5 || d == 7 then 10 - l
                                       else if d == 6 then 7 - l
                                       else l
    ensures Across(Across(d)) == d && Across(d) != d
  {
  }

  /** How far the cost of `d` is ahead of the one across, scaled down. */
  ghost function Lead(v: seq<int>, d: Direction): nat
    requires |v| == 64
  {
    var lead := (Cost(v, d) - Cost(v, Across(d))) / 1024;
    if lead < 0 then 0 else lead
  }

  /** A block constant along some direction is found constant along the direction chosen; if there is
      only one such direction, it is the one chosen. */
  lemma ConstantDirectionIsFound(v: seq<int>, d: Direction, best: Direction)
    requires |v| == 64 && IsBest(v, best) && ConstantAlong(v, d)
    ensures ConstantAlong(v, best) && best <= d
    ensures (forall e: Direction :: ConstantAlong(v, e) ==> e == d) ==> best == d
  {
    CostBelowEnergy(v, d);
    CostBelowEnergy(v, best);
    hide ConstantAlong, Cost;
    assert Cost(v, d) <= Cost(v, best);
  }

  // ----- The search, in 32-bit arithmetic -----

  ghost function Square(v: seq<int>, d: Direction, l: nat): int
    requires |v| == 64
  {
    LineSum(v, d, l, 64) * LineSum(v, d, l, 64)
  }

  lemma {:induction false} SumBounded(v: seq<int>, d: Direction, l: nat, n: nat)
    requires ValidBlock(v) && n <= 64
    ensures -128 * LineLen(d, l, n) <= LineSum(v, d, l, n) <= 128 * LineLen(d, l, n)
    ensures LineLen(d, l, n) <= n
  {
    if n > 0 {
      SumBounded(v, d, l, n - 1);
    }
  }

  lemma LineSumBounded(v: seq<int>, d: Direction, l: nat)
    requires ValidBlock(v) && l < 15
    ensures -1024 <= LineSum(v, d, l, 64) <= 1024
    ensures 0 <= Square(v, d, l) <= 0x10_0000
  {
    SumBounded(v, d, l, 64);
    Lengths(d, l);
    SquareBounded(LineSum(v, d, l, 64), 1024);
  }

  lemma SquareBounded(s: int, b: int)
    requires -b <= s <= b
    ensures 0 <= s * s <= b * b
  {
    if s >= 0 {
      assert s * s <= s * b <= b * b;
    } else {
      assert (-s) * (-s) <= (-s) * b <= b * b;
    }
  }

  lemma {:induction false} EnergyBounded(v: seq<int>, n: nat)
    requires ValidBlock(v) && n <= 64
    ensures 0 <= Energy(v, n) <= 16384 * n
  {
    if n > 0 {
      EnergyBounded(v, n - 1);
      SquareBounded(v[n - 1], 128);
    }
  }

  /** Every cost fits 31 bits. */
  lemma CostFits(v: seq<int>, d: Direction)
    requires ValidBlock(v)
    ensures 0 <= Cost(v, d) <= 880803840
  {
    CostBelowEnergy(v, d);
    EnergyBounded(v, 64);
    CostNonnegative(v, d, 15);
  }

  lemma {:induction false} CostNonnegative(v: seq<int>, d: Direction, m: nat)
    requires |v| == 64 && m <= 15
    ensures CostUpTo(v, d, m) >= 0
  {
    if m > 0 {
      CostNonnegative(v, d, m - 1);
      SquareZero(LineSum(v, d, m - 1, 64));
      assert Weight(LineLen(d, m - 1, 64)) * Square(v, d, m - 1) >= 0;
    }
  }

  /** The squared sums of `m` lines from line `a` on. */
  ghost function Squares(v: seq<int>, d: Direction, a: nat, m: nat): int
    requires |v| == 64
  {
    if m == 0 then 0 else Squares(v, d, a, m - 1) + Square(v, d, a + m - 1)
  }

  const DIV_TABLE: seq<int32> := [840, 420, 280, 210, 168, 140, 120]

  /** The first `m` lines and their mirror images, with weights from the table: every one for the
      diagonal directions, every other one for the directions in between. */
  ghost function Pairs(v: seq<int>, d: Direction, m: nat): int
    requires |v| == 64 && d % 4 != 2 && m <= if d % 2 == 0 then 7 else 3
  {
    if m == 0 then 0
    else if d % 2 == 0 then
      Pairs(v, d, m - 1) + (Square(v, d, m - 1) + Square(v, d, 15 - m)) * DIV_TABLE[m - 1] as int
    else
      Pairs(v, d, m - 1) + (Square(v, d, m - 1) + Square(v, d, 11 - m)) * DIV_TABLE[2 * m - 1] as int
  }

  lemma CostOfLine(v: seq<int>, d: Direction, l: nat)
    requires |v| == 64 && l < 15
    ensures LineCost(v, d, l) == Weight(Length(d, l)) * Square(v, d, l)
    ensures CostUpTo(v, d, l + 1) == CostUpTo(v, d, l) + Weight(Length(d, l)) * Square(v, d, l)
  {
    Lengths(d, l);
  }

  lemma CostOfLines(v: seq<int>, d: Direction)
    requires |v| == 64
    ensures Cost(v, d)
         == Weight(Length(d, 0)) * Square(v, d, 0) + Weight(Length(d, 1)) * Square(v, d, 1)
          + Weight(Length(d, 2)) * Square(v, d, 2) + Weight(Length(d, 3)) * Square(v, d, 3)
          + Weight(Length(d, 4)) * Square(v, d, 4) + Weight(Length(d, 5)) * Square(v, d, 5)
          + Weight(Length(d, 6)) * Square(v, d, 6) + Weight(Length(d, 7)) * Square(v, d, 7)
          + Weight(Length(d, 8)) * Square(v, d, 8) + Weight(Length(d, 9)) * Square(v, d, 9)
          + Weight(Length(d, 10)) * Square(v, d, 10) + Weight(Length(d, 11)) * Square(v, d, 11)
          + Weight(Length(d, 12)) * Square(v, d, 12) + Weight(Length(d, 13)) * Square(v, d, 13)
          + Weight(Length(d, 14)) * Square(v, d, 14)
  {
    assert CostUpTo(v, d, 0) == 0;
    hide CostUpTo, Length, Weight, Square;
    CostOfLine(v, d, 0);
    CostOfLine(v, d, 1);
    CostOfLine(v, d, 2);
    CostOfLine(v, d, 3);
    CostOfLine(v, d, 4);
    CostOfLine(v, d, 5);
    CostOfLine(v, d, 6);
    CostOfLine(v, d, 7);
    CostOfLine(v, d, 8);
    CostOfLine(v, d, 9);
    CostOfLine(v, d, 10);
    CostOfLine(v, d, 11);
    CostOfLine(v, d, 12);
    CostOfLine(v, d, 13);
    CostOfLine(v, d, 14);
  }

  lemma SquaresOfEight(v: seq<int>, d: Direction, a: nat)
    requires |v| == 64
    ensures Squares(v, d, a, 5) == Square(v, d, a) + Square(v, d, a + 1) + Square(v, d, a + 2) + Square(v, d, a + 3)
                                 + Square(v, d, a + 4)
    ensures Squares(v, d, a, 8) == Squares(v, d, a, 5) + Square(v, d, a + 5) + Square(v, d, a + 6) + Square(v, d, a + 7)
  {
    hide Square;
    assert Squares(v, d, a, 2) == Square(v, d, a) + Square(v, d, a + 1)
      by { assert Squares(v, d, a, 1) == Square(v, d, a); }
    assert Squares(v, d, a, 4) == Squares(v, d, a, 2) + Square(v, d, a + 2) + Square(v, d, a + 3);
    assert Squares(v, d, a, 6) == Squares(v, d, a, 4) + Square(v, d, a + 4) + Square(v, d, a + 5);
    assert Squares(v, d, a, 8) == Squares(v, d, a, 6) + Square(v, d, a + 6) + Square(v, d, a + 7);
  }

  lemma StraightCost(v: seq<int>, d: Direction)
    requires |v| == 64 && d % 4 == 2
    ensures Cost(v, d) == Squares(v, d, 0, 8) * 105
  {
    CostOfLines(v, d);
    SquaresOfEight(v, d, 0);
    hide Cost, Square, Squares;
    assert Weight(8) == 105 && Weight(0) == 0;
  }

  /** The table weights of the diagonal lines, written out. */
  lemma DiagonalPairs(v: seq<int>, d: Direction)
    requires |v| == 64 && d % 4 == 0
    ensures Pairs(v, d, 7)
         == (Square(v, d, 0) + Square(v, d, 14)) * 840 + (Square(v, d, 1) + Square(v, d, 13)) * 420
          + (Square(v, d, 2) + Square(v, d, 12)) * 280 + (Square(v, d, 3) + Square(v, d, 11)) * 210
          + (Square(v, d, 4) + Square(v, d, 10)) * 168 + (Square(v, d, 5) + Square(v, d, 9)) * 140
          + (Square(v, d, 6) + Square(v, d, 8)) * 120
  {
    hide Square;
    assert Pairs(v, d, 2) == (Square(v, d, 0) + Square(v, d, 14)) * 840 + (Square(v, d, 1) + Square(v, d, 13)) * 420
      by { assert Pairs(v, d, 1) == (Square(v, d, 0) + Square(v, d, 14)) * 840; }
    assert Pairs(v, d, 4) == Pairs(v, d, 2) + (Square(v, d, 2) + Square(v, d, 12)) * 280
                           + (Square(v, d, 3) + Square(v, d, 11)) * 210;
    assert Pairs(v, d, 6) == Pairs(v, d, 4) + (Square(v, d, 4) + Square(v, d, 10)) * 168
                           + (Square(v, d, 5) + Square(v, d, 9)) * 140;
    assert Pairs(v, d, 7) == Pairs(v, d, 6) + (Square(v, d, 6) + Square(v, d, 8)) * 120;
  }

  /** 840 over the length of each diagonal line. */
  lemma DiagonalWeights(d: Direction)
    requires d % 4 == 0
    ensures Weight(Length(d, 0)) == Weight(Length(d, 14)) == 840 && Weight(Length(d, 1)) == Weight(Length(d, 13)) == 420
    ensures Weight(Length(d, 2)) == Weight(Length(d, 12)) == 280 && Weight(Length(d, 3)) == Weight(Length(d, 11)) == 210
    ensures Weight(Length(d, 4)) == Weight(Length(d, 10)) == 168 && Weight(Length(d, 5)) == Weight(Length(d, 9)) == 140
    ensures Weight(Length(d, 6)) == Weight(Length(d, 8)) == 120 && Weight(Length(d, 7)) == 105
  {
  }

  lemma DiagonalCost(v: seq<int>, d: Direction)
    requires |v| == 64 && d % 4 == 0
    ensures Cost(v, d) == Pairs(v, d, 7) + Square(v, d, 7) * 105
  {
    hide Cost, Square, Pairs, Weight, Length;
    CostOfLines(v, d);
    DiagonalWeights(d);
    DiagonalPairs(v, d);
  }

  /** The table weights of the lines in between, written out. */
  lemma SteepPairs(v: seq<int>, d: Direction)
    requires |v| == 64 && d % 2 == 1
    ensures Pairs(v, d, 3) == (Square(v, d, 0) + Square(v, d, 10)) * 420 + (Square(v, d, 1) + Square(v, d, 9)) * 210
                            + (Square(v, d, 2) + Square(v, d, 8)) * 140
  {
    hide Square;
    assert Pairs(v, d, 2) == (Square(v, d, 0) + Square(v, d, 10)) * 420 + (Square(v, d, 1) + Square(v, d, 9)) * 210
      by { assert Pairs(v, d, 1) == (Square(v, d, 0) + Square(v, d, 10)) * 420; }
  }

  /** 840 over the length of each of these lines; the last four lines are empty. */
  lemma SteepWeights(d: Direction)
    requires d % 2 == 1
    ensures Weight(Length(d, 0)) == Weight(Length(d, 10)) == 420 && Weight(Length(d, 1)) == Weight(Length(d, 9)) == 210
    ensures Weight(Length(d, 2)) == Weight(Length(d, 8)) == 140 && Weight(Length(d, 5)) == 105
    ensures Weight(Length(d, 3)) == Weight(Length(d, 4)) == Weight(Length(d, 6)) == Weight(Length(d, 7)) == 105
    ensures Weight(Length(d, 11)) == Weight(Length(d, 12)) == Weight(Length(d, 13)) == Weight(Length(d, 14)) == 0
  {
  }

  lemma SteepCost(v: seq<int>, d: Direction)
    requires |v| == 64 && d % 2 == 1
    ensures Cost(v, d) == Squares(v, d, 3, 5) * 105 + Pairs(v, d, 3)
  {
    hide Cost, Square, Squares, Pairs, Weight, Length;
    CostOfLines(v, d);
    SquaresOfEight(v, d, 3);
    SteepWeights(d);
    SteepPairs(v, d);
  }

  /** The block the search works on: 8-bit pixels, centred. */
  function Levelled(img: seq<int>, bpcMin8: nat): seq<int> {
    seq(|img|, k requires 0 <= k < |img| => Shr(img[k], bpcMin8) - 128)
  }

  /** The leading eight bits of a pixel, less 128. */
  lemma LevelledPixel(img: seq<int>, bpcMin8: nat, k: nat)
    requires k < |img|
    ensures var v := Levelled(img, bpcMin8)[k];
            (v + 128) * Pow2(bpcMin8) <= img[k] < (v + 129) * Pow2(bpcMin8)
  {
    var d, p := Pow2(bpcMin8), img[k];
    assert p == p / d * d + p % d && (p / d + 1) * d == p / d * d + d;
  }

  ghost predicate ValidImage(img: seq<int>, bpcMin8: nat) {
    |img| == 64 && forall k | 0 <= k < 64 :: 0 <= img[k] < 256 * Pow2(bpcMin8)
  }

  lemma LevelledValid(img: seq<int>, bpcMin8: nat)
    requires ValidImage(img, bpcMin8)
    ensures ValidBlock(Levelled(img, bpcMin8))
  {
    forall k | 0 <= k < 64 ensures -128 <= Levelled(img, bpcMin8)[k] <= 127 {
      EightBits(img[k], Pow2(bpcMin8));
    }
  }

  lemma EightBits(p: nat, d: nat)
    requires d > 0 && p < 256 * d
    ensures 0 <= p / d < 256
  {
    assert p == p / d * d + p % d;
    Multiples(256, p / d, d);
  }

  /** The partial sums over the first `n` pixels, by rows and columns. */
  ghost predicate HvAre(v: seq<int>, n: nat, hv: array2<int32>)
    requires |v| == 64 && n <= 64
    reads hv
  {
    && hv.Length0 == 2 && hv.Length1 == 8
    && forall i, l | 0 <= i < 2 && 0 <= l < 8 :: hv[i, l] as int == LineSum(v, 2 + 4 * i, l, n)
  }

  /** ... along the diagonals ... */
  ghost predicate DiagAre(v: seq<int>, n: nat, diag: array2<int32>)
    requires |v| == 64 && n <= 64
    reads diag
  {
    && diag.Length0 == 2 && diag.Length1 == 15
    && forall i, l | 0 <= i < 2 && 0 <= l < 15 :: diag[i, l] as int == LineSum(v, 4 * i, l, n)
  }

  /** ... and along the directions in between. */
  ghost predicate AltAre(v: seq<int>, n: nat, alt: array2<int32>)
    requires |v| == 64 && n <= 64
    reads alt
  {
    && alt.Length0 == 4 && alt.Length1 == 11
    && forall i, l | 0 <= i < 4 && 0 <= l < 11 :: alt[i, l] as int == LineSum(v, 2 * i + 1, l, n)
  }

  lemma SumGrows(v: seq<int>, d: Direction, l: nat, y: nat, x: nat)
    requires ValidBlock(v) && y < 8 && x < 8
    ensures LineSum(v, d, l, 8 * y + x + 1)
            == LineSum(v, d, l, 8 * y + x) + if LineAt(d, y, x) == l then v[8 * y + x] else 0
    ensures -8192 <= LineSum(v, d, l, 8 * y + x) <= 8192
  {
    LineOfPixel(d, y, x);
    SumBounded(v, d, l, 8 * y + x);
  }

  lemma SumsGrow(v: seq<int>, y: nat, x: nat)
    requires ValidBlock(v) && y < 8 && x < 8
    ensures var n := 8 * y + x;
            forall d: Direction, l: nat ::
              && -8192 <= LineSum(v, d, l, n) <= 8192
              && LineSum(v, d, l, n + 1) == LineSum(v, d, l, n) + if LineAt(d, y, x) == l then v[n] else 0
  {
    var n := 8 * y + x;
    forall d: Direction, l: nat
      ensures -8192 <= LineSum(v, d, l, n) <= 8192
      ensures LineSum(v, d, l, n + 1) == LineSum(v, d, l, n) + if LineAt(d, y, x) == l then v[n] else 0
    {
      SumGrows(v, d, l, y, x);
    }
  }

  method AddStraight(ghost v: seq<int>, y: nat, x: nat, px: int32, hv: array2<int32>)
    requires ValidBlock(v) && y < 8 && x < 8 && px as int == v[8 * y + x] && HvAre(v, 8 * y + x, hv)
    modifies hv
    ensures HvAre(v, 8 * y + x + 1, hv)
  {
    SumsGrow(v, y, x);
    hide LineSum, ValidBlock;
    hv[0, y] := hv[0, y] + px;
    hv[1, x] := hv[1, x] + px;
  }

  method AddDiagonal(ghost v: seq<int>, y: nat, x: nat, px: int32, diag: array2<int32>)
    requires ValidBlock(v) && y < 8 && x < 8 && px as int == v[8 * y + x] && DiagAre(v, 8 * y + x, diag)
    modifies diag
    ensures DiagAre(v, 8 * y + x + 1, diag)
  {
    SumsGrow(v, y, x);
    hide LineSum, ValidBlock;
    diag[0, y + x] := diag[0, y + x] + px;
    diag[1, 7 + y - x] := diag[1, 7 + y - x] + px;
  }

  /** Adds a pixel to its line in one of the directions between. */
  method AddToLine(ghost v: seq<int>, ghost y: nat, ghost x: nat, px: int32, alt: array2<int32>, i: nat, line: nat)
    requires ValidBlock(v) && y < 8 && x < 8 && px as int == v[8 * y + x] && alt.Length0 == 4 && alt.Length1 == 11
    requires i < 4 && line < 11 && LineAt(2 * i + 1, y, x) == line
    requires forall l | 0 <= l < 11 :: alt[i, l] as int == LineSum(v, 2 * i + 1, l, 8 * y + x)
    modifies alt
    ensures forall l | 0 <= l < 11 :: alt[i, l] as int == LineSum(v, 2 * i + 1, l, 8 * y + x + 1)
    ensures forall k, l | 0 <= k < 4 && k != i && 0 <= l < 11 :: alt[k, l] == old(alt[k, l])
  {
    ghost var d: Direction, n := 2 * i + 1, 8 * y + x;
    forall l | 0 <= l < 11
      ensures -8192 <= LineSum(v, d, l, n) <= 8192
      ensures LineSum(v, d, l, n + 1) == LineSum(v, d, l, n) + if line == l then v[n] else 0
    {
      SumGrows(v, d, l, y, x);
    }
    hide LineSum, LineAt;
    alt[i, line] := alt[i, line] + px;
  }

  method AddSteep(ghost v: seq<int>, y: nat, x: nat, px: int32, alt: array2<int32>)
    requires ValidBlock(v) && y < 8 && x < 8 && px as int == v[8 * y + x] && AltAre(v, 8 * y + x, alt)
    modifies alt
    ensures AltAre(v, 8 * y + x + 1, alt)
  {
    hide LineSum, ValidBlock;
    AddToLine(v, y, x, px, alt, 0, y + x / 2);
    AddToLine(v, y, x, px, alt, 1, 3 + y - x / 2);
    AddToLine(v, y, x, px, alt, 2, 3 - y / 2 + x);
    AddToLine(v, y, x, px, alt, 3, y / 2 + x);
  }

  method PartialSums(img: seq<int>, bpcMin8: nat)
    returns (hv: array2<int32>, diag: array2<int32>, alt: array2<int32>)
    requires ValidImage(img, bpcMin8)
    ensures var v := Levelled(img, bpcMin8); HvAre(v, 64, hv) && DiagAre(v, 64, diag) && AltAre(v, 64, alt)
    ensures fresh(hv) && fresh(diag) && fresh(alt)
  {
    ghost var v := Levelled(img, bpcMin8);
    LevelledValid(img, bpcMin8);
    assert forall d: Direction, l: nat :: LineSum(v, d, l, 0) == 0;
    hv := new int32[2, 8]((_, _) => 0);
    diag := new int32[2, 15]((_, _) => 0);
    alt := new int32[4, 11]((_, _) => 0);
    hide HvAre, DiagAre, AltAre, Levelled, ValidBlock, LineSum;
    for y := 0 to 8
      invariant HvAre(v, 8 * y, hv) && DiagAre(v, 8 * y, diag) && AltAre(v, 8 * y, alt)
    {
      AddRow(img, bpcMin8, y, hv, diag, alt);
    }
  }

  method AddRow(img: seq<int>, bpcMin8: nat, y: nat, hv: array2<int32>, diag: array2<int32>, alt: array2<int32>)
    requires ValidImage(img, bpcMin8) && y < 8 && hv != diag && hv != alt && diag != alt
    requires var v := Levelled(img, bpcMin8); HvAre(v, 8 * y, hv) && DiagAre(v, 8 * y, diag) && AltAre(v, 8 * y, alt)
    modifies hv, diag, alt
    ensures var v := Levelled(img, bpcMin8);
            HvAre(v, 8 * y + 8, hv) && DiagAre(v, 8 * y + 8, diag) && AltAre(v, 8 * y + 8, alt)
  {
    ghost var v := Levelled(img, bpcMin8);
    LevelledValid(img, bpcMin8);
    assert forall k | 0 <= k < 64 :: v[k] == Shr(img[k], bpcMin8) - 128 && -128 <= v[k] <= 127;
    hide HvAre, DiagAre, AltAre, Levelled, ValidBlock, Shr, LineSum, ValidImage;
    for x := 0 to 8
      invariant HvAre(v, 8 * y + x, hv) && DiagAre(v, 8 * y + x, diag) && AltAre(v, 8 * y + x, alt)
    {
      var px := (Shr(img[8 * y + x], bpcMin8) - 128) as int32;
      AddDiagonal(v, y, x, px, diag);
      AddSteep(v, y, x, px, alt);
      AddStraight(v, y, x, px, hv);
    }
  }

  /** Two squares and their weight. */
  function PairCost(s: int32, t: int32, d: int32): (c: uint32)
    requires -1024 <= s <= 1024 && -1024 <= t <= 1024 && 0 <= d <= 840
    ensures c as int == (s as int * s as int + t as int * t as int) * d as int
  {
    SquareBounded(s as int, 1024);
    SquareBounded(t as int, 1024);
    PairFits(s as int * s as int + t as int * t as int, d as int);
    ((s * s + t * t) * d) as uint32
  }

  lemma PairFits(e: int, d: int)
    requires 0 <= e <= 0x20_0000 && 0 <= d <= 840
    ensures 0 <= e * d < 0x8000_0000
  {
    assert e * d <= 0x20_0000 * d;
  }

  function SquareCost(s: int32): (c: uint32)
    requires -1024 <= s <= 1024
    ensures c as int == s as int * s as int <= 0x10_0000
  {
    SquareBounded(s as int, 1024);
    (s * s) as uint32
  }

  lemma {:induction false} SquaresMonotonic(v: seq<int>, d: Direction, a: nat, m: nat, k: nat)
    requires |v| == 64 && m <= k
    ensures 0 <= Squares(v, d, a, m) <= Squares(v, d, a, k)
  {
    if k > 0 {
      SquareZero(LineSum(v, d, a + k - 1, 64));
      SquaresMonotonic(v, d, a, if m < k then m else k - 1, k - 1);
    }
  }

  lemma {:induction false} PairsMonotonic(v: seq<int>, d: Direction, m: nat, k: nat)
    requires |v| == 64 && d % 4 != 2 && m <= k <= if d % 2 == 0 then 7 else 3
    ensures 0 <= Pairs(v, d, m) <= Pairs(v, d, k)
  {
    if k > 0 {
      PairsGrow(v, d, k - 1);
      hide Pairs;
      PairsMonotonic(v, d, if m < k then m else k - 1, k - 1);
    }
  }

  lemma PairsGrow(v: seq<int>, d: Direction, k: nat)
    requires |v| == 64 && d % 4 != 2 && k < if d % 2 == 0 then 7 else 3
    ensures Pairs(v, d, k) <= Pairs(v, d, k + 1)
  {
    var t := if d % 2 == 0 then 14 - k else 10 - k;
    var w := DIV_TABLE[if d % 2 == 0 then k else 2 * k + 1] as int;
    SquareZero(LineSum(v, d, k, 64));
    SquareZero(LineSum(v, d, t, 64));
    assert Square(v, d, k) >= 0 && Square(v, d, t) >= 0 && w >= 0;
    hide Square;
    assert Pairs(v, d, k + 1) == Pairs(v, d, k) + (Square(v, d, k) + Square(v, d, t)) * w;
    hide *;
    assert (Square(v, d, k) + Square(v, d, t)) * w >= 0;
  }

  method StraightCosts(ghost v: seq<int>, hv: array2<int32>, cost: array<uint32>)
    requires ValidBlock(v) && HvAre(v, 64, hv) && cost.Length == 8 && cost[2] == cost[6] == 0
    modifies cost
    ensures cost[2] as int == Cost(v, 2) && cost[6] as int == Cost(v, 6)
    ensures forall d | 0 <= d < 8 && d != 2 && d != 6 :: cost[d] == old(cost[d])
  {
    StraightFits(v, 2);
    StraightFits(v, 6);
    hide Cost, Squares, ValidBlock;
    for n := 0 to 8
      invariant cost[2] as int == Squares(v, 2, 0, n) && cost[6] as int == Squares(v, 6, 0, n)
      invariant forall d | 0 <= d < 8 && d != 2 && d != 6 :: cost[d] == old(cost[d])
    {
      SquaresStep(v, 2, 0, n);
      SquaresStep(v, 6, 0, n);
      assert hv[0, n] as int == LineSum(v, 2, n, 64) && hv[1, n] as int == LineSum(v, 6, n, 64);
      hide HvAre, LineSum;
      cost[2] := cost[2] + SquareCost(hv[0, n]);
      cost[6] := cost[6] + SquareCost(hv[1, n]);
    }
    cost[2] := cost[2] * 105;
    cost[6] := cost[6] * 105;
  }

  lemma SquaresStep(v: seq<int>, d: Direction, a: nat, n: nat)
    requires ValidBlock(v) && a + n < 15 && n < 8
    ensures Squares(v, d, a, n + 1) == Squares(v, d, a, n) + LineSum(v, d, a + n, 64) * LineSum(v, d, a + n, 64)
    ensures 0 <= Squares(v, d, a, n) && Squares(v, d, a, n + 1) <= 0x80_0000
    ensures -1024 <= LineSum(v, d, a + n, 64) <= 1024
  {
    LineSumBounded(v, d, a + n);
    SquaresBounded(v, d, a, n + 1);
    SquaresMonotonic(v, d, a, n, n);
  }

  lemma {:induction false} SquaresBounded(v: seq<int>, d: Direction, a: nat, n: nat)
    requires ValidBlock(v) && a + n <= 15
    ensures Squares(v, d, a, n) <= 0x10_0000 * n
  {
    if n > 0 {
      SquaresBounded(v, d, a, n - 1);
      LineSumBounded(v, d, a + n - 1);
    }
  }

  lemma StraightFits(v: seq<int>, d: Direction)
    requires ValidBlock(v) && d % 4 == 2
    ensures Squares(v, d, 0, 0) == 0
    ensures Cost(v, d) == Squares(v, d, 0, 8) * 105 && 0 <= Cost(v, d) <= 880803840
  {
    StraightCost(v, d);
    CostFits(v, d);
  }

  /** Adds line `n` of a diagonal direction, and its mirror image. */
  method AddDiagonalPair(ghost v: seq<int>, diag: array2<int32>, i: nat, n: nat, cost: uint32) returns (c: uint32)
    requires ValidBlock(v) && DiagAre(v, 64, diag) && i < 2 && n < 7 && cost as int == Pairs(v, 4 * i, n)
    ensures c as int == Pairs(v, 4 * i, n + 1)
  {
    ghost var d: Direction := 4 * i;
    DiagonalStep(v, d, n);
    var s, t := diag[i, n], diag[i, 14 - n];
    assert s as int == LineSum(v, d, n, 64) && t as int == LineSum(v, d, 14 - n, 64);
    hide DiagAre, LineSum, Pairs, ValidBlock;
    c := cost + PairCost(s, t, DIV_TABLE[n]);
  }

  method DiagonalCosts(ghost v: seq<int>, diag: array2<int32>, cost: array<uint32>)
    requires ValidBlock(v) && DiagAre(v, 64, diag) && cost.Length == 8 && cost[0] == cost[4] == 0
    modifies cost
    ensures cost[0] as int == Cost(v, 0) && cost[4] as int == Cost(v, 4)
    ensures forall d | 0 <= d < 8 && d != 0 && d != 4 :: cost[d] == old(cost[d])
  {
    DiagonalFits(v, 0);
    DiagonalFits(v, 4);
    assert |v| == 64;
    hide Cost, Pairs, ValidBlock;
    for n := 0 to 7
      invariant cost[0] as int == Pairs(v, 0, n) && cost[4] as int == Pairs(v, 4, n)
      invariant forall d | 0 <= d < 8 && d != 0 && d != 4 :: cost[d] == old(cost[d])
    {
      hide DiagAre;
      var c0 := AddDiagonalPair(v, diag, 0, n, cost[0]);
      var c4 := AddDiagonalPair(v, diag, 1, n, cost[4]);
      cost[0], cost[4] := c0, c4;
    }
    assert diag[0, 7] as int == LineSum(v, 0, 7, 64) && diag[1, 7] as int == LineSum(v, 4, 7, 64);
    hide DiagAre, LineSum;
    cost[0] := cost[0] + SquareCost(diag[0, 7]) * 105;
    cost[4] := cost[4] + SquareCost(diag[1, 7]) * 105;
  }

  lemma DiagonalStep(v: seq<int>, d: Direction, n: nat)
    requires ValidBlock(v) && d % 4 == 0 && n < 7
    ensures var s, t := LineSum(v, d, n, 64), LineSum(v, d, 14 - n, 64);
            && -1024 <= s <= 1024 && -1024 <= t <= 1024
            && Pairs(v, d, n + 1) == Pairs(v, d, n) + (s * s + t * t) * DIV_TABLE[n] as int
            && 0 <= Pairs(v, d, n) <= Pairs(v, d, n + 1) <= 880803840
  {
    LineSumBounded(v, d, n);
    LineSumBounded(v, d, 14 - n);
    PairsMonotonic(v, d, n, n + 1);
    PairsMonotonic(v, d, n + 1, 7);
    DiagonalFits(v, d);
  }

  lemma DiagonalFits(v: seq<int>, d: Direction)
    requires ValidBlock(v) && d % 4 == 0
    ensures Pairs(v, d, 0) == 0
    ensures Cost(v, d) == Pairs(v, d, 7) + LineSum(v, d, 7, 64) * LineSum(v, d, 7, 64) * 105
    ensures 0 <= Pairs(v, d, 7) <= Cost(v, d) <= 880803840
    ensures -1024 <= LineSum(v, d, 7, 64) <= 1024
  {
    DiagonalCost(v, d);
    CostFits(v, d);
    LineSumBounded(v, d, 7);
    PairsMonotonic(v, d, 7, 7);
  }

  method SteepCosts(ghost v: seq<int>, alt: array2<int32>, cost: array<uint32>)
    requires ValidBlock(v) && AltAre(v, 64, alt) && cost.Length == 8
    modifies cost
    ensures forall d: Direction :: if d % 2 == 1 then cost[d] as int == Cost(v, d) else cost[d] == old(cost[d])
  {
    for n := 0 to 4
      invariant forall d: Direction ::
                  if d % 2 == 1 && d < 2 * n then cost[d] as int == Cost(v, d) else cost[d] == old(cost[d])
    {
      hide Cost, ValidBlock, AltAre;
      var c := SteepDirectionCost(v, alt, n);
      cost[n * 2 + 1] := c;
    }
  }

  /** Adds line `m` of a direction between, and its mirror image. */
  method AddSteepPair(ghost v: seq<int>, alt: array2<int32>, n: nat, m: nat, cost: uint32) returns (c: uint32)
    requires ValidBlock(v) && AltAre(v, 64, alt) && n < 4 && m < 3
    requires var d: Direction := 2 * n + 1; cost as int == Squares(v, d, 3, 5) * 105 + Pairs(v, d, m)
    ensures var d: Direction := 2 * n + 1; c as int == Squares(v, d, 3, 5) * 105 + Pairs(v, d, m + 1)
  {
    ghost var d: Direction := 2 * n + 1;
    SteepFits(v, d);
    SteepStep(v, d, m);
    var s, t := alt[n, m], alt[n, 10 - m];
    assert s as int == LineSum(v, d, m, 64) && t as int == LineSum(v, d, 10 - m, 64);
    hide AltAre, LineSum, Pairs, Squares, Cost, ValidBlock;
    c := cost + PairCost(s, t, DIV_TABLE[2 * m + 1]);
  }

  method SteepDirectionCost(ghost v: seq<int>, alt: array2<int32>, n: nat) returns (cost: uint32)
    requires ValidBlock(v) && AltAre(v, 64, alt) && n < 4
    ensures cost as int == Cost(v, 2 * n + 1)
  {
    ghost var d: Direction := 2 * n + 1;
    SteepFits(v, d);
    hide Cost, Pairs, Squares, ValidBlock;
    cost := 0;
    for m := 0 to 5
      invariant cost as int == Squares(v, d, 3, m)
    {
      SquaresStep(v, d, 3, m);
      assert alt[n, 3 + m] as int == LineSum(v, d, 3 + m, 64);
      cost := cost + SquareCost(alt[n, 3 + m]);
    }
    cost := cost * 105;
    for m := 0 to 3
      invariant cost as int == Squares(v, d, 3, 5) * 105 + Pairs(v, d, m)
    {
      cost := AddSteepPair(v, alt, n, m, cost);
    }
  }

  lemma SteepStep(v: seq<int>, d: Direction, n: nat)
    requires ValidBlock(v) && d % 2 == 1 && n < 3
    ensures var s, t := LineSum(v, d, n, 64), LineSum(v, d, 10 - n, 64);
            && -1024 <= s <= 1024 && -1024 <= t <= 1024
            && Pairs(v, d, n + 1) == Pairs(v, d, n) + (s * s + t * t) * DIV_TABLE[2 * n + 1] as int
            && 0 <= Pairs(v, d, n) <= Pairs(v, d, n + 1) <= Pairs(v, d, 3)
  {
    LineSumBounded(v, d, n);
    LineSumBounded(v, d, 10 - n);
    PairsMonotonic(v, d, n, n + 1);
    PairsMonotonic(v, d, n + 1, 3);
  }

  lemma SteepFits(v: seq<int>, d: Direction)
    requires ValidBlock(v) && d % 2 == 1
    ensures Squares(v, d, 3, 0) == 0 && Pairs(v, d, 0) == 0
    ensures Cost(v, d) == Squares(v, d, 3, 5) * 105 + Pairs(v, d, 3)
    ensures 0 <= Squares(v, d, 3, 5) * 105 <= Cost(v, d) <= 880803840
  {
    SteepCost(v, d);
    CostFits(v, d);
    PairsMonotonic(v, d, 0, 3);
    SquaresMonotonic(v, d, 3, 0, 5);
  }

  method Costs(img: seq<int>, bpcMin8: nat) returns (cost: array<uint32>)
    requires ValidImage(img, bpcMin8)
    ensures cost.Length == 8 && fresh(cost)
    ensures forall d: Direction :: cost[d] as int == Cost(Levelled(img, bpcMin8), d)
  {
    ghost var v := Levelled(img, bpcMin8);
    LevelledValid(img, bpcMin8);
    var hv, diag, alt := PartialSums(img, bpcMin8);
    hide Cost, Levelled, ValidBlock, HvAre, DiagAre, AltAre;
    cost := new uint32[8](_ => 0);
    StraightCosts(v, hv, cost);
    DiagonalCosts(v, diag, cost);
    SteepCosts(v, alt, cost);
  }

  /** Direction and variance of a block. */
  method FindDirection(img: seq<int>, bpcMin8: nat) returns (dir: Direction, variance: uint32)
    requires ValidImage(img, bpcMin8)
    ensures var v := Levelled(img, bpcMin8);
            IsBest(v, dir) && variance as int == (Cost(v, dir) - Cost(v, Across(dir))) / 1024
  {
    ghost var v := Levelled(img, bpcMin8);
    var cost := Costs(img, bpcMin8);
    hide Cost, Levelled, ValidImage;
    var bestCost := cost[0];
    dir := 0;
    for n := 0 to 8
      invariant 0 <= dir < 8 && bestCost == cost[dir]
      invariant forall e | 0 <= e < n :: cost[e] <= bestCost
      invariant forall e | 0 <= e < dir :: cost[e] < bestCost
    {
      if cost[n] > bestCost {
        bestCost := cost[n];
        dir := n;
      }
    }
    assert forall e: Direction :: cost[e] as int == Cost(v, e);
    variance := (bestCost - cost[Across(dir)]) / 1024;
  }
}
