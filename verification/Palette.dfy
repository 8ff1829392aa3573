/** Decoding of palette index maps along anti-diagonals: each symbol selects an entry of an ordering
    of the eight indices that depends on the left, top and top-left neighbours. */
module Palette {

  import opened IntOps

  const COLORS := 8

  // ----- The ordering of the indices -----

  ghost predicate Distinct(s: seq<nat>) {
    forall i, j | 0 <= i < j < |s| :: s[i] != s[j]
  }

  /** The neighbours in the order they are listed, and the context they select. */
  datatype Neighbours = Neighbours(list: seq<nat>, ctx: nat)

  function NeighboursOf(haveLeft: bool, haveTop: bool, l: nat, t: nat, tl: nat): Neighbours {
    if !haveLeft then Neighbours([t], 0)
    else if !haveTop then Neighbours([l], 0)
    else if t == l && t == tl then Neighbours([t], 4)
    else if t == l then Neighbours([t, tl], 3)
    else if t == tl then Neighbours([tl, l], 2)
    else if l == tl then Neighbours([tl, t], 2)
    else Neighbours([Min(t, l), Max(t, l), tl], 1)
  }

  /** The indices below `n` that are not in `nb`, in ascending order. */
  function Others(nb: seq<nat>, n: nat): seq<nat> {
    if n == 0 then []
    else Others(nb, n - 1) + if n - 1 in nb then [] else [n - 1]
  }

  /** The neighbours first, then everything else. */
  function OrderRow(nb: seq<nat>): seq<nat> { nb + Others(nb, COLORS) }

  lemma {:induction false} OthersAscend(nb: seq<nat>, n: nat)
    ensures Distinct(Others(nb, n))
    ensures forall i, j | 0 <= i < j < |Others(nb, n)| :: Others(nb, n)[i] < Others(nb, n)[j]
    ensures forall v :: v in Others(nb, n) <==> 0 <= v < n && v !in nb
  {
    if n > 0 {
      OthersAscend(nb, n - 1);
      var before := Others(nb, n - 1);
      assert forall k | 0 <= k < |before| :: before[k] in before;
    }
  }

  /** Together with the neighbours below `n`, the others below `n` make up all `n` indices. */
  lemma {:induction false} OthersCount(nb: seq<nat>, n: nat)
    ensures |Others(nb, n)| + |set v | v in nb && v < n| == n
  {
    if n > 0 {
      OthersCount(nb, n - 1);
      var below, upTo := set v | v in nb && v < n - 1, set v | v in nb && v < n;
      assert upTo == if n - 1 in nb then below + {n - 1} else below;
    } else {
      assert (set v | v in nb && v < n) == {};
    }
  }

  lemma {:induction false} SetOfDistinct(s: seq<nat>, n: nat)
    requires Distinct(s) && forall v | v in s :: v < n
    ensures |set v | v in s && v < n| == |s|
  {
    if s == [] {
      assert (set v | v in s && v < n) == {};
    } else {
      var rest := s[1..];
      assert s[0] !in rest && Distinct(rest);
      hide Distinct;
      assert s == [s[0]] + rest;
      assert forall v :: v in s <==> v == s[0] || v in rest;
      SetOfDistinct(rest, n);
      assert (set v | v in s && v < n) == (set v | v in rest && v < n) + {s[0]};
    }
  }

  /** The smaller indices come first among the others. */
  lemma {:induction false} OthersPrefix(nb: seq<nat>, n: nat, m: nat)
    requires n <= m
    ensures Others(nb, n) <= Others(nb, m)
  {
    if n < m {
      OthersPrefix(nb, n, m - 1);
    }
  }

  /** An ordering lists each of the eight indices once, and if the neighbours are below `n`, its first
      `n` entries are exactly the indices below `n`. */
  lemma OrderIsPermutation(nb: seq<nat>, n: nat)
    requires Distinct(nb) && n <= COLORS && forall v | v in nb :: v < n
    ensures |OrderRow(nb)| == COLORS && Distinct(OrderRow(nb))
    ensures forall v :: v in OrderRow(nb) <==> 0 <= v < COLORS
    ensures forall v :: v in OrderRow(nb)[..n] <==> 0 <= v < n
  {
    OthersAscend(nb, COLORS);
    OthersAscend(nb, n);
    OthersCount(nb, COLORS);
    OthersCount(nb, n);
    SetOfDistinct(nb, COLORS);
    SetOfDistinct(nb, n);
    OthersPrefix(nb, n, COLORS);
    hide Others;
    var rest := Others(nb, COLORS);
    assert |rest| == COLORS - |nb| && |Others(nb, n)| == n - |nb|;
    assert OrderRow(nb)[..n] == nb + Others(nb, n);
    forall i, j | 0 <= i < j < COLORS ensures OrderRow(nb)[i] != OrderRow(nb)[j] {
      if i < |nb| <= j {
        assert rest[j - |nb|] in rest && nb[i] in nb;
      }
    }
  }

  lemma NeighboursDistinct(haveLeft: bool, haveTop: bool, l: nat, t: nat, tl: nat, n: nat)
    requires haveLeft ==> l < n
    requires haveTop ==> t < n
    requires haveLeft && haveTop ==> tl < n
    requires haveLeft || haveTop
    ensures var nb := NeighboursOf(haveLeft, haveTop, l, t, tl).list;
            Distinct(nb) && |nb| > 0 && forall v | v in nb :: v < n
  {
  }

  // ----- The order of the standard -----

  /** Section 5.11.50 of the AV1 specification weighs an index by the neighbours that have it: two for
      the left and the top one, one for the top-left one. */
  function Score(haveLeft: bool, haveTop: bool, l: nat, t: nat, tl: nat, v: nat): nat {
    (if haveLeft && l == v then 2 else 0) + (if haveTop && t == v then 2 else 0)
    + if haveLeft && haveTop && tl == v then 1 else 0
  }

  /** The context the standard looks up by a hash of the three largest scores. */
  function ContextOfHash(hash: nat): int {
    if hash == 2 then 0 else if hash == 5 then 4 else if hash == 6 then 3
    else if hash == 7 then 2 else if hash == 8 then 1 else -1
  }

  /** Behind the neighbours come indices without a score. */
  lemma RowOf(haveLeft: bool, haveTop: bool, l: nat, t: nat, tl: nat)
    requires haveLeft || haveTop
    requires haveLeft ==> l < COLORS
    requires haveTop ==> t < COLORS
    requires haveLeft && haveTop ==> tl < COLORS
    ensures var nb := NeighboursOf(haveLeft, haveTop, l, t, tl).list;
            var row := OrderRow(nb);
            |row| == COLORS > |nb| && row[..|nb|] == nb
            && forall k | |nb| <= k < COLORS ::
                 Score(haveLeft, haveTop, l, t, tl, row[k]) == 0
                 && forall j | |nb| <= j < k :: row[j] < row[k]
  {
    var nb := NeighboursOf(haveLeft, haveTop, l, t, tl).list;
    NeighboursDistinct(haveLeft, haveTop, l, t, tl, COLORS);
    OrderIsPermutation(nb, COLORS);
    OthersAscend(nb, COLORS);
    var others := Others(nb, COLORS);
    hide Others, Distinct;
    forall k | |nb| <= k < COLORS ensures Score(haveLeft, haveTop, l, t, tl, OrderRow(nb)[k]) == 0 {
      assert OrderRow(nb)[k] == others[k - |nb|] && others[k - |nb|] in others;
    }
  }

  /** Index `u` comes before `v` in the standard: a higher score, or the same one and a lower index. */
  predicate Precedes(haveLeft: bool, haveTop: bool, l: nat, t: nat, tl: nat, u: nat, v: nat) {
    var su, sv := Score(haveLeft, haveTop, l, t, tl, u), Score(haveLeft, haveTop, l, t, tl, v);
    su > sv || (su == sv && u < v)
  }

  /** The neighbours come in the standard's order, all with a score. */
  lemma NeighboursOrdered(haveLeft: bool, haveTop: bool, l: nat, t: nat, tl: nat)
    requires haveLeft || haveTop
    requires haveLeft ==> l < COLORS
    requires haveTop ==> t < COLORS
    requires haveLeft && haveTop ==> tl < COLORS
    ensures var nb := NeighboursOf(haveLeft, haveTop, l, t, tl).list;
            && |nb| <= 3 && (forall i, j | 0 <= i < j < |nb| :: Precedes(haveLeft, haveTop, l, t, tl, nb[i], nb[j]))
            && forall i | 0 <= i < |nb| :: Score(haveLeft, haveTop, l, t, tl, nb[i]) > 0
  {
  }

  /** The hash of the scores of the neighbours gives the context. */
  lemma NeighboursContext(haveLeft: bool, haveTop: bool, l: nat, t: nat, tl: nat)
    requires haveLeft || haveTop
    requires haveLeft ==> l < COLORS
    requires haveTop ==> t < COLORS
    requires haveLeft && haveTop ==> tl < COLORS
    ensures var nb := NeighboursOf(haveLeft, haveTop, l, t, tl);
            ContextOfHash(ScoreOf(haveLeft, haveTop, l, t, tl, nb.list, 0)
                          + 2 * ScoreOf(haveLeft, haveTop, l, t, tl, nb.list, 1)
                          + 2 * ScoreOf(haveLeft, haveTop, l, t, tl, nb.list, 2)) == nb.ctx
  {
  }

  /** The score of entry `i`, or 0 behind the end. */
  function ScoreOf(haveLeft: bool, haveTop: bool, l: nat, t: nat, tl: nat, s: seq<nat>, i: nat): nat {
    if i < |s| then Score(haveLeft, haveTop, l, t, tl, s[i]) else 0
  }

  /** What comes first: the only neighbour; the index of all three; the one of left and top, then the top-left
      one; the top-left one if one neighbour shares it, then the other; or left and top, the smaller first, then
      the top-left one. The contexts tell these cases apart. */
  lemma OrderCases(haveLeft: bool, haveTop: bool, l: nat, t: nat, tl: nat)
    requires haveLeft || haveTop
    ensures var (nb, row) := (NeighboursOf(haveLeft, haveTop, l, t, tl),
                              OrderRow(NeighboursOf(haveLeft, haveTop, l, t, tl).list));
            && (!haveTop ==> [l] <= row && nb.ctx == 0)
            && (!haveLeft ==> [t] <= row && nb.ctx == 0)
            && (haveLeft && haveTop ==>
                  && (l == t == tl ==> [tl] <= row && nb.ctx == 4)
                  && (l == t != tl ==> [t, tl] <= row && nb.ctx == 3)
                  && (l == tl != t ==> [tl, t] <= row && nb.ctx == 2)
                  && (t == tl != l ==> [tl, l] <= row && nb.ctx == 2)
                  && (l != t && t != tl && l != tl ==> [Min(l, t), Max(l, t), tl] <= row && nb.ctx == 1))
  {
    hide Others;
  }

  /** Entry `i` of the row comes before entry `j` in the standard. */
  lemma RowOrdered(haveLeft: bool, haveTop: bool, l: nat, t: nat, tl: nat, i: nat, j: nat)
    requires haveLeft || haveTop
    requires haveLeft ==> l < COLORS
    requires haveTop ==> t < COLORS
    requires haveLeft && haveTop ==> tl < COLORS
    requires i < j < COLORS
    ensures var row := OrderRow(NeighboursOf(haveLeft, haveTop, l, t, tl).list);
            |row| == COLORS && Precedes(haveLeft, haveTop, l, t, tl, row[i], row[j])
  {
    hide OrderRow, NeighboursOf, Score;
    RowOf(haveLeft, haveTop, l, t, tl);
    NeighboursOrdered(haveLeft, haveTop, l, t, tl);
    var nb := NeighboursOf(haveLeft, haveTop, l, t, tl).list;
    var row := OrderRow(nb);
    if i < |nb| {
      assert row[i] == row[..|nb|][i] == nb[i];
      if j < |nb| {
        assert row[j] == row[..|nb|][j] == nb[j];
      }
    }
  }

  /** The scores of the first three entries are those of the neighbours. */
  lemma RowScore(haveLeft: bool, haveTop: bool, l: nat, t: nat, tl: nat, i: nat)
    requires haveLeft || haveTop
    requires haveLeft ==> l < COLORS
    requires haveTop ==> t < COLORS
    requires haveLeft && haveTop ==> tl < COLORS
    requires i < COLORS
    ensures var nb := NeighboursOf(haveLeft, haveTop, l, t, tl).list;
            var row := OrderRow(nb);
            |row| == COLORS && Score(haveLeft, haveTop, l, t, tl, row[i]) == ScoreOf(haveLeft, haveTop, l, t, tl, nb, i)
  {
    hide OrderRow, NeighboursOf, Score;
    RowOf(haveLeft, haveTop, l, t, tl);
    var nb := NeighboursOf(haveLeft, haveTop, l, t, tl).list;
    var row := OrderRow(nb);
    assert i < |nb| ==> row[i] == row[..|nb|][i];
  }

  /** The ordering sorts the indices by descending score, and those of equal score by index; the
      context is the standard's. */
  lemma OrderIsStandard(haveLeft: bool, haveTop: bool, l: nat, t: nat, tl: nat)
    requires haveLeft || haveTop
    requires haveLeft ==> l < COLORS
    requires haveTop ==> t < COLORS
    requires haveLeft && haveTop ==> tl < COLORS
    ensures var nb := NeighboursOf(haveLeft, haveTop, l, t, tl);
            var row := OrderRow(nb.list);
            && |row| == COLORS
            && (forall i, j | 0 <= i < j < COLORS :: Precedes(haveLeft, haveTop, l, t, tl, row[i], row[j]))
            && ContextOfHash(Score(haveLeft, haveTop, l, t, tl, row[0]) + 2 * Score(haveLeft, haveTop, l, t, tl, row[1])
                             + 2 * Score(haveLeft, haveTop, l, t, tl, row[2])) == nb.ctx
  {
    hide OrderRow, NeighboursOf, Score, ScoreOf, Precedes, ContextOfHash;
    var row := OrderRow(NeighboursOf(haveLeft, haveTop, l, t, tl).list);
    RowScore(haveLeft, haveTop, l, t, tl, 0);
    RowScore(haveLeft, haveTop, l, t, tl, 1);
    RowScore(haveLeft, haveTop, l, t, tl, 2);
    NeighboursContext(haveLeft, haveTop, l, t, tl);
    forall i, j | 0 <= i < j < COLORS ensures Precedes(haveLeft, haveTop, l, t, tl, row[i], row[j]) {
      RowOrdered(haveLeft, haveTop, l, t, tl, i, j);
    }
  }

  // ----- The wavefront -----

  /** Diagonal `i` of a map of width `w` and height `h` runs from column First down to column Last. */
  function First(w: nat, i: nat): int { Min(i, w - 1) }
  function Last(h: nat, i: nat): int { Max(0, i - h + 1) }

  /** How many pixels the diagonals before `i` hold. */
  function DiagStart(w: nat, h: nat, i: nat): int {
    if i == 0 then 0 else DiagStart(w, h, i - 1) + First(w, i - 1) - Last(h, i - 1) + 1
  }

  /** The number, in coding order, of the symbol of the pixel in row `r` and column `c`. */
  function SymbolIndex(w: nat, h: nat, r: nat, c: nat): int {
    DiagStart(w, h, r + c) + First(w, r + c) - c
  }

  lemma {:induction false} DiagStartMonotonic(w: nat, h: nat, i: nat, j: nat)
    requires 0 < w && 0 < h && i <= j <= w + h - 1
    ensures DiagStart(w, h, i) <= DiagStart(w, h, j)
    ensures i < j ==> DiagStart(w, h, i) < DiagStart(w, h, j)
  {
    if i < j {
      DiagStartMonotonic(w, h, i, j - 1);
    }
  }

  /** Left, top and top-left neighbours have their symbols, and so are written, earlier. */
  lemma NeighboursEarlier(w: nat, h: nat, r: nat, c: nat)
    requires r < h && c < w
    ensures c > 0 ==> SymbolIndex(w, h, r, c - 1) < SymbolIndex(w, h, r, c)
    ensures r > 0 ==> SymbolIndex(w, h, r - 1, c) < SymbolIndex(w, h, r, c)
    ensures r > 0 && c > 0 ==> SymbolIndex(w, h, r - 1, c - 1) < SymbolIndex(w, h, r, c)
  {
    if r + c > 1 {
      DiagStartMonotonic(w, h, r + c - 1, r + c);
    }
  }

  /** No two pixels share a symbol. */
  lemma SymbolIndexInjective(w: nat, h: nat, r: nat, c: nat, r': nat, c': nat)
    requires r < h && c < w && r' < h && c' < w
    requires SymbolIndex(w, h, r, c) == SymbolIndex(w, h, r', c')
    ensures r == r' && c == c'
  {
    var d, d' := r + c, r' + c';
    if d < d' {
      DiagStartMonotonic(w, h, d + 1, d');
    } else if d' < d {
      DiagStartMonotonic(w, h, d' + 1, d);
    }
  }

  /** Symbols follow the diagonals from top left to bottom right, each one downwards. */
  lemma WavefrontOrder(w: nat, h: nat, r: nat, c: nat, r': nat, c': nat)
    requires r < h && c < w && r' < h && c' < w
    ensures SymbolIndex(w, h, r, c) < SymbolIndex(w, h, r', c') <==> r + c < r' + c' || (r + c == r' + c' && r < r')
  {
    var d, d' := r + c, r' + c';
    if d < d' {
      DiagStartMonotonic(w, h, d + 1, d');
    } else if d' < d {
      DiagStartMonotonic(w, h, d' + 1, d);
    }
  }

  /** Twice the number of pixels of the first `i` diagonals of a map without a lower edge. */
  function Unbounded(w: nat, i: nat): int {
    if i <= w then i * (i + 1) else w * (w + 1) + 2 * ((i - w) * w)
  }

  /** Twice the number of those that lie below the map. */
  function Outside(h: nat, i: nat): int {
    if i <= h then 0 else (i - h) * (i - h + 1)
  }

  lemma UnboundedStep(w: nat, i: nat)
    requires 0 < w && 0 < i
    ensures Unbounded(w, i) == Unbounded(w, i - 1) + 2 * (First(w, i - 1) + 1)
  {
    if i <= w {
      assert i * (i + 1) == (i - 1) * i + 2 * i;
    } else {
      assert (i - w) * w == (i - 1 - w) * w + w;
    }
  }

  lemma OutsideStep(h: nat, i: nat)
    requires 0 < h && 0 < i
    ensures Outside(h, i) == Outside(h, i - 1) + 2 * Last(h, i - 1)
  {
    if i > h {
      assert (i - h) * (i - h + 1) == (i - 1 - h) * (i - h) + 2 * (i - h);
    }
  }

  lemma {:induction false} DiagClosedForm(w: nat, h: nat, i: nat)
    requires 0 < w && 0 < h
    ensures 2 * DiagStart(w, h, i) == Unbounded(w, i) - Outside(h, i)
  {
    if i > 0 {
      hide Unbounded, Outside;
      DiagClosedForm(w, h, i - 1);
      UnboundedStep(w, i);
      OutsideStep(h, i);
    } else {
      assert Unbounded(w, 0) == 0 && Outside(h, 0) == 0;
    }
  }

  /** The diagonals together hold the whole map. */
  lemma DiagTotal(w: nat, h: nat)
    requires 0 < w && 0 < h
    ensures DiagStart(w, h, w + h - 1) == w * h
  {
    DiagClosedForm(w, h, w + h - 1);
    var n := w + h - 1;
    assert (n - w) * w == (h - 1) * w == w * h - w;
    assert (n - h) * (n - h + 1) == (w - 1) * w;
    assert w * (w + 1) - (w - 1) * w == 2 * w;
    assert h == 1 ==> w * h == w && n * (n + 1) == w * (w + 1);
    assert w == 1 ==> (n - h) * (n - h + 1) == 0;
  }

  /** The pixel, by row and column, of symbol `p`, which lies before diagonal `i`. */
  function PixelBefore(w: nat, h: nat, p: nat, i: nat): (rc: (nat, nat))
    requires 0 < w && 0 < h && i <= w + h - 1 && p < DiagStart(w, h, i)
    ensures rc.0 < h && rc.1 < w && SymbolIndex(w, h, rc.0, rc.1) == p
  {
    if p < DiagStart(w, h, i - 1) then PixelBefore(w, h, p, i - 1)
    else
      var c := First(w, i - 1) - (p - DiagStart(w, h, i - 1));
      (i - 1 - c, c)
  }

  /** Symbols and pixels correspond one to one. */
  function PixelOf(w: nat, h: nat, p: nat): (rc: (nat, nat))
    requires p < w * h
    ensures rc.0 < h && rc.1 < w && SymbolIndex(w, h, rc.0, rc.1) == p
  {
    DiagTotal(w, h);
    PixelBefore(w, h, p, w + h - 1)
  }

  // ----- Index maps and symbol sequences -----

  /** A map of indices, by row and column. */
  type IndexMap = (int, int) -> nat

  function NeighboursAt(m: IndexMap, r: nat, c: nat): Neighbours {
    NeighboursOf(c > 0, r > 0, m(r, c - 1), m(r - 1, c), m(r - 1, c - 1))
  }

  /** The candidates for pixel (r, c), most likely first. */
  function Candidates(m: IndexMap, r: nat, c: nat): seq<nat> {
    OrderRow(NeighboursAt(m, r, c).list)
  }

  ghost predicate InPalette(m: IndexMap, w: nat, h: nat, n: nat) {
    forall r, c | 0 <= r < h && 0 <= c < w :: m(r, c) < n
  }

  ghost predicate ValidSymbols(syms: seq<nat>, w: nat, h: nat, n: nat) {
    |syms| == w * h && forall p | 0 <= p < |syms| :: syms[p] < n
  }

  lemma SymbolInRange(w: nat, h: nat, r: nat, c: nat)
    requires r < h && c < w
    ensures 0 <= SymbolIndex(w, h, r, c) < w * h
  {
    DiagTotal(w, h);
    DiagStartMonotonic(w, h, 0, r + c);
    DiagStartMonotonic(w, h, r + c + 1, w + h - 1);
  }

  /** The map `m` is what the symbols decode to: the first symbol is the first index itself, every other
      one selects among the candidates of its pixel. */
  ghost predicate DecodesTo(syms: seq<nat>, w: nat, h: nat, n: nat, m: IndexMap)
    requires ValidSymbols(syms, w, h, n) && n <= COLORS && InPalette(m, w, h, n)
  {
    forall r, c | 0 <= r < h && 0 <= c < w :: PixelDecodes(syms, w, h, n, m, r, c)
  }

  ghost predicate PixelDecodes(syms: seq<nat>, w: nat, h: nat, n: nat, m: IndexMap, r: nat, c: nat)
    requires ValidSymbols(syms, w, h, n) && n <= COLORS && InPalette(m, w, h, n) && r < h && c < w
  {
    SymbolInRange(w, h, r, c);
    var s := syms[SymbolIndex(w, h, r, c)];
    if r == 0 && c == 0 then m(0, 0) == s
    else
      CandidatesValid(m, w, h, n, r, c);
      m(r, c) == Candidates(m, r, c)[s]
  }

  /** Every candidate list is a permutation of the eight indices that starts with the palette. */
  lemma CandidatesValid(m: IndexMap, w: nat, h: nat, n: nat, r: nat, c: nat)
    requires InPalette(m, w, h, n) && n <= COLORS && r < h && c < w && (r > 0 || c > 0)
    ensures |Candidates(m, r, c)| == COLORS && Distinct(Candidates(m, r, c))
    ensures forall v :: v in Candidates(m, r, c)[..n] <==> 0 <= v < n
  {
    NeighboursDistinct(c > 0, r > 0, m(r, c - 1), m(r - 1, c), m(r - 1, c - 1), n);
    OrderIsPermutation(NeighboursAt(m, r, c).list, n);
  }

  /** Two maps decoded from the same symbols agree, diagonal by diagonal. */
  lemma {:induction false} DecodingUnique(syms: seq<nat>, w: nat, h: nat, n: nat, m: IndexMap, m': IndexMap, d: nat)
    requires ValidSymbols(syms, w, h, n) && n <= COLORS && InPalette(m, w, h, n) && InPalette(m', w, h, n)
    requires DecodesTo(syms, w, h, n, m) && DecodesTo(syms, w, h, n, m')
    ensures forall r, c | 0 <= r < h && 0 <= c < w && r + c < d :: m(r, c) == m'(r, c)
  {
    if d > 0 {
      DecodingUnique(syms, w, h, n, m, m', d - 1);
      forall r, c | 0 <= r < h && 0 <= c < w && r + c == d - 1 ensures m(r, c) == m'(r, c) {
        assert PixelDecodes(syms, w, h, n, m, r, c) && PixelDecodes(syms, w, h, n, m', r, c);
        if r > 0 || c > 0 {
          assert NeighboursAt(m, r, c) == NeighboursAt(m', r, c);
        }
      }
    }
  }

  /** The first symbol is the first index itself. */
  lemma FirstSymbolIsIndex(syms: seq<nat>, w: nat, h: nat, n: nat, m: IndexMap)
    requires 0 < w && 0 < h && ValidSymbols(syms, w, h, n) && n <= COLORS && InPalette(m, w, h, n)
    requires DecodesTo(syms, w, h, n, m)
    ensures |syms| > 0 && m(0, 0) == syms[0]
  {
    SymbolInRange(w, h, 0, 0);
    assert SymbolIndex(w, h, 0, 0) == 0;
    assert PixelDecodes(syms, w, h, n, m, 0, 0);
  }

  /** Does the standard put `u` before `v`, given the neighbours of pixel (r, c)? */
  ghost predicate ComesBefore(m: IndexMap, r: nat, c: nat, u: nat, v: nat) {
    Precedes(c > 0, r > 0, m(r, c - 1), m(r - 1, c), m(r - 1, c - 1), u, v)
  }

  ghost function Preceding(m: IndexMap, r: nat, c: nat, v: nat): set<nat> {
    set u: nat | u < COLORS && ComesBefore(m, r, c, u, v)
  }

  /** A symbol says how many indices the standard puts before the decoded one. */
  lemma SymbolIsRank(syms: seq<nat>, w: nat, h: nat, n: nat, m: IndexMap, r: nat, c: nat)
    requires ValidSymbols(syms, w, h, n) && n <= COLORS && InPalette(m, w, h, n) && DecodesTo(syms, w, h, n, m)
    requires r < h && c < w && (r > 0 || c > 0)
    ensures 0 <= SymbolIndex(w, h, r, c) < |syms|
    ensures |Preceding(m, r, c, m(r, c))| == syms[SymbolIndex(w, h, r, c)]
  {
    SymbolInRange(w, h, r, c);
    assert PixelDecodes(syms, w, h, n, m, r, c);
    CandidatesSorted(m, w, h, n, r, c);
    CandidatesValid(m, w, h, n, r, c);
    hide Candidates, InPalette, SymbolIndex, ComesBefore;
    RankInRow(m, r, c, Candidates(m, r, c), syms[SymbolIndex(w, h, r, c)]);
  }

  lemma CandidatesSorted(m: IndexMap, w: nat, h: nat, n: nat, r: nat, c: nat)
    requires InPalette(m, w, h, n) && n <= COLORS && r < h && c < w && (r > 0 || c > 0)
    ensures var row := Candidates(m, r, c);
            && |row| == COLORS && (forall v :: v in row <==> 0 <= v < COLORS)
            && forall i, j | 0 <= i < j < COLORS :: ComesBefore(m, r, c, row[i], row[j])
  {
    OrderIsStandard(c > 0, r > 0, m(r, c - 1), m(r - 1, c), m(r - 1, c - 1));
    NeighboursDistinct(c > 0, r > 0, m(r, c - 1), m(r - 1, c), m(r - 1, c - 1), n);
    OrderIsPermutation(NeighboursAt(m, r, c).list, n);
    hide OrderRow, NeighboursOf, Precedes, Distinct;
  }

  lemma RankInRow(m: IndexMap, r: nat, c: nat, row: seq<nat>, s: nat)
    requires |row| == COLORS && Distinct(row) && (forall v :: v in row <==> 0 <= v < COLORS) && s < COLORS
    requires forall i, j | 0 <= i < j < COLORS :: ComesBefore(m, r, c, row[i], row[j])
    ensures |Preceding(m, r, c, row[s])| == s
  {
    forall u: nat | u < COLORS ensures ComesBefore(m, r, c, u, row[s]) <==> u in row[..s] {
      var j := IndexOf(row, u);
      if j < s {
        assert row[..s][j] == u;
      } else if j > s {
        assert ComesBefore(m, r, c, row[s], u);
      }
    }
    hide ComesBefore;
    assert forall v | v in row[..s] :: v in row;
    SetOfDistinct(row[..s], COLORS);
    assert Preceding(m, r, c, row[s]) == set v | v in row[..s] && v < COLORS;
  }

  function IndexOf(s: seq<nat>, v: nat): (i: nat)
    requires v in s
    ensures i < |s| && s[i] == v
  {
    if s[0] == v then 0 else 1 + IndexOf(s[1..], v)
  }

  /** The symbol that makes pixel (r, c) what it is in `m`. */
  ghost function SymbolFor(m: IndexMap, w: nat, h: nat, n: nat, r: nat, c: nat): (s: nat)
    requires InPalette(m, w, h, n) && n <= COLORS && r < h && c < w
    ensures s < n
  {
    if r == 0 && c == 0 then m(0, 0)
    else
      CandidatesValid(m, w, h, n, r, c);
      IndexOf(Candidates(m, r, c)[..n], m(r, c))
  }

  lemma SymbolForDecodes(m: IndexMap, w: nat, h: nat, n: nat, r: nat, c: nat)
    requires InPalette(m, w, h, n) && n <= COLORS && r < h && c < w && (r > 0 || c > 0)
    ensures |Candidates(m, r, c)| == COLORS
    ensures Candidates(m, r, c)[SymbolFor(m, w, h, n, r, c)] == m(r, c)
  {
    CandidatesValid(m, w, h, n, r, c);
    hide OrderRow, NeighboursAt, Candidates, Distinct;
    var s := Candidates(m, r, c);
    assert s[..n][IndexOf(s[..n], m(r, c))] == m(r, c);
  }

  /** Every map over the palette has a symbol sequence. */
  lemma EncodingExists(m: IndexMap, w: nat, h: nat, n: nat) returns (syms: seq<nat>)
    requires 0 < w && 0 < h && n <= COLORS && InPalette(m, w, h, n)
    ensures ValidSymbols(syms, w, h, n) && DecodesTo(syms, w, h, n, m)
  {
    syms := seq(w * h, p requires 0 <= p < w * h => SymbolFor(m, w, h, n, PixelOf(w, h, p).0, PixelOf(w, h, p).1));
    hide SymbolFor, Candidates, Distinct, InPalette;
    forall r, c | 0 <= r < h && 0 <= c < w ensures PixelDecodes(syms, w, h, n, m, r, c) {
      SymbolInRange(w, h, r, c);
      var p := SymbolIndex(w, h, r, c);
      var rc := PixelOf(w, h, p);
      SymbolIndexInjective(w, h, r, c, rc.0, rc.1);
      assert syms[p] == SymbolFor(m, w, h, n, r, c);
      if r > 0 || c > 0 {
        SymbolForDecodes(m, w, h, n, r, c);
      } else {
        assert SymbolFor(m, w, h, n, 0, 0) == m(0, 0) by { FirstSymbol(m, w, h, n); }
      }
    }
  }

  lemma FirstSymbol(m: IndexMap, w: nat, h: nat, n: nat)
    requires 0 < w && 0 < h && n <= COLORS && InPalette(m, w, h, n)
    ensures SymbolFor(m, w, h, n, 0, 0) == m(0, 0)
  {
  }

  lemma EncodingUnique(syms: seq<nat>, syms': seq<nat>, w: nat, h: nat, n: nat, m: IndexMap)
    requires 0 < w && 0 < h && n <= COLORS && InPalette(m, w, h, n)
    requires ValidSymbols(syms, w, h, n) && ValidSymbols(syms', w, h, n)
    requires DecodesTo(syms, w, h, n, m) && DecodesTo(syms', w, h, n, m)
    ensures syms == syms'
  {
    DiagTotal(w, h);
    forall p | 0 <= p < |syms| ensures syms[p] == syms'[p] {
      var (r, c) := PixelOf(w, h, p);
      assert PixelDecodes(syms, w, h, n, m, r, c) && PixelDecodes(syms', w, h, n, m, r, c);
      if r > 0 || c > 0 {
        CandidatesValid(m, w, h, n, r, c);
      }
    }
  }

  // ----- The decoder -----

  /** What the symbols decode to at row `r` and column `c`. */
  ghost function Decoded(syms: seq<nat>, w: nat, h: nat, n: nat, r: int, c: int): (v: nat)
    requires ValidSymbols(syms, w, h, n) && n <= COLORS && 0 <= r < h && 0 <= c < w
    ensures v < n
    decreases r + c
  {
    SymbolInRange(w, h, r, c);
    var s := syms[SymbolIndex(w, h, r, c)];
    if r == 0 && c == 0 then s
    else
      var l := if c > 0 then Decoded(syms, w, h, n, r, c - 1) else 0;
      var t := if r > 0 then Decoded(syms, w, h, n, r - 1, c) else 0;
      var tl := if r > 0 && c > 0 then Decoded(syms, w, h, n, r - 1, c - 1) else 0;
      NeighboursDistinct(c > 0, r > 0, l, t, tl, n);
      var nb := NeighboursOf(c > 0, r > 0, l, t, tl).list;
      OrderIsPermutation(nb, n);
      assert OrderRow(nb)[..n][s] in OrderRow(nb)[..n];
      OrderRow(nb)[s]
  }

  ghost function DecodedMap(syms: seq<nat>, w: nat, h: nat, n: nat): IndexMap
    requires ValidSymbols(syms, w, h, n) && n <= COLORS
  {
    (r, c) => if 0 <= r < h && 0 <= c < w then Decoded(syms, w, h, n, r, c) else 0
  }

  /** Every symbol sequence decodes to a map over the palette. */
  lemma DecodingExists(syms: seq<nat>, w: nat, h: nat, n: nat)
    requires ValidSymbols(syms, w, h, n) && n <= COLORS
    ensures InPalette(DecodedMap(syms, w, h, n), w, h, n)
    ensures DecodesTo(syms, w, h, n, DecodedMap(syms, w, h, n))
  {
    var m := DecodedMap(syms, w, h, n);
    hide OrderRow, SymbolIndex;
    forall r, c | 0 <= r < h && 0 <= c < w ensures PixelDecodes(syms, w, h, n, m, r, c) {
      var l := if c > 0 then Decoded(syms, w, h, n, r, c - 1) else 0;
      var t := if r > 0 then Decoded(syms, w, h, n, r - 1, c) else 0;
      var tl := if r > 0 && c > 0 then Decoded(syms, w, h, n, r - 1, c - 1) else 0;
      assert NeighboursAt(m, r, c) == NeighboursOf(c > 0, r > 0, l, t, tl);
    }
  }

  /** The bits of `mask` below 8 are the members of `s`. */
  ghost predicate MaskOf(mask: bv32, s: seq<nat>) {
    forall v: nat | v < COLORS :: Bit(mask, v) <==> v in s
  }

  function PowerOf(bit: nat): bv32
    requires bit <= COLORS
  {
    1 << bit
  }

  predicate Bit(mask: bv32, v: nat)
    requires v < COLORS
  {
    Test(mask, PowerOf(v))
  }

  predicate Test(mask: bv32, bit: bv32) { mask & bit != 0 }

  function With(mask: bv32, bit: bv32): bv32 { mask | bit }

  lemma BitOfOr(mask: bv32, v: nat, u: nat)
    requires v < COLORS && u < COLORS
    ensures Bit(With(mask, PowerOf(v)), u) <==> Bit(mask, u) || u == v
  {
    hide PowerOf, Test, With;
    OneBit(v, u);
    TestOr(mask, PowerOf(v), PowerOf(u));
    TestSelf(PowerOf(u));
  }

  lemma TestOr(a: bv32, b: bv32, c: bv32)
    ensures Test(With(a, b), c) <==> Test(a, c) || Test(b, c)
  {
    assert (a | b) & c == (a & c) | (b & c);
  }

  lemma TestSelf(a: bv32)
    ensures Test(a, a) <==> a != 0
  {
  }

  lemma OneBit(v: nat, u: nat)
    requires v < COLORS && u < COLORS
    ensures u != v ==> !Test(PowerOf(v), PowerOf(u)) && PowerOf(v) != PowerOf(u)
    ensures PowerOf(u) != 0
  {
  }

  /** The neighbours of pixel (r, c) in what the symbols decode to. */
  ghost function DecodedNeighbours(syms: seq<nat>, w: nat, h: nat, n: nat, r: nat, c: nat): Neighbours
    requires ValidSymbols(syms, w, h, n) && n <= COLORS && r < h && c < w
  {
    NeighboursOf(c > 0, r > 0,
                 if c > 0 then Decoded(syms, w, h, n, r, c - 1) else 0,
                 if r > 0 then Decoded(syms, w, h, n, r - 1, c) else 0,
                 if r > 0 && c > 0 then Decoded(syms, w, h, n, r - 1, c - 1) else 0)
  }

  lemma DecodedStep(syms: seq<nat>, w: nat, h: nat, n: nat, r: nat, c: nat)
    requires ValidSymbols(syms, w, h, n) && n <= COLORS && r < h && c < w && (r > 0 || c > 0)
    ensures 0 <= SymbolIndex(w, h, r, c) < |syms|
    ensures var row, s := OrderRow(DecodedNeighbours(syms, w, h, n, r, c).list), syms[SymbolIndex(w, h, r, c)];
            |row| == COLORS && s < COLORS && Decoded(syms, w, h, n, r, c) == row[s]
  {
    SymbolInRange(w, h, r, c);
    var l := if c > 0 then Decoded(syms, w, h, n, r, c - 1) else 0;
    var t := if r > 0 then Decoded(syms, w, h, n, r - 1, c) else 0;
    var tl := if r > 0 && c > 0 then Decoded(syms, w, h, n, r - 1, c - 1) else 0;
    NeighboursDistinct(c > 0, r > 0, l, t, tl, n);
    OrderIsPermutation(NeighboursOf(c > 0, r > 0, l, t, tl).list, n);
  }

  /** Where a buffer whose rows are `stride` apart holds the pixel in row `r` and column `c`. */
  function At(stride: nat, r: nat, c: nat): nat { r * stride + c }

  lemma AtInside(stride: nat, h: nat, r: nat, c: nat)
    requires r < h && c < stride
    ensures At(stride, r, c) < h * stride
    ensures r > 0 ==> At(stride, r, c) == At(stride, r - 1, c) + stride
  {
    assert (r + 1) * stride <= h * stride;
  }

  lemma RowsApart(stride: nat, r: nat, r': nat)
    ensures r < r' ==> (r + 1) * stride == r * stride + stride <= r' * stride
  {
    if r < r' {
      var n: nat := r' - r - 1;
      assert n * stride >= 0;
      assert r' * stride == (r + 1 + n) * stride == (r + 1) * stride + n * stride;
    }
  }

  lemma AtInjective(stride: nat, r: nat, c: nat, r': nat, c': nat)
    requires c < stride && c' < stride && At(stride, r, c) == At(stride, r', c')
    ensures r == r' && c == c'
  {
    RowsApart(stride, r, r');
    RowsApart(stride, r', r);
  }

  /** The buffer is large enough for the map. */
  ghost predicate Fits(tmp: array<nat>, stride: nat, w: nat, h: nat) {
    w <= stride && h * stride <= tmp.Length
    && forall r: nat, c: nat | r < h && c < stride :: At(stride, r, c) < tmp.Length
  }

  function NeighboursIn(tmp: array<nat>, stride: nat, w: nat, h: nat, r: nat, c: nat): Neighbours
    requires Fits(tmp, stride, w, h) && r < h && c < w
    reads tmp
  {
    NeighboursOf(c > 0, r > 0, if c > 0 then tmp[At(stride, r, c - 1)] else 0,
                 if r > 0 then tmp[At(stride, r - 1, c)] else 0,
                 if r > 0 && c > 0 then tmp[At(stride, r - 1, c - 1)] else 0)
  }

  /** Row `k` of `order` starts with `s`. */
  ghost predicate RowStarts(order: array2<nat>, k: nat, s: seq<nat>)
    requires k < order.Length0 && order.Length1 == COLORS
    reads order
  {
    |s| <= COLORS && forall i | 0 <= i < |s| :: order[k, i] == s[i]
  }

  /** Appends `v` to the prefix `s` of row `k`. */
  method Put(order: array2<nat>, k: nat, v: nat, ghost s: seq<nat>, o: nat) returns (o': nat)
    requires k < order.Length0 && order.Length1 == COLORS && o == |s| < COLORS && RowStarts(order, k, s)
    modifies order
    ensures o' == |s + [v]| && RowStarts(order, k, s + [v])
    ensures forall i, c | 0 <= i < order.Length0 && 0 <= c < COLORS && i != k :: order[i, c] == old(order[i, c])
  {
    order[k, o] := v;
    o' := o + 1;
  }

  method Add(order: array2<nat>, k: nat, o: nat, mask: bv32, v: nat, ghost s: seq<nat>) returns (o': nat, mask': bv32)
    requires k < order.Length0 && order.Length1 == COLORS && v < COLORS
    requires o == |s| < COLORS && RowStarts(order, k, s) && MaskOf(mask, s)
    modifies order
    ensures o' == |s + [v]| && RowStarts(order, k, s + [v]) && MaskOf(mask', s + [v])
    ensures forall i, c | 0 <= i < order.Length0 && 0 <= c < COLORS && i != k :: order[i, c] == old(order[i, c])
  {
    o' := Put(order, k, v, s, o);
    mask' := With(mask, PowerOf(v));
    forall u: nat | u < COLORS ensures Bit(mask', u) <==> u in s + [v] {
      BitOfOr(mask, v, u);
    }
  }

  lemma Powers(bit: nat)
    requires bit <= COLORS
    ensures PowerOf(0) == 1
    ensures PowerOf(bit) < 0x100 <==> bit < COLORS
    ensures bit < COLORS ==> PowerOf(bit) << 1 == PowerOf(bit + 1)
  {
  }

  lemma MaskTest(mask: bv32, s: seq<nat>, bit: nat)
    requires bit < COLORS && MaskOf(mask, s)
    ensures !Test(mask, PowerOf(bit)) <==> bit !in s
  {
    hide PowerOf, Test;
    assert Bit(mask, bit) <==> bit in s;
  }

  lemma OthersStep(s: seq<nat>, bit: nat)
    requires bit < COLORS && Distinct(s) && forall v | v in s :: v < COLORS
    ensures s + Others(s, bit + 1) == s + Others(s, bit) + if bit in s then [] else [bit]
    ensures |s + Others(s, bit + 1)| <= COLORS
  {
    OrderIsPermutation(s, COLORS);
    OthersPrefix(s, bit + 1, COLORS);
  }

  /** Completes row `k`, which starts with `s`. */
  method FillOthers(order: array2<nat>, k: nat, o: nat, mask: bv32, ghost s: seq<nat>)
    requires k < order.Length0 && order.Length1 == COLORS
    requires Distinct(s) && (forall v | v in s :: v < COLORS)
    requires o == |s| && RowStarts(order, k, s) && MaskOf(mask, s)
    modifies order
    ensures |OrderRow(s)| == COLORS && RowStarts(order, k, OrderRow(s))
    ensures forall i, c | 0 <= i < order.Length0 && 0 <= c < COLORS && i != k :: order[i, c] == old(order[i, c])
  {
    OrderIsPermutation(s, COLORS);
    assert OrderRow(s) == s + Others(s, COLORS) && s + Others(s, 0) == s;
    Powers(COLORS);
    hide MaskOf, PowerOf, Bit, Test, Others, Distinct, OrderRow, RowStarts;
    var m: bv32, bit: nat, o := 1, 0, o;
    while m < 0x100
      invariant bit <= COLORS && m == PowerOf(bit)
      invariant o == |s + Others(s, bit)| <= COLORS && RowStarts(order, k, s + Others(s, bit))
      invariant forall i, c | 0 <= i < order.Length0 && 0 <= c < COLORS && i != k :: order[i, c] == old(order[i, c])
      decreases COLORS - bit
    {
      Powers(bit);
      MaskTest(mask, s, bit);
      OthersStep(s, bit);
      if !Test(mask, m) {
        o := Put(order, k, bit, s + Others(s, bit), o);
      }
      m := m << 1;
      bit := bit + 1;
      Powers(bit);
    }
  }

  /** The row of the ordering for one pixel. */
  method OrderPixel(order: array2<nat>, k: nat, haveLeft: bool, haveTop: bool, l: nat, t: nat, tl: nat)
    returns (ctx: nat)
    requires k < order.Length0 && order.Length1 == COLORS && (haveLeft || haveTop)
    requires haveLeft ==> l < COLORS
    requires haveTop ==> t < COLORS
    requires haveLeft && haveTop ==> tl < COLORS
    modifies order
    ensures ctx == NeighboursOf(haveLeft, haveTop, l, t, tl).ctx
    ensures var row := OrderRow(NeighboursOf(haveLeft, haveTop, l, t, tl).list);
            |row| == COLORS && RowStarts(order, k, row)
    ensures forall i, c | 0 <= i < order.Length0 && 0 <= c < COLORS && i != k :: order[i, c] == old(order[i, c])
  {
    ghost var nb := NeighboursOf(haveLeft, haveTop, l, t, tl).list;
    NeighboursDistinct(haveLeft, haveTop, l, t, tl, COLORS);
    var mask: bv32, o := 0, 0;
    EmptyMask();
    if !haveLeft {
      ctx := 0;
      o, mask := Add(order, k, o, mask, t, []);
    } else if !haveTop {
      ctx := 0;
      o, mask := Add(order, k, o, mask, l, []);
    } else {
      var sameTL, sameTTl, sameLTl := t == l, t == tl, l == tl;
      if sameTL && sameTTl && sameLTl {
        ctx := 4;
        o, mask := Add(order, k, o, mask, t, []);
      } else if sameTL {
        ctx := 3;
        o, mask := Add(order, k, o, mask, t, []);
        o, mask := Add(order, k, o, mask, tl, [t]);
      } else if sameTTl || sameLTl {
        ctx := 2;
        o, mask := Add(order, k, o, mask, tl, []);
        o, mask := Add(order, k, o, mask, if sameTTl then l else t, [tl]);
      } else {
        ctx := 1;
        o, mask := Add(order, k, o, mask, Min(t, l), []);
        o, mask := Add(order, k, o, mask, Max(t, l), [Min(t, l)]);
        o, mask := Add(order, k, o, mask, tl, [Min(t, l), Max(t, l)]);
      }
    }
    FillOthers(order, k, o, mask, nb);
  }

  lemma EmptyMask()
    ensures MaskOf(0, [])
  {
  }

  /** Entry `k` of the ordering and of the contexts is the one for neighbours `nb`. */
  ghost predicate Ordered(order: array2<nat>, ctx: array<nat>, k: nat, nb: Neighbours)
    requires order.Length1 == COLORS && k < order.Length0 && k < ctx.Length
    reads order, ctx
  {
    ctx[k] == nb.ctx && |OrderRow(nb.list)| == COLORS && RowStarts(order, k, OrderRow(nb.list))
  }

  lemma AtStep(stride: nat, r: nat, c: nat)
    ensures c > 0 ==> At(stride, r, c - 1) == At(stride, r, c) - 1
    ensures r > 0 ==> At(stride, r - 1, c) == At(stride, r, c) - stride
    ensures r > 0 && c > 0 ==> At(stride, r - 1, c - 1) == At(stride, r, c) - (stride + 1)
    ensures c > 0 ==> At(stride, r + 1, c - 1) == At(stride, r, c) + stride - 1
  {
  }

  /** The ordering and the context of the pixel at `p`, which is in row `r` and column `j`. */
  method OrderOne(tmp: array<nat>, stride: nat, ghost w: nat, ghost h: nat, p: nat, ghost r: nat, j: nat, haveTop: bool,
                  order: array2<nat>, ctx: array<nat>, k: nat)
    requires Fits(tmp, stride, w, h) && r < h && j < w && haveTop == (r > 0) && (r > 0 || j > 0)
    requires p == At(stride, r, j)
    requires order.Length1 == COLORS && k < order.Length0 && k < ctx.Length && tmp != ctx
    requires forall r': nat, c: nat | r' < h && c < w && r' + c < r + j :: tmp[At(stride, r', c)] < COLORS
    modifies order, ctx
    ensures Ordered(order, ctx, k, NeighboursIn(tmp, stride, w, h, r, j))
    ensures forall i, c | 0 <= i < order.Length0 && 0 <= c < COLORS && i != k :: order[i, c] == old(order[i, c])
    ensures forall i | 0 <= i < ctx.Length && i != k :: ctx[i] == old(ctx[i])
  {
    AtStep(stride, r, j);
    hide At, OrderRow, NeighboursOf;
    var haveLeft := j > 0;
    var t := if haveTop then tmp[p - stride] else 0;
    var l := if haveLeft then tmp[p - 1] else 0;
    var tl := if haveLeft && haveTop then tmp[p - (stride + 1)] else 0;
    var x := OrderPixel(order, k, haveLeft, haveTop, l, t, tl);
    ctx[k] := x;
  }

  /** The neighbours of pixel number `k` of diagonal `i`. */
  function DiagNeighbours(tmp: array<nat>, stride: nat, w: nat, h: nat, i: nat, k: nat): Neighbours
    requires Fits(tmp, stride, w, h) && 0 < w && 0 < h && i < w + h - 1 && k <= First(w, i) - Last(h, i)
    reads tmp
  {
    NeighboursIn(tmp, stride, w, h, i - First(w, i) + k, First(w, i) - k)
  }

  /** The orderings and contexts of diagonal `i`, whose column `first - k` has number `k`. */
  method OrderPalette(tmp: array<nat>, stride: nat, ghost w: nat, ghost h: nat, i: nat, first: int, last: int,
                      order: array2<nat>, ctx: array<nat>)
    requires 0 < w && 0 < h && Fits(tmp, stride, w, h) && 0 < i < w + h - 1
    requires first == First(w, i) && last == Last(h, i)
    requires first - last < order.Length0 && order.Length1 == COLORS && first - last < ctx.Length && tmp != ctx
    requires forall r: nat, c: nat | r < h && c < w && r + c < i :: tmp[At(stride, r, c)] < COLORS
    modifies order, ctx
    ensures forall k: nat | k <= first - last ::
              Ordered(order, ctx, k, DiagNeighbours(tmp, stride, w, h, i, k))
  {
    var haveTop := i > first;
    var p, j, k := first + (i - first) * stride, first, 0;
    assert p == At(stride, i - j, j);
    while j >= last
      invariant last - 1 <= j <= first && k == first - j && (j >= last ==> haveTop == (i > j))
      invariant j >= last ==> p == At(stride, i - j, j)
      invariant forall k': nat | k' < k && k' <= first - last ::
                  Ordered(order, ctx, k', DiagNeighbours(tmp, stride, w, h, i, k'))
    {
      AtStep(stride, i - j, j);
      hide At, OrderRow, NeighboursIn;
      OrderOne(tmp, stride, w, h, p, i - j, j, haveTop, order, ctx, k);
      assert Ordered(order, ctx, k, DiagNeighbours(tmp, stride, w, h, i, k));
      haveTop, j, k, p := true, j - 1, k + 1, p + stride - 1;
    }
  }

  /** Cell (r, c) of the map holds what the symbols decode to. */
  ghost predicate CellDecoded(tmp: array<nat>, stride: nat, syms: seq<nat>, w: nat, h: nat, n: nat, r: nat, c: nat)
    requires ValidSymbols(syms, w, h, n) && n <= COLORS && Fits(tmp, stride, w, h) && r < h && c < w
    reads tmp
  {
    tmp[At(stride, r, c)] == Decoded(syms, w, h, n, r, c)
  }

  /** The cells of the diagonals before `i` are decoded, and those of diagonal `i` right of column `j`. */
  ghost predicate DecodedUpTo(tmp: array<nat>, stride: nat, syms: seq<nat>, w: nat, h: nat, n: nat, i: nat, j: int)
    requires ValidSymbols(syms, w, h, n) && n <= COLORS && Fits(tmp, stride, w, h)
    reads tmp
  {
    forall r: nat, c: nat | r < h && c < w && (r + c < i || (r + c == i && c > j)) ::
      CellDecoded(tmp, stride, syms, w, h, n, r, c)
  }

  /** What is outside the map is as it was in `was`. */
  ghost predicate OutsideKept(tmp: array<nat>, was: seq<nat>, stride: nat, w: nat, h: nat)
    requires |was| == tmp.Length && Fits(tmp, stride, w, h)
    reads tmp
  {
    forall k | 0 <= k < tmp.Length ::
      tmp[k] == was[k] || exists r: nat, c: nat :: r < h && c < w && k == At(stride, r, c)
  }

  method WriteCell(tmp: array<nat>, stride: nat, ghost syms: seq<nat>, ghost w: nat, ghost h: nat, ghost n: nat,
                   i: nat, j: nat, v: nat, ghost was: seq<nat>)
    requires ValidSymbols(syms, w, h, n) && n <= COLORS && Fits(tmp, stride, w, h) && |was| == tmp.Length
    requires j <= i && i - j < h && j < w && v == Decoded(syms, w, h, n, i - j, j)
    requires DecodedUpTo(tmp, stride, syms, w, h, n, i, j) && OutsideKept(tmp, was, stride, w, h)
    modifies tmp
    ensures DecodedUpTo(tmp, stride, syms, w, h, n, i, j - 1) && OutsideKept(tmp, was, stride, w, h)
  {
    AtInside(stride, h, i - j, j);
    label before:
    tmp[(i - j) * stride + j] := v;
    forall r: nat, c: nat | r < h && c < w && (r + c < i || (r + c == i && c > j - 1))
      ensures CellDecoded(tmp, stride, syms, w, h, n, r, c)
    {
      if r != i - j || c != j {
        assert old@before(CellDecoded(tmp, stride, syms, w, h, n, r, c));
        if At(stride, r, c) == At(stride, i - j, j) {
          AtInjective(stride, r, c, i - j, j);
        }
      }
    }
  }

  /** Decodes a map of 4 * w4 by 4 * h4 visible pixels into rows of 4 * bw4. `pos` counts the symbols. */
  method ReadPalIndices(tmp: array<nat>, syms: seq<nat>, w4: nat, h4: nat, bw4: nat, n: nat,
                        order: array2<nat>, ctx: array<nat>) returns (pos: nat)
    requires 0 < w4 <= bw4 && 0 < h4 && n <= COLORS && ValidSymbols(syms, 4 * w4, 4 * h4, n)
    requires Fits(tmp, 4 * bw4, 4 * w4, 4 * h4)
    requires 4 * w4 <= order.Length0 && order.Length1 == COLORS && 4 * w4 <= ctx.Length && tmp != ctx
    modifies tmp, order, ctx
    ensures pos == |syms|
    ensures forall r: nat, c: nat | r < 4 * h4 && c < 4 * w4 ::
              CellDecoded(tmp, 4 * bw4, syms, 4 * w4, 4 * h4, n, r, c)
    ensures OutsideKept(tmp, old(tmp[..]), 4 * bw4, 4 * w4, 4 * h4)
  {
    var stride := bw4 * 4;
    ghost var w, h, was := 4 * w4, 4 * h4, tmp[..];
    DiagTotal(w, h);
    SymbolInRange(w, h, 0, 0);
    WriteCell(tmp, stride, syms, w, h, n, 0, 0, syms[0], was);
    pos := 1;
    var i := 1;
    while i < 4 * (w4 + h4) - 1
      invariant 1 <= i <= w + h - 1 && pos == DiagStart(w, h, i)
      invariant DecodedUpTo(tmp, stride, syms, w, h, n, i, i) && OutsideKept(tmp, was, stride, w, h)
    {
      var first := Min(i, w4 * 4 - 1);
      var last := Max(0, i - h4 * 4 + 1);
      pos := ReadDiagonal(tmp, stride, syms, w, h, n, i, first, last, order, ctx, pos, was);
      i := i + 1;
    }
  }

  /** The neighbours of pixel number `k` of diagonal `i`, as decoded. */
  ghost function DecodedAround(syms: seq<nat>, w: nat, h: nat, n: nat, i: nat, k: nat): Neighbours
    requires 0 < w && 0 < h && ValidSymbols(syms, w, h, n) && n <= COLORS
    requires i < w + h - 1 && k <= First(w, i) - Last(h, i)
  {
    DecodedNeighbours(syms, w, h, n, i - First(w, i) + k, First(w, i) - k)
  }

  /** The orderings and contexts of diagonal `i` are those of its pixels. */
  ghost predicate DiagOrdered(order: array2<nat>, ctx: array<nat>, syms: seq<nat>, w: nat, h: nat, n: nat, i: nat)
    requires 0 < w && 0 < h && ValidSymbols(syms, w, h, n) && n <= COLORS && i < w + h - 1
    requires First(w, i) - Last(h, i) < order.Length0 && order.Length1 == COLORS
             && First(w, i) - Last(h, i) < ctx.Length
    reads order, ctx
  {
    forall k: nat | k <= First(w, i) - Last(h, i) ::
      Ordered(order, ctx, k, DecodedAround(syms, w, h, n, i, k))
  }

  lemma CellInPalette(tmp: array<nat>, stride: nat, syms: seq<nat>, w: nat, h: nat, n: nat, r: nat, c: nat)
    requires ValidSymbols(syms, w, h, n) && n <= COLORS && Fits(tmp, stride, w, h) && r < h && c < w
    requires CellDecoded(tmp, stride, syms, w, h, n, r, c)
    ensures tmp[At(stride, r, c)] < COLORS
  {
  }

  method OrderDiagonal(tmp: array<nat>, stride: nat, ghost syms: seq<nat>, ghost w: nat, ghost h: nat, ghost n: nat,
                       i: nat, first: int, last: int, order: array2<nat>, ctx: array<nat>, ghost was: seq<nat>)
    requires 0 < w && 0 < h && ValidSymbols(syms, w, h, n) && n <= COLORS && Fits(tmp, stride, w, h)
    requires |was| == tmp.Length && 0 < i < w + h - 1 && first == First(w, i) && last == Last(h, i)
    requires first - last < order.Length0 && order.Length1 == COLORS && first - last < ctx.Length && tmp != ctx
    requires DecodedUpTo(tmp, stride, syms, w, h, n, i, i) && OutsideKept(tmp, was, stride, w, h)
    modifies order, ctx
    ensures DiagOrdered(order, ctx, syms, w, h, n, i)
    ensures DecodedUpTo(tmp, stride, syms, w, h, n, i, i) && OutsideKept(tmp, was, stride, w, h)
  {
    hide At, Decoded, ValidSymbols, OutsideKept, Ordered;
    forall r: nat, c: nat | r < h && c < w && r + c < i ensures tmp[At(stride, r, c)] < COLORS {
      CellInPalette(tmp, stride, syms, w, h, n, r, c);
    }
    OrderPalette(tmp, stride, w, h, i, first, last, order, ctx);
    hide CellDecoded, DecodedUpTo, Fits, NeighboursIn;
    forall k: nat | k <= first - last
      ensures Ordered(order, ctx, k, DecodedAround(syms, w, h, n, i, k))
    {
      assert Ordered(order, ctx, k, DiagNeighbours(tmp, stride, w, h, i, k));
      NeighboursAreDecoded(tmp, stride, syms, w, h, n, i - first + k, first - k);
    }
  }

  /** What symbol `s` selects for pixel number `k` of diagonal `i`. */
  lemma Selected(order: array2<nat>, ctx: array<nat>, syms: seq<nat>, w: nat, h: nat, n: nat, i: nat, k: nat)
    requires 0 < w && 0 < h && ValidSymbols(syms, w, h, n) && n <= COLORS && 0 < i < w + h - 1
    requires First(w, i) - Last(h, i) < order.Length0 && order.Length1 == COLORS
             && First(w, i) - Last(h, i) < ctx.Length
    requires DiagOrdered(order, ctx, syms, w, h, n, i) && k <= First(w, i) - Last(h, i)
    ensures var p := DiagStart(w, h, i) + k;
            0 <= p < |syms| && syms[p] < COLORS
            && order[k, syms[p]] == Decoded(syms, w, h, n, i - First(w, i) + k, First(w, i) - k)
  {
    hide OrderRow, Decoded, DecodedNeighbours, DiagStart, ValidSymbols;
    assert Ordered(order, ctx, k, DecodedAround(syms, w, h, n, i, k));
    DecodedStep(syms, w, h, n, i - First(w, i) + k, First(w, i) - k);
  }

  /** One diagonal: orderings first, then the symbols. */
  method ReadDiagonal(tmp: array<nat>, stride: nat, syms: seq<nat>, ghost w: nat, ghost h: nat, n: nat, i: nat,
                      first: int, last: int, order: array2<nat>, ctx: array<nat>, pos: nat, ghost was: seq<nat>)
    returns (pos': nat)
    requires 0 < w && 0 < h && ValidSymbols(syms, w, h, n) && n <= COLORS && Fits(tmp, stride, w, h)
    requires |was| == tmp.Length && 0 < i < w + h - 1 && first == First(w, i) && last == Last(h, i)
    requires first - last < order.Length0 && order.Length1 == COLORS && first - last < ctx.Length && tmp != ctx
    requires DecodedUpTo(tmp, stride, syms, w, h, n, i, i) && OutsideKept(tmp, was, stride, w, h)
    requires pos == DiagStart(w, h, i)
    modifies tmp, order, ctx
    ensures pos' == DiagStart(w, h, i + 1)
    ensures DecodedUpTo(tmp, stride, syms, w, h, n, i + 1, i + 1) && OutsideKept(tmp, was, stride, w, h)
  {
    OrderDiagonal(tmp, stride, syms, w, h, n, i, first, last, order, ctx, was);
    pos' := pos;
    var j, m := first, 0;
    assert DiagStart(w, h, i + 1) == pos + first - last + 1;
    hide DecodedUpTo, OutsideKept, DiagOrdered, ValidSymbols, Fits, DiagStart;
    while j >= last
      invariant last - 1 <= j <= first && m == first - j && pos' == pos + m
      invariant DiagOrdered(order, ctx, syms, w, h, n, i)
      invariant DecodedUpTo(tmp, stride, syms, w, h, n, i, j) && OutsideKept(tmp, was, stride, w, h)
    {
      ReadPixel(tmp, stride, syms, w, h, n, i, j, order, ctx, m, pos', was);
      pos' := pos' + 1;
      j, m := j - 1, m + 1;
    }
    DiagonalDone(tmp, stride, syms, w, h, n, i, j);
  }

  /** The pixel in column `j` of diagonal `i`, which has number `m` there. */
  method ReadPixel(tmp: array<nat>, stride: nat, syms: seq<nat>, ghost w: nat, ghost h: nat, ghost n: nat, i: nat,
                   j: nat, order: array2<nat>, ghost ctx: array<nat>, m: nat, pos: nat, ghost was: seq<nat>)
    requires 0 < w && 0 < h && ValidSymbols(syms, w, h, n) && n <= COLORS && Fits(tmp, stride, w, h)
    requires |was| == tmp.Length && 0 < i < w + h - 1 && tmp != ctx && order.Length1 == COLORS
    requires First(w, i) - Last(h, i) < order.Length0 && First(w, i) - Last(h, i) < ctx.Length
    requires DiagOrdered(order, ctx, syms, w, h, n, i)
    requires DecodedUpTo(tmp, stride, syms, w, h, n, i, j) && OutsideKept(tmp, was, stride, w, h)
    requires j == First(w, i) - m && m <= First(w, i) - Last(h, i) && pos == DiagStart(w, h, i) + m
    modifies tmp
    ensures DecodedUpTo(tmp, stride, syms, w, h, n, i, j - 1) && OutsideKept(tmp, was, stride, w, h)
  {
    hide DecodedUpTo, OutsideKept, DiagOrdered, Decoded, ValidSymbols, Fits, DiagStart;
    Selected(order, ctx, syms, w, h, n, i, m);
    var colorIdx := syms[pos];
    WriteCell(tmp, stride, syms, w, h, n, i, j, order[m, colorIdx], was);
  }

  lemma DiagonalDone(tmp: array<nat>, stride: nat, syms: seq<nat>, w: nat, h: nat, n: nat, i: nat, j: int)
    requires ValidSymbols(syms, w, h, n) && n <= COLORS && Fits(tmp, stride, w, h)
    requires DecodedUpTo(tmp, stride, syms, w, h, n, i, j) && j == Last(h, i) - 1
    ensures DecodedUpTo(tmp, stride, syms, w, h, n, i + 1, i + 1)
  {
  }

  lemma NeighboursAreDecoded(tmp: array<nat>, stride: nat, syms: seq<nat>, w: nat, h: nat, n: nat, r: nat, c: nat)
    requires ValidSymbols(syms, w, h, n) && n <= COLORS && Fits(tmp, stride, w, h) && r < h && c < w
    requires DecodedUpTo(tmp, stride, syms, w, h, n, r + c, r + c)
    ensures NeighboursIn(tmp, stride, w, h, r, c) == DecodedNeighbours(syms, w, h, n, r, c)
  {
    assert c > 0 ==> CellDecoded(tmp, stride, syms, w, h, n, r, c - 1);
    assert r > 0 ==> CellDecoded(tmp, stride, syms, w, h, n, r - 1, c);
    assert r > 0 && c > 0 ==> CellDecoded(tmp, stride, syms, w, h, n, r - 1, c - 1);
  }
}
