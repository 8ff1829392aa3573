/** Codes for single values: the segment id, coded by its distance from a prediction, and the parts of a
    motion vector difference. */
module ValueCodes {
  import opened IntOps

  // ----- Segment ids -----

  /** Codes 0, 1, 2, ... stand for `ref`, then its neighbours, the upper one first, then what is left on
      the longer side. */
  function NegDeinterleave(diff: nat, ref: nat, max: nat): int {
    if ref == 0 then diff
    else if ref >= max - 1 then max - diff - 1
    else if 2 * ref < max then
      if diff <= 2 * ref then
        if diff % 2 == 1 then ref + (diff + 1) / 2 else ref - diff / 2
      else diff
    else
      if diff <= 2 * (max - ref - 1) then
        if diff % 2 == 1 then ref + (diff + 1) / 2 else ref - diff / 2
      else max - (diff + 1)
  }

  /** The code of `v`. */
  function NegInterleave(v: nat, ref: nat, max: nat): int {
    var near := if 2 * ref < max then ref else max - ref - 1;
    if ref == 0 then v
    else if ref >= max - 1 then max - v - 1
    else if Abs(v - ref) <= near then if v > ref then 2 * (v - ref) - 1 else 2 * (ref - v)
    else if 2 * ref < max then v
    else max - v - 1
  }

  /** For every prediction, codes and values below `max` correspond one to one. */
  lemma SegIdCodeIsBijection(n: nat, ref: nat, max: nat)
    requires n < max
    ensures 0 <= NegDeinterleave(n, ref, max) < max && 0 <= NegInterleave(n, ref, max) < max
    ensures NegInterleave(NegDeinterleave(n, ref, max), ref, max) == n
    ensures NegDeinterleave(NegInterleave(n, ref, max), ref, max) == n
  {
  }

  /** Smaller codes are never further from the prediction. */
  lemma SmallerCodesAreNearer(d: nat, e: nat, ref: nat, max: nat)
    requires d <= e < max && ref < max
    ensures Abs(NegDeinterleave(d, ref, max) - ref) <= Abs(NegDeinterleave(e, ref, max) - ref)
  {
  }

  /** Of two values equally far from the prediction, the upper one has the smaller code, by one; the
      prediction itself has the smallest of all. */
  lemma UpperComesFirst(k: nat, ref: nat, max: nat)
    requires ref + k < max && k <= ref
    ensures NegInterleave(ref, ref, max) == 0
    ensures k > 0 ==> NegInterleave(ref - k, ref, max) == NegInterleave(ref + k, ref, max) + 1
  {
  }

  /** A negative value becomes a large one when it is stored in eight bits. */
  function AsByte(v: int): (b: nat)
    ensures b < 256 && (b - v) % 256 == 0
  {
    v % 256
  }

  /** The segment id that is kept for a symbol: an id above the last active one becomes 0. */
  function KeptSegId(diff: nat, pred: nat, lastActive: nat): nat {
    var id := AsByte(NegDeinterleave(diff, pred, lastActive + 1));
    if id > lastActive then 0 else id
  }

  /** A symbol up to the last active id is decoded; any other symbol, and no other, gives an id that is not
      active, and 0 is kept for it. */
  lemma KeptSegIdIsActive(diff: nat, pred: nat, lastActive: nat)
    requires diff < 8 && pred < 8 && lastActive < 8
    ensures KeptSegId(diff, pred, lastActive) <= lastActive
    ensures KeptSegId(diff, pred, lastActive)
         == if diff <= lastActive then NegDeinterleave(diff, pred, lastActive + 1) else 0
    ensures diff > lastActive <==> AsByte(NegDeinterleave(diff, pred, lastActive + 1)) > lastActive
  {
  }

  // ----- Motion vector differences -----

  /** The symbols of one component: its class, the integer bits of the class (class 0 has one bit), the
      fraction and the high-precision bit. */
  datatype Code = Code(sign: bool, cl: nat, bits: seq<bool>, fp: nat, hp: nat) {
    /** Fraction symbols that are not coded at a precision have their largest value. */
    ghost predicate Valid(prec: int) {
      && cl <= 10 && |bits| == (if cl == 0 then 1 else cl) && fp < 4 && hp < 2
      && (prec < 0 ==> fp == 3) && (prec <= 0 ==> hp == 1)
    }
  }

  function Num(bits: seq<bool>): nat {
    if bits == [] then 0 else Num(bits[..|bits| - 1]) + if bits[|bits| - 1] then Pow2(|bits| - 1) else 0
  }

  function BitsOf(n: nat, k: nat): (bits: seq<bool>)
    ensures |bits| == k
  {
    if k == 0 then []
    else if n >= Pow2(k - 1) then BitsOf(n - Pow2(k - 1), k - 1) + [true] else BitsOf(n, k - 1) + [false]
  }

  lemma {:induction false} NumOfBits(n: nat, k: nat)
    requires n < Pow2(k)
    ensures Num(BitsOf(n, k)) == n
  {
    if k > 0 {
      var top := n >= Pow2(k - 1);
      NumOfBits(if top then n - Pow2(k - 1) else n, k - 1);
      var b := BitsOf(n, k);
      assert b[..k - 1] == BitsOf(if top then n - Pow2(k - 1) else n, k - 1);
    }
  }

  lemma {:induction false} BitsOfNum(bits: seq<bool>)
    ensures Num(bits) < Pow2(|bits|)
    ensures BitsOf(Num(bits), |bits|) == bits
  {
    if bits != [] {
      var k := |bits| - 1;
      BitsOfNum(bits[..k]);
      assert bits == bits[..k] + [bits[k]];
    }
  }

  /** Bit `n` of the symbols, the first being bit 0, weighs 2^n. */
  lemma {:induction false} BitWeighs(bits: seq<bool>, n: nat)
    requires n < |bits|
    ensures Num(bits[n := true]) == Num(bits[n := false]) + Pow2(n)
  {
    var k := |bits| - 1;
    var up, down := bits[n := true], bits[n := false];
    if n < k {
      BitWeighs(bits[..k], n);
      assert up[..k] == bits[..k][n := true] && down[..k] == bits[..k][n := false];
    } else {
      assert up[..k] == bits[..k] == down[..k];
    }
  }

  lemma {:induction false} NoBits(k: nat)
    ensures Num(seq(k, _ => false)) == 0
  {
    if k > 0 {
      NoBits(k - 1);
      assert seq(k, _ => false)[..k - 1] == seq(k - 1, _ => false);
    }
  }

  function UpOf(cl: nat, bits: seq<bool>): nat { if cl == 0 then Num(bits) else Pow2(cl) + Num(bits) }

  function ClassOf(up: nat): nat { if up < 2 then 0 else Log2(up) }

  function ClassBits(up: nat): seq<bool> {
    if up < 2 then BitsOf(up, 1)
    else
      Log2Bounds(up);
      BitsOf(up - Pow2(Log2(up)), Log2(up))
  }

  /** The difference that a code stands for. */
  function Diff(c: Code): int {
    var diff := 8 * UpOf(c.cl, c.bits) + 2 * c.fp + c.hp + 1;
    if c.sign then -diff else diff
  }

  /** The sign symbol says that the difference is negative. Every class begins where the one below ends, at
      16 times a power of two; each bit adds twice what the one before adds, the first one a whole pixel. */
  lemma DiffGrows(c: Code, prec: int, n: nat)
    requires c.Valid(prec) && n < |c.bits|
    ensures Diff(c) < 0 <==> c.sign
    ensures if c.cl == 0 then Abs(Diff(c)) <= 16 else 8 * Pow2(c.cl) < Abs(Diff(c)) <= 16 * Pow2(c.cl)
    ensures Abs(Diff(c.(bits := c.bits[n := true]))) == Abs(Diff(c.(bits := c.bits[n := false]))) + 8 * Pow2(n)
    ensures Abs(Diff(c)) - Abs(Diff(c.(fp := 0, hp := 0))) == 2 * c.fp + c.hp
  {
    hide Num, BitsOf, Pow2, Diff, UpOf;
    var c0, c1 := c.(bits := c.bits[n := false]), c.(bits := c.bits[n := true]);
    AbsDiff(c);
    AbsDiff(c0);
    AbsDiff(c1);
    AbsDiff(c.(fp := 0, hp := 0));
    UpGrows(c.cl, c.bits, n);
  }

  lemma AbsDiff(c: Code)
    ensures Abs(Diff(c)) == 8 * UpOf(c.cl, c.bits) + 2 * c.fp + c.hp + 1
    ensures Diff(c) < 0 <==> c.sign
  {
    hide UpOf;
  }

  lemma UpGrows(cl: nat, bits: seq<bool>, n: nat)
    requires |bits| == (if cl == 0 then 1 else cl) && n < |bits|
    ensures UpOf(cl, bits[n := true]) == UpOf(cl, bits[n := false]) + Pow2(n)
    ensures if cl == 0 then UpOf(cl, bits) < 2 else Pow2(cl) <= UpOf(cl, bits) < 2 * Pow2(cl)
  {
    BitWeighs(bits, n);
    BitsOfNum(bits);
    Powers();
    hide Num, BitsOf, Pow2;
  }

  /** The code of a difference. */
  function CodeOf(v: int): Code {
    var m: nat := if v == 0 then 0 else Abs(v) - 1;
    Code(v < 0, ClassOf(Up(m)), ClassBits(Up(m)), Fp(m), Hp(m))
  }

  /** The parts of a magnitude less one. */
  function Up(m: nat): nat { m / 8 }
  function Fp(m: nat): nat { m / 2 % 4 }
  function Hp(m: nat): nat { m % 2 }

  /** Whole pixels at the lowest precision, quarters at the next, eighths at the highest. */
  predicate OnGrid(v: int, prec: int) {
    if prec < 0 then v % 8 == 0 else prec == 0 ==> v % 2 == 0
  }

  /** The differences a precision can express. */
  ghost predicate Expressible(v: int, prec: int) {
    v != 0 && -16384 <= v <= 16384 && OnGrid(v, prec)
  }

  /** The class is the position of the leading one of the integer part. */
  lemma PartsThenUp(cl: nat, bits: seq<bool>)
    requires cl <= 10 && |bits| == if cl == 0 then 1 else cl
    ensures UpOf(cl, bits) < 2048 && ClassOf(UpOf(cl, bits)) == cl && ClassBits(UpOf(cl, bits)) == bits
  {
    BitsOfNum(bits);
    Powers();
    hide Pow2, Num, BitsOf, Log2;
    if cl > 0 {
      Log2Unique(Pow2(cl) + Num(bits), cl);
      Pow2Monotonic(1, cl);
      Pow2Monotonic(cl, 10);
    }
  }

  lemma Powers()
    ensures Pow2(0) == 1 && Pow2(1) == 2 && Pow2(10) == 1024 && Pow2(11) == 2048
  {
  }

  lemma UpThenParts(up: nat)
    requires up < 2048
    ensures var cl, bits := ClassOf(up), ClassBits(up);
            cl <= 10 && |bits| == (if cl == 0 then 1 else cl) && UpOf(cl, bits) == up
  {
    Powers();
    hide Pow2, Num, BitsOf, Log2;
    if up < 2 {
      NumOfBits(up, 1);
      assert ClassBits(up) == BitsOf(up, 1);
    } else {
      LargeUp(up, Log2(up));
    }
  }

  lemma LargeUp(up: nat, cl: nat)
    requires 2 <= up < 2048 && cl == Log2(up)
    ensures 0 < cl <= 10 && |ClassBits(up)| == cl && UpOf(cl, ClassBits(up)) == up
  {
    Powers();
    hide Pow2, Num, BitsOf, Log2;
    Log2Bounds(up);
    Pow2Less(10, cl);
    NumOfBits(up - Pow2(cl), cl);
    assert ClassBits(up) == BitsOf(up - Pow2(cl), cl);
  }

  lemma Digits(up: nat, fp: nat, hp: nat)
    requires fp < 4 && hp < 2
    ensures var m := 8 * up + 2 * fp + hp; Up(m) == up && Fp(m) == fp && Hp(m) == hp
  {
    var m := 8 * up + 2 * fp + hp;
    assert m / 2 == 4 * up + fp;
  }

  lemma DigitsOf(m: nat)
    ensures m == 8 * Up(m) + 2 * Fp(m) + Hp(m) && Fp(m) < 4 && Hp(m) < 2
  {
    var q := m / 2;
    assert m == 2 * q + Hp(m) && q == 4 * (q / 4) + Fp(m);
  }

  /** The precisions leave out the codes in which a symbol that is not coded would not be the largest. */
  lemma Granularity(m: nat, up: nat, fp: nat, hp: nat, prec: int)
    requires m == 8 * up + 2 * fp + hp && fp < 4 && hp < 2
    ensures OnGrid(m + 1, prec) <==> (prec < 0 ==> fp == 3) && (prec <= 0 ==> hp == 1)
    ensures OnGrid(-(m + 1), prec) <==> OnGrid(m + 1, prec)
  {
    var r := 2 * fp + hp + 1;
    var n := 8 * up + r;
    if prec < 0 {
      Remainder8(up, r);
      Remainder8(-1 - up, 8 - r);
      assert -n == 8 * (-1 - up) + (8 - r);
    } else if prec == 0 {
      Remainder2(4 * up + fp, hp + 1);
      Remainder2(-(4 * up + fp) - 1, 1 - hp);
      assert -n == 2 * (-(4 * up + fp) - 1) + (1 - hp);
    }
  }

  lemma Remainder8(q: int, r: nat)
    requires r <= 8
    ensures (8 * q + r) % 8 == if r == 8 then 0 else r
  {
  }

  lemma Remainder2(q: int, r: nat)
    requires r <= 2
    ensures (2 * q + r) % 2 == if r == 2 then 0 else r
  {
  }

  /** The code of a magnitude less one with a sign. */
  lemma CodeOfParts(m: nat, sign: bool)
    ensures CodeOf(if sign then -(m + 1) else m + 1) == Code(sign, ClassOf(Up(m)), ClassBits(Up(m)), Fp(m), Hp(m))
  {
  }

  lemma DiffOnGrid(up: nat, fp: nat, hp: nat, sign: bool, prec: int)
    requires up < 2048 && fp < 4 && hp < 2 && (prec < 0 ==> fp == 3) && (prec <= 0 ==> hp == 1)
    ensures var n := 8 * up + 2 * fp + hp + 1; Expressible(if sign then -n else n, prec)
  {
    Granularity(8 * up + 2 * fp + hp, up, fp, hp, prec);
    hide OnGrid;
  }

  /** Every code stands for an expressible difference, and no other code stands for it. */
  lemma DiffThenCode(c: Code, prec: int)
    requires c.Valid(prec)
    ensures Expressible(Diff(c), prec)
    ensures CodeOf(Diff(c)) == c
  {
    hide UpOf, ClassOf, ClassBits, OnGrid, Up, Fp, Hp, CodeOf, Expressible, Num, BitsOf, Pow2, Log2;
    PartsThenUp(c.cl, c.bits);
    var up := UpOf(c.cl, c.bits);
    Digits(up, c.fp, c.hp);
    DiffOnGrid(up, c.fp, c.hp, c.sign, prec);
    CodeOfParts(8 * up + 2 * c.fp + c.hp, c.sign);
  }

  /** Every expressible difference has a code. */
  lemma CodeThenDiff(v: int, prec: int)
    requires Expressible(v, prec)
    ensures CodeOf(v).Valid(prec)
    ensures Diff(CodeOf(v)) == v
  {
    hide UpOf, ClassOf, ClassBits, OnGrid, Up, Fp, Hp;
    var m: nat := Abs(v) - 1;
    DigitsOf(m);
    Granularity(m, Up(m), Fp(m), Hp(m), prec);
    UpThenParts(Up(m));
  }

  lemma OneBit(bits: seq<bool>)
    requires |bits| == 1
    ensures Num(bits) == if bits[0] then 1 else 0
  {
    assert bits[..0] == [] && Pow2(0) == 1;
  }

  /** Reads one component, taking the bits of the class one by one. */
  method ReadMvComponentDiff(c: Code, prec: int) returns (diff: int)
    requires c.Valid(prec)
    ensures diff == Diff(c)
  {
    var up, fp, hp := 0, 3, 1;
    if c.cl == 0 {
      up := if c.bits[0] then 1 else 0;
    } else {
      up := Pow2(c.cl);
      for n := 0 to c.cl
        invariant up == Pow2(c.cl) + Num(c.bits[..n])
      {
        assert c.bits[..n + 1][..n] == c.bits[..n];
        up := up + if c.bits[n] then Pow2(n) else 0;
      }
      assert c.bits[..c.cl] == c.bits;
    }
    assert c.cl == 0 ==> Num(c.bits) == up by {
      if c.cl == 0 { OneBit(c.bits); }
    }
    if prec >= 0 {
      fp := c.fp;
      if prec > 0 {
        hp := c.hp;
      }
    }
    diff := 8 * up + 2 * fp + hp + 1;
    if c.sign {
      diff := -diff;
    }
  }
}
