/** How the tiles of a frame are cut out of its tile groups: every tile but the last of its group is
    preceded by its size less one, in little-endian order. */
module TileParser {
  import opened IntOps
  import opened Options

  // ----- Sizes -----

  function Pow256(n: nat): (p: nat)
    ensures p > 0
  {
    if n == 0 then 1 else 256 * Pow256(n - 1)
  }

  function LeValue(s: seq<byte>): nat { if s == [] then 0 else s[0] + 256 * LeValue(s[1..]) }

  function LeBytes(v: nat, n: nat): (s: seq<byte>)
    ensures |s| == n
  {
    if n == 0 then [] else [v % 256] + LeBytes(v / 256, n - 1)
  }

  lemma {:induction false} ValueOfBytes(v: nat, n: nat)
    requires v < Pow256(n)
    ensures LeValue(LeBytes(v, n)) == v
  {
    if n > 0 {
      ValueOfBytes(v / 256, n - 1);
      assert LeBytes(v, n)[1..] == LeBytes(v / 256, n - 1);
    }
  }

  lemma {:induction false} BytesOfValue(s: seq<byte>)
    ensures LeValue(s) < Pow256(|s|)
    ensures LeBytes(LeValue(s), |s|) == s
  {
    if s != [] {
      var rest := s[1..];
      BytesOfValue(rest);
      var v := LeValue(rest);
      assert LeValue(s) == s[0] + 256 * v && LeValue(s) % 256 == s[0] && LeValue(s) / 256 == v;
      hide LeValue;
      assert s == [s[0]] + rest;
    }
  }

  lemma {:induction false} ValueAppend(s: seq<byte>, b: byte)
    ensures LeValue(s + [b]) == LeValue(s) + b * Pow256(|s|)
  {
    if s == [] {
      assert LeValue([b]) == b + 256 * LeValue([]);
    } else {
      ValueAppend(s[1..], b);
      assert (s + [b])[1..] == s[1..] + [b];
      Regroup(s[0], LeValue(s[1..]), b, Pow256(|s| - 1));
    }
  }

  lemma Regroup(a: nat, v: nat, b: nat, p: nat)
    ensures a + 256 * (v + b * p) == a + 256 * v + b * (256 * p)
  {
  }

  // ----- One tile group -----

  /** Payloads that can be written with sizes of `n` bytes. */
  ghost predicate Packable(tiles: seq<seq<byte>>, n: nat) {
    |tiles| > 0 && forall i | 0 <= i < |tiles| - 1 :: 1 <= |tiles[i]| <= Pow256(n)
  }

  function Pack(tiles: seq<seq<byte>>, n: nat): seq<byte>
    requires Packable(tiles, n)
  {
    if |tiles| == 1 then tiles[0]
    else
      assert forall i | 0 <= i < |tiles| - 2 :: tiles[1..][i] == tiles[i + 1];
      LeBytes(|tiles[0]| - 1, n) + tiles[0] + Pack(tiles[1..], n)
  }

  /** The payloads of a group of `count` tiles, unless a size runs over the end. */
  function Parse(data: seq<byte>, count: nat, n: nat): Option<seq<seq<byte>>>
    requires count > 0
  {
    if count == 1 then Some([data])
    else if n > |data| then None
    else
      var size, rest := LeValue(data[..n]) + 1, data[n..];
      if size > |rest| then None
      else
        Prepend([rest[..size]], Parse(rest[size..], count - 1, n))
  }

  function Prepend(front: seq<seq<byte>>, tiles: Option<seq<seq<byte>>>): Option<seq<seq<byte>>> {
    match tiles
    case None => None
    case Some(back) => Some(front + back)
  }

  lemma PrependTwice(front: seq<seq<byte>>, tile: seq<byte>, tiles: Option<seq<seq<byte>>>)
    ensures Prepend(front, Prepend([tile], tiles)) == Prepend(front + [tile], tiles)
    ensures Prepend([], tiles) == tiles
  {
    if tiles.Some? {
      assert front + ([tile] + tiles.value) == front + [tile] + tiles.value;
      assert [] + tiles.value == tiles.value;
    }
  }

  lemma ParseStep(data: seq<byte>, count: nat, n: nat)
    requires count > 0
    ensures count == 1 ==> Parse(data, count, n) == Some([data])
    ensures count > 1 && n > |data| ==> Parse(data, count, n).None?
    ensures count > 1 && n <= |data| ==>
              var size, rest := LeValue(data[..n]) + 1, data[n..];
              Parse(data, count, n)
                == if size > |rest| then None else Prepend([rest[..size]], Parse(rest[size..], count - 1, n))
  {
  }

  lemma ParseFirst(prefix: seq<byte>, first: seq<byte>, tail: seq<byte>, count: nat, n: nat)
    requires count > 1 && |prefix| == n && |first| == LeValue(prefix) + 1
    ensures Parse(prefix + first + tail, count, n)
         == Prepend([first], Parse(tail, count - 1, n))
  {
    var data := prefix + first + tail;
    assert data[..n] == prefix && data[n..] == first + tail;
    assert data[n..][..|first|] == first && data[n..][|first|..] == tail;
    hide LeValue;
  }

  /** Parsing undoes packing. */
  lemma {:induction false} PackThenParse(tiles: seq<seq<byte>>, n: nat)
    requires Packable(tiles, n)
    ensures Parse(Pack(tiles, n), |tiles|, n) == Some(tiles)
  {
    if |tiles| == 1 {
      assert tiles == [tiles[0]];
    } else {
      var rest := tiles[1..];
      PackFirst(tiles, n);
      hide Parse, LeValue, LeBytes, Pow256, Pack, Packable;
      PackThenParse(rest, n);
      ValueOfBytes(|tiles[0]| - 1, n);
      var prefix, tail := LeBytes(|tiles[0]| - 1, n), Pack(rest, n);
      ParseFirst(prefix, tiles[0], tail, |tiles|, n);
      assert Pack(tiles, n) == prefix + tiles[0] + tail;
      assert tiles == [tiles[0]] + rest;
    }
  }

  /** A group of several tiles starts with the size of the first one. */
  lemma PackFirst(tiles: seq<seq<byte>>, n: nat)
    requires Packable(tiles, n) && |tiles| > 1
    ensures Packable(tiles[1..], n) && 1 <= |tiles[0]| <= Pow256(n)
    ensures Pack(tiles, n) == LeBytes(|tiles[0]| - 1, n) + tiles[0] + Pack(tiles[1..], n)
  {
    hide LeBytes, Pow256;
    assert forall i | 0 <= i < |tiles| - 2 :: tiles[1..][i] == tiles[i + 1];
  }

  /** Whatever parses was packed: no byte is left over or used twice. */
  lemma {:induction false} ParseThenPack(data: seq<byte>, count: nat, n: nat)
    requires count > 0 && Parse(data, count, n).Some?
    ensures var tiles := Parse(data, count, n).value;
            |tiles| == count && Packable(tiles, n) && Pack(tiles, n) == data
  {
    hide Parse, LeValue, LeBytes, Pow256;
    ParseStep(data, count, n);
    if count > 1 {
      hide Pack, Packable;
      var size, rest := LeValue(data[..n]) + 1, data[n..];
      BytesOfValue(data[..n]);
      ParseThenPack(rest[size..], count - 1, n);
      PackPrepend(rest[..size], Parse(rest[size..], count - 1, n).value, n);
      Pieces(data, n, size);
    } else {
      assert Packable([data], n) && Pack([data], n) == data;
    }
  }

  lemma Pieces(data: seq<byte>, n: nat, size: nat)
    requires n + size <= |data|
    ensures data[..n] + data[n..][..size] + data[n..][size..] == data
  {
  }

  lemma PackPrepend(first: seq<byte>, back: seq<seq<byte>>, n: nat)
    requires Packable(back, n) && 1 <= |first| <= Pow256(n)
    ensures Packable([first] + back, n)
    ensures Pack([first] + back, n) == LeBytes(|first| - 1, n) + first + Pack(back, n)
  {
    var tiles := [first] + back;
    forall i | 0 <= i < |tiles| - 1 ensures 1 <= |tiles[i]| <= Pow256(n) {
      if i > 0 {
        assert tiles[i] == back[i - 1];
      }
    }
    assert tiles[1..] == back;
  }

  /** A group is rejected exactly when no payloads pack to it. */
  lemma RejectedIffNotPacked(data: seq<byte>, count: nat, n: nat)
    requires count > 0
    ensures Parse(data, count, n).None?
       <==> !exists tiles :: |tiles| == count && Packable(tiles, n) && Pack(tiles, n) == data
  {
    if Parse(data, count, n).Some? {
      ParseThenPack(data, count, n);
    }
    if tiles :| |tiles| == count && Packable(tiles, n) && Pack(tiles, n) == data {
      PackThenParse(tiles, n);
    }
  }

  // ----- All groups -----

  /** A tile group: the numbers of its first and last tile, and its bytes. */
  datatype Group = Group(start: nat, end: nat, data: seq<byte>) {
    function Count(): nat
      requires start <= end
    {
      end - start + 1
    }

    predicate Has(j: nat) { start <= j <= end }
  }

  /** The groups cover the tiles from 0 on without a gap. */
  ghost predicate Contiguous(groups: seq<Group>) {
    && (forall i | 0 <= i < |groups| :: groups[i].start <= groups[i].end)
    && (|groups| > 0 ==> groups[0].start == 0)
    && (forall i, j | 0 <= i < j == i + 1 < |groups| :: groups[j].start == groups[i].end + 1)
  }

  /** What a tile is set up with: its bytes, its position, and where its stretches of the frame buffers
      start. */
  datatype Tile = Tile(data: seq<byte>, row: nat, col: nat, startOff: nat)

  /** What the frame header and the frame context say about all tiles: the size of the length fields, the
      columns of tiles, the tile whose probabilities are kept, if any are, and the starts in the frame
      buffers, if frames are decoded in parallel. */
  datatype Layout = Layout(nBytes: nat, cols: nat, update: nat, refresh: bool, starts: Option<seq<nat>>) {
    predicate Fits(n: nat) { cols > 0 && (starts.Some? ==> |starts.value| == n) }

    function StartOff(j: nat): nat
      requires starts.Some? ==> j < |starts.value|
    {
      if starts.Some? then starts.value[j] else 0
    }
  }

  /** The tiles from `start` on have the payloads of their group, and positions in raster order. */
  ghost predicate SetUp(ts: array<Tile>, start: nat, payloads: seq<seq<byte>>, lay: Layout)
    requires lay.Fits(ts.Length) && start + |payloads| <= ts.Length
    reads ts
  {
    forall k | 0 <= k < |payloads| ::
      ts[start + k] == Tile(payloads[k], (start + k) / lay.cols, (start + k) % lay.cols,
                            if lay.starts.Some? then lay.starts.value[start + k] else 0)
  }

  lemma NextPosition(j: nat, cols: nat)
    requires cols > 0
    ensures j % cols + 1 == cols ==> (j + 1) / cols == j / cols + 1 && (j + 1) % cols == 0
    ensures j % cols + 1 < cols ==> (j + 1) / cols == j / cols && (j + 1) % cols == j % cols + 1
  {
    var q, r := j / cols, j % cols;
    if r + 1 == cols {
      assert j + 1 == (q + 1) * cols;
      QuotientIs(j + 1, cols, q + 1, 0);
    } else {
      QuotientIs(j + 1, cols, q, r + 1);
    }
  }

  /** Reads the size in front of a tile, byte by byte. */
  method ReadSize(data: seq<byte>, n: nat) returns (size: nat)
    requires n <= |data|
    ensures size == LeValue(data[..n]) + 1
  {
    size := 0;
    for k := 0 to n
      invariant size == LeValue(data[..k])
    {
      ValueAppend(data[..k], data[k]);
      assert data[..k + 1] == data[..k] + [data[k]];
      size := size + data[k] * Pow256(k);
    }
    size := size + 1;
  }

  /** The next of the `count` tiles left in a group, and the bytes behind it. */
  method CutTile(data: seq<byte>, count: nat, n: nat) returns (r: Option<(seq<byte>, seq<byte>)>)
    requires count > 0
    ensures Parse(data, count, n)
         == if r.None? then None
            else Prepend([r.value.0], if count == 1 then Some([]) else Parse(r.value.1, count - 1, n))
  {
    ParseStep(data, count, n);
    hide Parse, LeValue;
    if count == 1 {
      assert Prepend([data], Some([])) == Some([data]) by { assert [data] + [] == [data]; }
      return Some((data, []));
    }
    if n > |data| {
      return None;
    }
    var rest := data[n..];
    var size := ReadSize(data, n);
    if size > |rest| {
      return None;
    }
    r := Some((rest[..size], rest[size..]));
  }

  /** One tile group: `row` and `col` are the position of the next tile. The group that has the tile whose
      probabilities are kept sets the flag. */
  method ParseGroup(ts: array<Tile>, g: Group, lay: Layout, row: nat, col: nat, set0: bool)
    returns (ok: bool, row': nat, col': nat, updateSet: bool)
    requires g.start <= g.end < ts.Length && lay.Fits(ts.Length)
    requires row == g.start / lay.cols && col == g.start % lay.cols
    modifies ts
    ensures ok <==> Parse(g.data, g.Count(), lay.nBytes).Some?
    ensures ok ==> row' == (g.end + 1) / lay.cols && col' == (g.end + 1) % lay.cols
    ensures ok ==> |Parse(g.data, g.Count(), lay.nBytes).value| == g.Count()
                   && SetUp(ts, g.start, Parse(g.data, g.Count(), lay.nBytes).value, lay)
    ensures ok ==> updateSet == (set0 || (lay.refresh && g.start <= lay.update <= g.end))
    ensures forall j | 0 <= j < ts.Length && !(g.start <= j <= g.end) :: ts[j] == old(ts[j])
  {
    row', col', updateSet := row, col, set0;
    var data, n := g.data, lay.nBytes;
    ghost var done := [];
    PrependTwice([], [], Parse(data, g.Count(), n));
    hide Parse, Prepend;
    for j := g.start to g.end + 1
      invariant row' == j / lay.cols && col' == j % lay.cols
      invariant updateSet == (set0 || (lay.refresh && g.start <= lay.update < j))
      invariant |done| == j - g.start && SetUp(ts, g.start, done, lay)
      invariant forall l | 0 <= l < ts.Length && !(g.start <= l < j) :: ts[l] == old(ts[l])
      invariant Parse(g.data, g.Count(), n) ==
                   Prepend(done, if j <= g.end then Parse(data, g.end - j + 1, n) else Some([]))
    {
      var cut := CutTile(data, g.end - j + 1, n);
      if cut.None? {
        assert Prepend(done, None) == None by { PrependNone(done); }
        return false, row', col', updateSet;
      }
      var tile := cut.value.0;
      data := cut.value.1;
      ts[j] := Tile(tile, row', col', lay.StartOff(j));
      NextPosition(j, lay.cols);
      col' := col' + 1;
      if col' == lay.cols {
        col' := 0;
        row' := row' + 1;
      }
      if j == lay.update && lay.refresh {
        updateSet := true;
      }
      PrependTwice(done, tile, if j < g.end then Parse(data, g.end - j, n) else Some([]));
      done := done + [tile];
    }
    PrependNone(done);
    ok := true;
  }

  lemma PrependNone(front: seq<seq<byte>>)
    ensures Prepend(front, None) == None
    ensures Prepend(front, Some([])) == Some(front)
  {
    assert front + [] == front;
  }

  lemma {:induction false} GroupsAscend(groups: seq<Group>, i: nat, j: nat)
    requires Contiguous(groups) && i < j < |groups|
    ensures groups[i].end < groups[j].start
  {
    if i + 1 < j {
      GroupsAscend(groups, i, j - 1);
    }
  }

  ghost predicate Parses(g: Group, n: nat)
    requires g.start <= g.end
  {
    Parse(g.data, g.Count(), n).Some?
  }

  /** The tiles of a group are set up with its payloads. */
  ghost predicate GroupSetUp(ts: array<Tile>, g: Group, lay: Layout)
    requires g.start <= g.end < ts.Length && lay.Fits(ts.Length) && Parses(g, lay.nBytes)
    reads ts
  {
    var payloads := Parse(g.data, g.Count(), lay.nBytes).value;
    |payloads| == g.Count() && SetUp(ts, g.start, payloads, lay)
  }

  /** All tile groups of a frame; stops at the first one that does not parse. The flag says whether some
      group has the tile whose probabilities are kept. */
  method InitTiles(ts: array<Tile>, groups: seq<Group>, lay: Layout) returns (ok: bool, updateSet: bool)
    requires Contiguous(groups) && lay.Fits(ts.Length) && forall i | 0 <= i < |groups| :: groups[i].end < ts.Length
    modifies ts
    ensures ok <==> forall i | 0 <= i < |groups| :: Parses(groups[i], lay.nBytes)
    ensures ok ==> forall i | 0 <= i < |groups| :: GroupSetUp(ts, groups[i], lay)
    ensures ok ==> (updateSet <==> lay.refresh && exists i :: 0 <= i < |groups| && groups[i].Has(lay.update))
  {
    var row, col := 0, 0;
    updateSet := false;
    for i := 0 to |groups|
      invariant forall l | 0 <= l < i :: Parses(groups[l], lay.nBytes) && GroupSetUp(ts, groups[l], lay)
      invariant i < |groups| ==> row == groups[i].start / lay.cols && col == groups[i].start % lay.cols
      invariant updateSet <==> lay.refresh && exists l :: 0 <= l < i && groups[l].Has(lay.update)
    {
      label before:
      hide Parse;
      ok, row, col, updateSet := ParseGroup(ts, groups[i], lay, row, col, updateSet);
      if !ok {
        assert !Parses(groups[i], lay.nBytes);
        return;
      }
      forall l | 0 <= l < i ensures GroupSetUp(ts, groups[l], lay) {
        GroupsAscend(groups, l, i);
        assert old@before(GroupSetUp(ts, groups[l], lay));
      }
      assert updateSet <==> lay.refresh && exists l :: 0 <= l < i + 1 && groups[l].Has(lay.update) by {
        assert groups[i].Has(lay.update) == (groups[i].start <= lay.update <= groups[i].end);
      }
    }
    ok := true;
  }
}
