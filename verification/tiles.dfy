/** Tile coordinates, tile rectangles and the flattening of rectangles into the
    stream of coordinates that martin-cp fetches (`iterate_tiles`). */
module Tiles {

  type u8 = x: int | 0 <= x < 0x100
  type u32 = x: int | 0 <= x < 0x1_0000_0000

  /** One tile of the power-of-two pyramid at zoom `z`. */
  datatype TileCoord = TileCoord(z: u8, x: u32, y: u32)

  /** An inclusive range of tiles `[minX, maxX] x [minY, maxY]` at one zoom. */
  datatype TileRect = TileRect(zoom: u8, minX: u32, minY: u32, maxX: u32, maxY: u32)

  predicate Valid(t: TileRect) {
    t.minX <= t.maxX && t.minY <= t.maxY
  }

  predicate AllValid(ts: seq<TileRect>) {
    forall i :: 0 <= i < |ts| ==> Valid(ts[i])
  }

  /** Number of integers in the inclusive range `lo..=hi` (none when `hi < lo`). */
  function Span(lo: int, hi: int): nat {
    if hi < lo then 0 else hi - lo + 1
  }

  /** `TileRect::size`: the number of tiles the rectangle covers. */
  function Size(t: TileRect): nat
    requires Valid(t)
  {
    (t.maxX - t.minX + 1) * (t.maxY - t.minY + 1)
  }

  predicate Contains(t: TileRect, c: TileCoord) {
    c.z == t.zoom && t.minX <= c.x <= t.maxX && t.minY <= c.y <= t.maxY
  }

  /** Sum of the sizes of all rectangles. */
  function TotalSize(ts: seq<TileRect>): nat
    requires AllValid(ts)
  {
    if ts == [] then 0 else Size(ts[0]) + TotalSize(ts[1..])
  }

  // ---------------------------------------------------------------------------
  // Enumeration, exactly as the nested `flat_map`s of `iterate_tiles` walk it.

  /** `a` comes before `b` when walking columns left to right and each column
      top to bottom. */
  predicate ColumnMajorBefore(a: TileCoord, b: TileCoord) {
    a.x < b.x || (a.x == b.x && a.y < b.y)
  }

  /** Every element comes strictly before every later one. */
  predicate StrictlyColumnMajor(r: seq<TileCoord>) {
    forall k, k' :: 0 <= k < k' < |r| ==> ColumnMajorBefore(r[k], r[k'])
  }

  /** `(lo..=hi).map(|y| TileCoord { z, x, y })`. */
  function ColumnTiles(z: u8, x: u32, lo: int, hi: int): (r: seq<TileCoord>)
    requires 0 <= lo && hi < 0x1_0000_0000
    ensures |r| == Span(lo, hi)
    ensures forall k :: 0 <= k < |r| ==> r[k] == TileCoord(z, x, lo + k)
    decreases Span(lo, hi)
  {
    if hi < lo then [] else [TileCoord(z, x, lo)] + ColumnTiles(z, x, lo + 1, hi)
  }

  /** A column holds exactly the tiles of its `x` between `lo` and `hi`. */
  lemma ColumnTilesContains(z: u8, x: u32, lo: int, hi: int, c: TileCoord)
    requires 0 <= lo && hi < 0x1_0000_0000
    ensures c in ColumnTiles(z, x, lo, hi) <==> c.z == z && c.x == x && lo <= c.y <= hi
  {
    var col := ColumnTiles(z, x, lo, hi);
    if c.z == z && c.x == x && lo <= c.y <= hi {
      assert col[c.y - lo] == c;
    }
  }

  /** A column followed by the columns to its right is in column-major order. */
  lemma ColumnThenRest(col: seq<TileCoord>, rest: seq<TileCoord>, x: int)
    requires forall k :: 0 <= k < |col| ==> col[k].x == x
    requires forall k, k' :: 0 <= k < k' < |col| ==> col[k].y < col[k'].y
    requires forall c :: c in rest ==> c.x > x
    requires StrictlyColumnMajor(rest)
    ensures StrictlyColumnMajor(col + rest)
  {
    var r := col + rest;
    forall k, k' | 0 <= k < k' < |r|
      ensures ColumnMajorBefore(r[k], r[k'])
    {
      if k' >= |col| {
        if k >= |col| {
          assert r[k] == rest[k - |col|] && r[k'] == rest[k' - |col|];
        } else {
          assert r[k'] in rest;
        }
      }
    }
  }

  /** The tiles of columns `lo..=hi` of `t`, each column from `t.minY` to `t.maxY`. */
  function RectColumns(t: TileRect, lo: int, hi: int): (r: seq<TileCoord>)
    requires 0 <= lo && hi < 0x1_0000_0000
    ensures |r| == Span(lo, hi) * Span(t.minY, t.maxY)
    decreases Span(lo, hi)
  {
    if hi < lo then []
    else
      var h := Span(t.minY, t.maxY);
      assert Span(lo, hi) * h == h + Span(lo + 1, hi) * h by {
        assert Span(lo, hi) == 1 + Span(lo + 1, hi);
      }
      ColumnTiles(t.zoom, lo, t.minY, t.maxY) + RectColumns(t, lo + 1, hi)
  }

  /** Columns `lo..=hi` hold exactly the tiles of `t`'s zoom and rows in those columns. */
  lemma {:induction false} RectColumnsContains(t: TileRect, lo: int, hi: int, c: TileCoord)
    requires 0 <= lo && hi < 0x1_0000_0000
    ensures c in RectColumns(t, lo, hi) <==>
              c.z == t.zoom && lo <= c.x <= hi && t.minY <= c.y <= t.maxY
    decreases Span(lo, hi)
  {
    if lo <= hi {
      ColumnTilesContains(t.zoom, lo, t.minY, t.maxY, c);
      RectColumnsContains(t, lo + 1, hi, c);
    }
  }

  /** Columns are walked left to right, each top to bottom. */
  lemma {:induction false} RectColumnsOrder(t: TileRect, lo: int, hi: int)
    requires 0 <= lo && hi < 0x1_0000_0000
    ensures StrictlyColumnMajor(RectColumns(t, lo, hi))
    decreases Span(lo, hi)
  {
    if lo <= hi {
      var col := ColumnTiles(t.zoom, lo, t.minY, t.maxY);
      var rest := RectColumns(t, lo + 1, hi);
      RectColumnsOrder(t, lo + 1, hi);
      forall c | c in rest
        ensures c.x > lo
      {
        RectColumnsContains(t, lo + 1, hi, c);
      }
      ColumnThenRest(col, rest, lo);
    }
  }

  /** The coordinates of one rectangle: `x` ascending outside, `y` ascending inside. */
  function RectTiles(t: TileRect): seq<TileCoord> {
    RectColumns(t, t.minX, t.maxX)
  }

  /** `iterate_tiles`: the rectangles' tiles, rectangle by rectangle. */
  function IterateTiles(ts: seq<TileRect>): seq<TileCoord> {
    if ts == [] then [] else RectTiles(ts[0]) + IterateTiles(ts[1..])
  }

  // ---------------------------------------------------------------------------
  // What the enumeration yields.

  /** A rectangle yields `Size` tiles, exactly the ones it contains, with `x`
      ascending in the outer loop and `y` ascending in the inner loop. */
  lemma RectTilesOrder(t: TileRect)
    requires Valid(t)
    ensures |RectTiles(t)| == Size(t)
    ensures forall c :: c in RectTiles(t) <==> Contains(t, c)
    ensures StrictlyColumnMajor(RectTiles(t))
  {
    forall c | true
      ensures c in RectTiles(t) <==> Contains(t, c)
    {
      RectColumnsContains(t, t.minX, t.maxX, c);
    }
    RectColumnsOrder(t, t.minX, t.maxX);
  }

  /** The number of coordinates yielded equals the sum of the rectangle sizes. */
  lemma {:induction false} IterateTilesCount(ts: seq<TileRect>)
    requires AllValid(ts)
    ensures |IterateTiles(ts)| == TotalSize(ts)
  {
    if ts != [] {
      RectTilesOrder(ts[0]);
      IterateTilesCount(ts[1..]);
    }
  }

  /** A coordinate is yielded iff some rectangle contains it; in particular each
      yielded tile has its rectangle's zoom and lies within its bounds. */
  lemma {:induction false} IterateTilesContains(ts: seq<TileRect>, c: TileCoord)
    ensures c in IterateTiles(ts) <==> exists i :: 0 <= i < |ts| && Contains(ts[i], c)
  {
    if ts != [] {
      RectColumnsContains(ts[0], ts[0].minX, ts[0].maxX, c);
      IterateTilesContains(ts[1..], c);
      if exists i :: 0 <= i < |ts| && Contains(ts[i], c) {
        var i :| 0 <= i < |ts| && Contains(ts[i], c);
        if i > 0 {
          assert Contains(ts[1..][i - 1], c);
        }
      }
      if exists i :: 0 <= i < |ts[1..]| && Contains(ts[1..][i], c) {
        var i :| 0 <= i < |ts[1..]| && Contains(ts[1..][i], c);
        assert Contains(ts[i + 1], c);
      }
    }
  }

  /** Rectangles are walked in the given order: the tiles of `ts[i]` occupy the
      positions right after those of `ts[..i]`, in the rectangle's own order. */
  lemma {:induction false} IterateTilesOrder(ts: seq<TileRect>, i: nat, k: nat)
    requires AllValid(ts) && i < |ts| && k < Size(ts[i])
    ensures TotalSize(ts[..i]) + k < |IterateTiles(ts)|
    ensures IterateTiles(ts)[TotalSize(ts[..i]) + k] == RectTiles(ts[i])[k]
  {
    var a, b := RectTiles(ts[0]), IterateTiles(ts[1..]);
    assert IterateTiles(ts) == a + b;
    assert |a| == Size(ts[0]);
    if i == 0 {
      assert ts[..0] == [];
    } else {
      IterateTilesOrder(ts[1..], i - 1, k);
      TotalSizeSkipFirst(ts, i);
      assert ts[1..][i - 1] == ts[i];
      IndexAfter(a, b, TotalSize(ts[1..][..i - 1]) + k);
    }
  }

  /** Indexing past a prefix lands in the suffix. */
  lemma IndexAfter<T>(a: seq<T>, b: seq<T>, j: nat)
    requires j < |b|
    ensures |a| + j < |a + b| && (a + b)[|a| + j] == b[j]
  {
  }

  /** The size of a non-empty prefix is the first rectangle's plus the rest's. */
  lemma TotalSizeSkipFirst(ts: seq<TileRect>, i: nat)
    requires AllValid(ts) && 0 < i <= |ts|
    ensures TotalSize(ts[..i]) == Size(ts[0]) + TotalSize(ts[1..][..i - 1])
  {
    assert ts[1..][..i - 1] == ts[..i][1..];
  }
}
