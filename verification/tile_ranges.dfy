/** `compute_tile_ranges` and the integer part of `tile_index` in martin-cp.
    The spherical-Mercator projection (floating point) is a parameter, and so is
    `append_rect`, which lives in the martin crate and is not part of this model. */
module TileRanges {
  import opened Wrappers
  import opened Tiles

  /** A geographic bounding box; `F` stands for the source's `f64`. */
  datatype Bounds<F> = Bounds(left: F, bottom: F, right: F, top: F)

  /** The zoom and bbox selection of the copy arguments. */
  datatype RangeArgs<F> = RangeArgs(
    minZoom: Option<u8>,
    maxZoom: Option<u8>,
    zoomLevels: seq<u8>,
    bbox: seq<Bounds<F>>)

  /** The floored, saturating `as u32` tile position of a longitude/latitude
      at a zoom, before clamping; the floating-point formula itself is not
      modelled. */
  type Projection<!F> = (F, F, u8) -> (u32, u32)

  /** What `compute_tile_ranges` does: `appended` is every rectangle handed to
      `append_rect`, in call order, and `ranges` the list those calls build. */
  datatype RangeComputation = RangeComputation(appended: seq<TileRect>, ranges: seq<TileRect>)

  function Pow2(n: nat): (r: nat)
    ensures r >= 1
  {
    if n == 0 then 1 else 2 * Pow2(n - 1)
  }

  lemma {:induction false} Pow2Monotone(m: nat, n: nat)
    requires m <= n
    ensures Pow2(m) <= Pow2(n)
  {
    if m < n {
      Pow2Monotone(m, n - 1);
    }
  }

  lemma Pow2Of31()
    ensures Pow2(31) == 0x8000_0000
  {
    assert Pow2(8) == 0x100;
    assert Pow2(16) == 0x1_0000;
    assert Pow2(24) == 0x100_0000;
  }

  lemma Pow2Below32(n: nat)
    requires n < 32
    ensures Pow2(n) <= 0x8000_0000
  {
    Pow2Monotone(n, 31);
    Pow2Of31();
  }

  /** `(1_u32 << zoom) - 1`, the largest tile index at `zoom`. */
  function MaxIndex(zoom: u8): (r: u32)
    requires zoom < 32
    ensures r + 1 == Pow2(zoom)
  {
    Pow2Below32(zoom);
    Pow2(zoom) - 1
  }

  /** `min(v, hi)`, as `Ord::min` on `u32`. */
  function Clamp(v: u32, hi: u32): (r: u32)
    ensures r <= v && r <= hi
    ensures r == v || r == hi
  {
    if v <= hi then v else hi
  }

  /** `tile_index`: the projected tile position clamped into `[0, 2^zoom - 1]`. */
  function TileIndex<F>(project: Projection<F>, lon: F, lat: F, zoom: u8): (r: (u32, u32))
    requires zoom < 32
    ensures r.0 < Pow2(zoom) && r.1 < Pow2(zoom)
    ensures r.0 <= project(lon, lat, zoom).0 && r.1 <= project(lon, lat, zoom).1
    ensures project(lon, lat, zoom).0 < Pow2(zoom) ==> r.0 == project(lon, lat, zoom).0
    ensures project(lon, lat, zoom).1 < Pow2(zoom) ==> r.1 == project(lon, lat, zoom).1
    ensures project(lon, lat, zoom).0 >= Pow2(zoom) ==> r.0 == Pow2(zoom) - 1
    ensures project(lon, lat, zoom).1 >= Pow2(zoom) ==> r.1 == Pow2(zoom) - 1
  {
    var (x, y) := project(lon, lat, zoom);
    (Clamp(x, MaxIndex(zoom)), Clamp(y, MaxIndex(zoom)))
  }

  /** The rectangle of one bbox at one zoom: the top-left corner gives the
      minimum indexes, the bottom-right corner the maximum ones. */
  function RectFor<F>(project: Projection<F>, b: Bounds<F>, zoom: u8): (r: TileRect)
    requires zoom < 32
    ensures r.zoom == zoom
    ensures r.maxX < Pow2(zoom) && r.maxY < Pow2(zoom)
    ensures (r.minX, r.minY) == TileIndex(project, b.left, b.top, zoom)
    ensures (r.maxX, r.maxY) == TileIndex(project, b.right, b.bottom, zoom)
  {
    var (minX, minY) := TileIndex(project, b.left, b.top, zoom);
    var (maxX, maxY) := TileIndex(project, b.right, b.bottom, zoom);
    TileRect(zoom, minX, minY, maxX, maxY)
  }

  /** `lo..=hi` over `u8`; empty when `hi < lo`. */
  function ZoomRange(lo: int, hi: int): (r: seq<u8>)
    requires 0 <= lo && hi < 0x100
    ensures |r| == Span(lo, hi)
    ensures forall i :: 0 <= i < |r| ==> r[i] == lo + i
    decreases Span(lo, hi)
  {
    if hi < lo then [] else [lo] + ZoomRange(lo + 1, hi)
  }

  /** The zoom levels to copy: `min_zoom.unwrap_or(0)..=max_zoom` when a
      maximum zoom is given, else the explicit list in its own order. */
  function Zooms<F>(args: RangeArgs<F>): (r: seq<u8>)
    ensures args.maxZoom.Some? ==>
              var lo := args.minZoom.GetOr(0);
              && |r| == Span(lo, args.maxZoom.value)
              && forall i :: 0 <= i < |r| ==> r[i] == lo + i
    ensures args.maxZoom.None? ==> r == args.zoomLevels
  {
    if args.maxZoom.Some? then ZoomRange(args.minZoom.GetOr(0), args.maxZoom.value)
    else args.zoomLevels
  }

  /** The boxes to copy: the world box stands in for an empty list. */
  function Boxes<F>(bbox: seq<Bounds<F>>, world: Bounds<F>): (r: seq<Bounds<F>>)
    ensures |r| >= 1
    ensures bbox == [] ==> r == [world]
    ensures bbox != [] ==> r == bbox
  {
    if bbox == [] then [world] else bbox
  }

  predicate ZoomsSupported(zooms: seq<u8>) {
    forall i :: 0 <= i < |zooms| ==> zooms[i] < 32
  }

  /** The inner loop: one rectangle per box, in box order. */
  function ZoomRects<F>(project: Projection<F>, zoom: u8, boxes: seq<Bounds<F>>): (r: seq<TileRect>)
    requires zoom < 32
    ensures |r| == |boxes|
    ensures forall j :: 0 <= j < |boxes| ==> r[j] == RectFor(project, boxes[j], zoom)
  {
    if boxes == [] then [] else [RectFor(project, boxes[0], zoom)] + ZoomRects(project, zoom, boxes[1..])
  }

  /** Position of the call for the `i`-th zoom and the `j`-th of `n` boxes in a
      zoom-major walk. */
  function Pos(i: nat, j: nat, n: nat): nat {
    i * n + j
  }

  lemma PosShift(i: nat, j: nat, n: nat)
    requires 1 <= i && j < n
    ensures n <= Pos(i, j, n) && Pos(i, j, n) - n == Pos(i - 1, j, n)
  {
  }

  lemma PosBound(i: nat, j: nat, n: nat, m: nat)
    requires i < m && j < n
    ensures Pos(i, j, n) < m * n
  {
    assert i * n <= (m - 1) * n;
  }

  /** Both loops: zoom outer, box inner. */
  function AppendTrace<F>(project: Projection<F>, zooms: seq<u8>, boxes: seq<Bounds<F>>): (r: seq<TileRect>)
    requires ZoomsSupported(zooms)
    ensures |r| == |zooms| * |boxes|
    ensures forall i: nat, j: nat :: i < |zooms| && j < |boxes| ==>
              Pos(i, j, |boxes|) < |r| && r[Pos(i, j, |boxes|)] == RectFor(project, boxes[j], zooms[i])
  {
    if zooms == [] then []
    else
      var first := ZoomRects(project, zooms[0], boxes);
      var rest := AppendTrace(project, zooms[1..], boxes);
      AppendTraceStep(project, zooms, boxes, first, rest);
      first + rest
  }

  lemma AppendTraceStep<F>(project: Projection<F>, zooms: seq<u8>, boxes: seq<Bounds<F>>,
                           first: seq<TileRect>, rest: seq<TileRect>)
    requires zooms != [] && ZoomsSupported(zooms)
    requires |first| == |boxes|
    requires forall j :: 0 <= j < |boxes| ==> first[j] == RectFor(project, boxes[j], zooms[0])
    requires |rest| == (|zooms| - 1) * |boxes|
    requires forall i: nat, j: nat :: i < |zooms| - 1 && j < |boxes| ==>
               Pos(i, j, |boxes|) < |rest| && rest[Pos(i, j, |boxes|)] == RectFor(project, boxes[j], zooms[1..][i])
    ensures |first + rest| == |zooms| * |boxes|
    ensures forall i: nat, j: nat :: i < |zooms| && j < |boxes| ==>
              Pos(i, j, |boxes|) < |first + rest|
              && (first + rest)[Pos(i, j, |boxes|)] == RectFor(project, boxes[j], zooms[i])
  {
    var n := |boxes|;
    assert |zooms| * n == n + (|zooms| - 1) * n;
    forall i: nat, j: nat | i < |zooms| && j < n
      ensures Pos(i, j, n) < |first + rest| && (first + rest)[Pos(i, j, n)] == RectFor(project, boxes[j], zooms[i])
    {
      PosBound(i, j, n, |zooms|);
      if i == 0 {
        assert Pos(i, j, n) == j;
      } else {
        PosShift(i, j, n);
        assert zooms[1..][i - 1] == zooms[i];
      }
    }
  }

  /** The list `append_rect` builds, starting from `ranges`, over `trace`. */
  function ApplyAppends(appendRect: (seq<TileRect>, TileRect) -> seq<TileRect>,
                        ranges: seq<TileRect>, trace: seq<TileRect>): seq<TileRect>
    decreases |trace|
  {
    if trace == [] then ranges else ApplyAppends(appendRect, appendRect(ranges, trace[0]), trace[1..])
  }

  /** `compute_tile_ranges`: one `append_rect` call per (zoom, box) pair, zoom
      major, over the selected zooms and the boxes (the world when none are
      given); the result is what those calls build from an empty list. */
  function ComputeTileRanges<F>(args: RangeArgs<F>, world: Bounds<F>, project: Projection<F>,
                                appendRect: (seq<TileRect>, TileRect) -> seq<TileRect>): (r: RangeComputation)
    requires ZoomsSupported(Zooms(args))
    ensures var zooms, boxes := Zooms(args), Boxes(args.bbox, world);
            && |r.appended| == |zooms| * |boxes|
            && (forall i: nat, j: nat :: i < |zooms| && j < |boxes| ==>
                  Pos(i, j, |boxes|) < |r.appended|
                  && r.appended[Pos(i, j, |boxes|)] == RectFor(project, boxes[j], zooms[i]))
    ensures r.ranges == ApplyAppends(appendRect, [], r.appended)
  {
    var trace := AppendTrace(project, Zooms(args), Boxes(args.bbox, world));
    RangeComputation(trace, ApplyAppends(appendRect, [], trace))
  }

  /** Every rectangle of a zoom-major walk is at one of the walked zooms and
      lies within the tile grid of that zoom. */
  lemma {:induction false} AppendTraceInGrid<F>(project: Projection<F>, zooms: seq<u8>, boxes: seq<Bounds<F>>)
    requires ZoomsSupported(zooms)
    ensures forall t :: t in AppendTrace(project, zooms, boxes) ==>
              t.zoom in zooms && t.maxX < Pow2(t.zoom) && t.maxY < Pow2(t.zoom)
  {
    if zooms != [] {
      AppendTraceInGrid(project, zooms[1..], boxes);
      var first := ZoomRects(project, zooms[0], boxes);
      forall t | t in first
        ensures t.zoom == zooms[0] && t.maxX < Pow2(t.zoom) && t.maxY < Pow2(t.zoom)
      {
        var j :| 0 <= j < |first| && first[j] == t;
      }
    }
  }

  /** Every rectangle handed to `append_rect` is at a selected zoom and lies
      within the tile grid of that zoom. */
  lemma AppendedRectsInGrid<F>(args: RangeArgs<F>, world: Bounds<F>, project: Projection<F>,
                               appendRect: (seq<TileRect>, TileRect) -> seq<TileRect>)
    requires ZoomsSupported(Zooms(args))
    ensures forall t :: t in ComputeTileRanges(args, world, project, appendRect).appended ==>
              t.zoom in Zooms(args) && t.maxX < Pow2(t.zoom) && t.maxY < Pow2(t.zoom)
  {
    AppendTraceInGrid(project, Zooms(args), Boxes(args.bbox, world));
  }

  /** With no box given every call covers the whole world, once per zoom. */
  lemma WorldBoxPerZoom<F>(args: RangeArgs<F>, world: Bounds<F>, project: Projection<F>,
                           appendRect: (seq<TileRect>, TileRect) -> seq<TileRect>)
    requires ZoomsSupported(Zooms(args)) && args.bbox == []
    ensures var c := ComputeTileRanges(args, world, project, appendRect);
            && |c.appended| == |Zooms(args)|
            && forall i :: 0 <= i < |Zooms(args)| ==> c.appended[i] == RectFor(project, world, Zooms(args)[i])
  {
    var zooms := Zooms(args);
    var c := ComputeTileRanges(args, world, project, appendRect);
    forall i | 0 <= i < |zooms|
      ensures c.appended[i] == RectFor(project, world, zooms[i])
    {
      assert Pos(i, 0, 1) == i;
    }
  }

  /** A minimum zoom above the maximum selects no zoom, so `append_rect` is
      never called and the ranges stay empty. */
  lemma EmptyZoomRangeAppendsNothing<F>(args: RangeArgs<F>, world: Bounds<F>, project: Projection<F>,
                                        appendRect: (seq<TileRect>, TileRect) -> seq<TileRect>)
    requires args.maxZoom.Some? && args.maxZoom.value < args.minZoom.GetOr(0)
    ensures Zooms(args) == []
    ensures ComputeTileRanges(args, world, project, appendRect) == RangeComputation([], [])
  {
    var c := ComputeTileRanges(args, world, project, appendRect);
    assert c.appended == [];
  }

  /** The zoom selections the source's tests use. */
  lemma ZoomSelectionExamples<F>(bbox: seq<Bounds<F>>)
    ensures Zooms(RangeArgs(None, None, [0], bbox)) == [0]
    ensures Zooms(RangeArgs(None, None, [3, 7], bbox)) == [3, 7]
    ensures Zooms(RangeArgs(Some(2), Some(4), [], bbox)) == [2, 3, 4]
    ensures Zooms(RangeArgs(None, Some(2), [], bbox)) == [0, 1, 2]
    ensures Zooms(RangeArgs(Some(5), Some(3), [], bbox)) == []
  {
    assert ZoomRange(2, 4) == [2, 3, 4];
    assert ZoomRange(0, 2) == [0, 1, 2];
  }
}
