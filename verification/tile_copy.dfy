/** `run_tile_copy` as one sequential run: compute the tile ranges, choose the
    layout, drain the received tiles, then apply the metadata overrides and the
    aggregate hash. Fetching is concurrent in the source, so the tiles may arrive
    in any order; `received` is the order the consumer saw them in. */
module TileCopy {
  import opened Wrappers
  import opened Tiles
  import opened TileRanges
  import opened ProgressReport
  import opened Consumer
  import opened Schema

  /** The copy arguments the core reads; `D` stands for the duplicate policy,
      which is only passed through to the sink. */
  datatype CopyArgs<F, D> = CopyArgs(
    ranges: RangeArgs<F>,
    mbtType: Option<MbtTypeCli>,
    onDuplicate: D,
    skipAggTilesHash: bool,
    setMeta: seq<(string, string)>)

  /** What the destination file holds before the copy. */
  datatype Destination = Destination(isEmpty: bool, detected: MbtType)

  /** What the sources contribute to the metadata of a new file. */
  datatype SourceInfo = SourceInfo(merged: map<string, string>, format: string, version: string)

  /** One call made on the mbtiles sink. */
  datatype SinkCall<D> =
    | SchemaCall(schema: SchemaAction)
    | InsertTiles(mbtType: MbtType, onDuplicate: D, rows: seq<Row>)
    | PostCall(post: PostAction)

  /** A finished run: the rectangles walked, the final counters and every sink
      call in order. */
  datatype CopyRun<D> = CopyRun(tiles: seq<TileRect>, progress: Progress, calls: seq<SinkCall<D>>)

  /** The flushed batches as `insert_tiles` calls. */
  function InsertCalls<D>(t: MbtType, dup: D, batches: seq<seq<Row>>): (r: seq<SinkCall<D>>)
    ensures |r| == |batches|
    ensures forall i :: 0 <= i < |r| ==> r[i] == InsertTiles(t, dup, batches[i])
  {
    if batches == [] then [] else [InsertTiles(t, dup, batches[0])] + InsertCalls(t, dup, batches[1..])
  }

  function SchemaCalls<D>(acts: seq<SchemaAction>): (r: seq<SinkCall<D>>)
    ensures |r| == |acts|
    ensures forall i :: 0 <= i < |r| ==> r[i] == SchemaCall(acts[i])
  {
    if acts == [] then [] else [SchemaCall(acts[0])] + SchemaCalls(acts[1..])
  }

  function PostCalls<D>(acts: seq<PostAction>): (r: seq<SinkCall<D>>)
    ensures |r| == |acts|
    ensures forall i :: 0 <= i < |r| ==> r[i] == PostCall(acts[i])
  {
    if acts == [] then [] else [PostCall(acts[0])] + PostCalls(acts[1..])
  }

  /** The run once the ranges are computed and the layout chosen: drain the
      received tiles into batched inserts, then the post-copy steps. */
  function CopyTiles<D>(tiles: seq<TileRect>, choice: SchemaChoice, onDuplicate: D,
                        setMeta: seq<(string, string)>, skipAggTilesHash: bool,
                        received: seq<Received>): (r: CopyRun<D>)
    requires AllValid(tiles)
    ensures r.tiles == tiles
    ensures r.progress.total == |IterateTiles(tiles)|
    ensures r.progress.empty + r.progress.nonEmpty == |received|
  {
    var p0 := NewProgress(tiles);
    var s := Consume(received);
    var post := PostCopy(setMeta, skipAggTilesHash, s.nonEmpty);
    CopyRun(tiles, p0.(empty := s.empty, nonEmpty := s.nonEmpty),
            SchemaCalls(choice.actions) + InsertCalls(choice.mbtType, onDuplicate, s.flushed) + PostCalls(post))
  }

  /** The whole run. `append_rect` and the rectangle sizes live in the martin
      crate, so the run needs the rectangles it builds to be well formed. */
  function RunTileCopy<F, D>(args: CopyArgs<F, D>, world: Bounds<F>, project: Projection<F>,
                             appendRect: (seq<TileRect>, TileRect) -> seq<TileRect>,
                             dest: Destination, info: SourceInfo, received: seq<Received>): (r: CopyRun<D>)
    requires ZoomsSupported(Zooms(args.ranges))
    requires AllValid(ComputeTileRanges(args.ranges, world, project, appendRect).ranges)
    ensures r.tiles == ComputeTileRanges(args.ranges, world, project, appendRect).ranges
    ensures r.progress.total == |IterateTiles(r.tiles)|
    ensures Done(r.progress) == |received|
  {
    CopyTiles(ComputeTileRanges(args.ranges, world, project, appendRect).ranges,
              InitSchema(dest.isEmpty, dest.detected, args.mbtType, info.merged, info.format, info.version),
              args.onDuplicate, args.setMeta, args.skipAggTilesHash, received)
  }

  // ---------------------------------------------------------------------------
  // Views of the call trace.

  /** The rows of every `insert_tiles` call, in call order. */
  function InsertedRows<D>(calls: seq<SinkCall<D>>): seq<Row> {
    if calls == [] then []
    else (if calls[0].InsertTiles? then calls[0].rows else []) + InsertedRows(calls[1..])
  }

  /** The number of aggregate-hash updates in the trace. */
  function HashCalls<D>(calls: seq<SinkCall<D>>): nat {
    if calls == [] then 0
    else (if calls[0] == PostCall(UpdateAggTilesHash) then 1 else 0) + HashCalls(calls[1..])
  }

  lemma {:induction false} TraceAppend<D>(a: seq<SinkCall<D>>, b: seq<SinkCall<D>>)
    ensures InsertedRows(a + b) == InsertedRows(a) + InsertedRows(b)
    ensures HashCalls(a + b) == HashCalls(a) + HashCalls(b)
  {
    if a == [] {
      assert a + b == b;
    } else {
      assert (a + b)[1..] == a[1..] + b;
      TraceAppend(a[1..], b);
    }
  }

  lemma {:induction false} SchemaCallsQuiet<D>(acts: seq<SchemaAction>)
    ensures InsertedRows(SchemaCalls<D>(acts)) == [] && HashCalls(SchemaCalls<D>(acts)) == 0
  {
    if acts != [] {
      SchemaCallsQuiet<D>(acts[1..]);
    }
  }

  lemma {:induction false} PostCallsHash<D>(acts: seq<PostAction>)
    ensures InsertedRows(PostCalls<D>(acts)) == []
    ensures HashCalls(PostCalls<D>(acts)) == HashUpdates(acts)
  {
    if acts != [] {
      PostCallsHash<D>(acts[1..]);
    }
  }

  lemma {:induction false} InsertCallsNoHash<D>(t: MbtType, dup: D, bs: seq<seq<Row>>)
    ensures HashCalls(InsertCalls(t, dup, bs)) == 0
  {
    if bs != [] {
      InsertCallsNoHash(t, dup, bs[1..]);
    }
  }

  lemma {:induction false} InsertCallsRows<D>(t: MbtType, dup: D, bs: seq<seq<Row>>)
    ensures InsertedRows(InsertCalls(t, dup, bs)) == Flatten(bs)
  {
    if bs != [] {
      var last := bs[|bs| - 1];
      var init := bs[..|bs| - 1];
      var one := InsertCalls(t, dup, [last]);
      assert bs == init + [last];
      FlattenAppend(init, last);
      InsertCallsRows(t, dup, init);
      InsertCallsSplit(t, dup, init, [last]);
      TraceAppend(InsertCalls(t, dup, init), one);
      assert one == [InsertTiles(t, dup, last)];
      assert InsertedRows(one) == last + InsertedRows(one[1..]);
    }
  }

  lemma InsertCallsSplit<D>(t: MbtType, dup: D, a: seq<seq<Row>>, b: seq<seq<Row>>)
    ensures InsertCalls(t, dup, a + b) == InsertCalls(t, dup, a) + InsertCalls(t, dup, b)
  {
  }

  /** True when some received tile has a payload. */
  predicate AnyTileData(received: seq<Received>) {
    exists i :: 0 <= i < |received| && |received[i].tile.data| > 0
  }

  lemma {:induction false} NonEmptyRowsExist(received: seq<Received>)
    ensures NonEmptyRows(received) != [] <==> AnyTileData(received)
  {
    if received != [] {
      var init := received[..|received| - 1];
      NonEmptyRowsExist(init);
      if AnyTileData(init) {
        var i :| 0 <= i < |init| && |init[i].tile.data| > 0;
        assert |received[i].tile.data| > 0;
      }
      if AnyTileData(received) && |received[|received| - 1].tile.data| == 0 {
        var i :| 0 <= i < |received| && |received[i].tile.data| > 0;
        assert |init[i].tile.data| > 0;
      }
    }
  }

  // ---------------------------------------------------------------------------
  // What a run guarantees.

  /** Unfolds the calls of a run into its three parts. */
  lemma CopyTilesTrace<D>(tiles: seq<TileRect>, choice: SchemaChoice, onDuplicate: D,
                          setMeta: seq<(string, string)>, skipAggTilesHash: bool, received: seq<Received>)
    requires AllValid(tiles)
    ensures var s := Consume(received);
            CopyTiles(tiles, choice, onDuplicate, setMeta, skipAggTilesHash, received).calls
            == SchemaCalls(choice.actions) + InsertCalls(choice.mbtType, onDuplicate, s.flushed)
               + PostCalls(PostCopy(setMeta, skipAggTilesHash, s.nonEmpty))
  {
  }

  /** The calls of a run come in three phases: first the schema set-up calls of
      `init_schema`, then one insert per flushed batch, then the post-copy
      steps (one per `--set-meta` pair and possibly the hash update). */
  lemma CopyTilesPhases<D>(tiles: seq<TileRect>, choice: SchemaChoice, onDuplicate: D,
                           setMeta: seq<(string, string)>, skipAggTilesHash: bool, received: seq<Received>)
    requires AllValid(tiles)
    ensures var calls := CopyTiles(tiles, choice, onDuplicate, setMeta, skipAggTilesHash, received).calls;
            var s := Consume(received);
            var nPost := |setMeta| + (if ShouldUpdateHash(skipAggTilesHash, s.nonEmpty) then 1 else 0);
            && |calls| == |choice.actions| + |s.flushed| + nPost
            && (forall i :: 0 <= i < |calls| ==> (calls[i].SchemaCall? <==> i < |choice.actions|))
            && (forall i :: 0 <= i < |calls| ==> (calls[i].PostCall? <==> |calls| - nPost <= i))
  {
    var s := Consume(received);
    var post := PostCopy(setMeta, skipAggTilesHash, s.nonEmpty);
    var a, b, c := SchemaCalls<D>(choice.actions), InsertCalls(choice.mbtType, onDuplicate, s.flushed), PostCalls<D>(post);
    CopyTilesTrace(tiles, choice, onDuplicate, setMeta, skipAggTilesHash, received);
    ThreePhases(a, b, c);
  }

  /** Schema calls, then inserts, then post-copy calls: each kind occupies
      exactly its own stretch of the concatenation. */
  lemma ThreePhases<D>(a: seq<SinkCall<D>>, b: seq<SinkCall<D>>, c: seq<SinkCall<D>>)
    requires forall i :: 0 <= i < |a| ==> a[i].SchemaCall?
    requires forall i :: 0 <= i < |b| ==> b[i].InsertTiles?
    requires forall i :: 0 <= i < |c| ==> c[i].PostCall?
    ensures forall i :: 0 <= i < |a + b + c| ==> ((a + b + c)[i].SchemaCall? <==> i < |a|)
    ensures forall i :: 0 <= i < |a + b + c| ==> ((a + b + c)[i].PostCall? <==> |a| + |b| <= i)
  {
    var calls := a + b + c;
    forall i | 0 <= i < |calls|
      ensures calls[i].SchemaCall? <==> i < |a|
      ensures calls[i].PostCall? <==> |a| + |b| <= i
    {
      if i < |a| {
        assert calls[i] == a[i];
      } else if i < |a| + |b| {
        assert calls[i] == b[i - |a|];
      } else {
        assert calls[i] == c[i - |a| - |b|];
      }
    }
  }

  /** The inserted rows, in call order, are exactly the non-empty received
      tiles in the order they arrived: none is lost, none is written twice and
      no empty tile is written. */
  lemma CopyTilesInsertsEveryTile<D>(tiles: seq<TileRect>, choice: SchemaChoice, onDuplicate: D,
                                     setMeta: seq<(string, string)>, skipAggTilesHash: bool, received: seq<Received>)
    requires AllValid(tiles)
    ensures InsertedRows(CopyTiles(tiles, choice, onDuplicate, setMeta, skipAggTilesHash, received).calls)
            == NonEmptyRows(received)
  {
    var s := Consume(received);
    var post := PostCopy(setMeta, skipAggTilesHash, s.nonEmpty);
    var a, b, c := SchemaCalls<D>(choice.actions), InsertCalls(choice.mbtType, onDuplicate, s.flushed), PostCalls<D>(post);
    CopyTilesTrace(tiles, choice, onDuplicate, setMeta, skipAggTilesHash, received);
    SchemaCallsQuiet<D>(choice.actions);
    InsertCallsRows(choice.mbtType, onDuplicate, s.flushed);
    PostCallsHash<D>(post);
    MiddleRows(a, b, c);
  }

  /** Only the middle part of a trace inserts rows when its ends insert none. */
  lemma MiddleRows<D>(a: seq<SinkCall<D>>, b: seq<SinkCall<D>>, c: seq<SinkCall<D>>)
    requires InsertedRows(a) == [] && InsertedRows(c) == []
    ensures InsertedRows(a + b + c) == InsertedRows(b)
  {
    TraceAppend(a, b);
    TraceAppend(a + b, c);
  }

  /** The aggregate hash is updated exactly once when it is not skipped and
      some received tile had a payload, and never otherwise. */
  lemma CopyTilesHashOnce<D>(tiles: seq<TileRect>, choice: SchemaChoice, onDuplicate: D,
                             setMeta: seq<(string, string)>, skipAggTilesHash: bool, received: seq<Received>)
    requires AllValid(tiles)
    ensures HashCalls(CopyTiles(tiles, choice, onDuplicate, setMeta, skipAggTilesHash, received).calls)
            == (if !skipAggTilesHash && AnyTileData(received) then 1 else 0)
  {
    var s := Consume(received);
    var post := PostCopy(setMeta, skipAggTilesHash, s.nonEmpty);
    var a, b, c := SchemaCalls<D>(choice.actions), InsertCalls(choice.mbtType, onDuplicate, s.flushed), PostCalls<D>(post);
    CopyTilesTrace(tiles, choice, onDuplicate, setMeta, skipAggTilesHash, received);
    SchemaCallsQuiet<D>(choice.actions);
    InsertCallsNoHash(choice.mbtType, onDuplicate, s.flushed);
    PostCallsHash<D>(post);
    TraceAppend(a, b);
    TraceAppend(a + b, c);
    NonEmptyRowsExist(received);
    assert s.nonEmpty > 0 <==> AnyTileData(received);
  }

  /** Every `insert_tiles` call uses the chosen layout and the requested
      duplicate policy, and carries between 1 and `BatchSize` rows. */
  lemma CopyTilesInsertCalls<D>(tiles: seq<TileRect>, choice: SchemaChoice, onDuplicate: D,
                                setMeta: seq<(string, string)>, skipAggTilesHash: bool, received: seq<Received>)
    requires AllValid(tiles)
    ensures var calls := CopyTiles(tiles, choice, onDuplicate, setMeta, skipAggTilesHash, received).calls;
            forall i :: 0 <= i < |calls| && calls[i].InsertTiles? ==>
              && calls[i].mbtType == choice.mbtType
              && calls[i].onDuplicate == onDuplicate
              && 0 < |calls[i].rows| <= BatchSize
  {
    var s := Consume(received);
    var post := PostCopy(setMeta, skipAggTilesHash, s.nonEmpty);
    var a, b, c := SchemaCalls<D>(choice.actions), InsertCalls(choice.mbtType, onDuplicate, s.flushed), PostCalls<D>(post);
    CopyTilesTrace(tiles, choice, onDuplicate, setMeta, skipAggTilesHash, received);
    var calls := a + b + c;
    forall i | 0 <= i < |calls| && calls[i].InsertTiles?
      ensures calls[i].mbtType == choice.mbtType && calls[i].onDuplicate == onDuplicate
      ensures 0 < |calls[i].rows| <= BatchSize
    {
      if |a| <= i < |a| + |b| {
        assert calls[i] == b[i - |a|];
      }
    }
  }

  /** A whole run: the inserts use the layout `init_schema` chose, they write
      every non-empty received tile once, and the aggregate hash is updated
      exactly when it is not skipped and some tile was written. */
  lemma RunTileCopyGuarantees<F, D>(args: CopyArgs<F, D>, world: Bounds<F>, project: Projection<F>,
                                    appendRect: (seq<TileRect>, TileRect) -> seq<TileRect>,
                                    dest: Destination, info: SourceInfo, received: seq<Received>)
    requires ZoomsSupported(Zooms(args.ranges))
    requires AllValid(ComputeTileRanges(args.ranges, world, project, appendRect).ranges)
    ensures var calls := RunTileCopy(args, world, project, appendRect, dest, info, received).calls;
            var choice := InitSchema(dest.isEmpty, dest.detected, args.mbtType, info.merged, info.format, info.version);
            && InsertedRows(calls) == NonEmptyRows(received)
            && HashCalls(calls) == (if !args.skipAggTilesHash && AnyTileData(received) then 1 else 0)
            && forall i :: 0 <= i < |calls| && calls[i].InsertTiles? ==> calls[i].mbtType == choice.mbtType
  {
    var tiles := ComputeTileRanges(args.ranges, world, project, appendRect).ranges;
    var choice := InitSchema(dest.isEmpty, dest.detected, args.mbtType, info.merged, info.format, info.version);
    CopyTilesInsertsEveryTile(tiles, choice, args.onDuplicate, args.setMeta, args.skipAggTilesHash, received);
    CopyTilesHashOnce(tiles, choice, args.onDuplicate, args.setMeta, args.skipAggTilesHash, received);
    CopyTilesInsertCalls(tiles, choice, args.onDuplicate, args.setMeta, args.skipAggTilesHash, received);
  }

  /** The coordinates of the received tiles. */
  function Coords(received: seq<Received>): (r: seq<TileCoord>)
    ensures |r| == |received|
    ensures forall i :: 0 <= i < |r| ==> r[i] == received[i].tile.xyz
  {
    if received == [] then [] else [received[0].tile.xyz] + Coords(received[1..])
  }

  /** When every enumerated tile was fetched once, in whatever order, the final
      status line reports the run as done at 100%. When there was something to
      copy the source's own division gives 100 too; with nothing to copy only
      the corrected line is defined. */
  lemma CompletedRunIsDone<F, D>(args: CopyArgs<F, D>, world: Bounds<F>, project: Projection<F>,
                                 appendRect: (seq<TileRect>, TileRect) -> seq<TileRect>,
                                 dest: Destination, info: SourceInfo, received: seq<Received>)
    requires ZoomsSupported(Zooms(args.ranges))
    requires AllValid(ComputeTileRanges(args.ranges, world, project, appendRect).ranges)
    requires multiset(Coords(received))
             == multiset(IterateTiles(ComputeTileRanges(args.ranges, world, project, appendRect).ranges))
    ensures var p := RunTileCopy(args, world, project, appendRect, dest, info, received).progress;
            && Done(p) == p.total
            && Status(p).percent == 100
            && Status(p).suffix == Finished
            && (p.total > 0 ==> PercentAsWritten(Done(p), p.total) == Some(100))
  {
    var tiles := ComputeTileRanges(args.ranges, world, project, appendRect).ranges;
    assert |multiset(Coords(received))| == |Coords(received)|;
    assert |multiset(IterateTiles(tiles))| == |IterateTiles(tiles)|;
  }

  // ---------------------------------------------------------------------------
  // Finding: an empty zoom range.

  /** A minimum zoom above the maximum (say `--min-zoom 5 --max-zoom 3`)
      selects no zoom, so no rectangle is built and `total` is 0. */
  lemma EmptyZoomRangeCopiesNothing<F, D>(args: CopyArgs<F, D>, world: Bounds<F>, project: Projection<F>,
                                          appendRect: (seq<TileRect>, TileRect) -> seq<TileRect>,
                                          dest: Destination, info: SourceInfo)
    requires args.ranges.maxZoom.Some? && args.ranges.maxZoom.value < args.ranges.minZoom.GetOr(0)
    ensures ZoomsSupported(Zooms(args.ranges))
    ensures AllValid(ComputeTileRanges(args.ranges, world, project, appendRect).ranges)
    ensures var r := RunTileCopy(args, world, project, appendRect, dest, info, []);
            && r.tiles == []
            && r.progress.total == 0
  {
    EmptyZoomRangeAppendsNothing(args.ranges, world, project, appendRect);
    var r := RunTileCopy(args, world, project, appendRect, dest, info, []);
    assert IterateTiles(r.tiles) == [];
  }

  /** With an empty zoom range, formatting the final status line divides by
      zero in the source (see `PercentAsWritten` and `NothingToCopy`). */
  lemma EmptyZoomRangeDividesByZero<F, D>(args: CopyArgs<F, D>, world: Bounds<F>, project: Projection<F>,
                                          appendRect: (seq<TileRect>, TileRect) -> seq<TileRect>,
                                          dest: Destination, info: SourceInfo)
    requires args.ranges.maxZoom.Some? && args.ranges.maxZoom.value < args.ranges.minZoom.GetOr(0)
    ensures ZoomsSupported(Zooms(args.ranges))
    ensures AllValid(ComputeTileRanges(args.ranges, world, project, appendRect).ranges)
    ensures var p := RunTileCopy(args, world, project, appendRect, dest, info, []).progress;
            PercentAsWritten(Done(p), p.total).None?
  {
    EmptyZoomRangeCopiesNothing(args, world, project, appendRect, dest, info);
  }

}
