/** The consumer half of `run_tile_copy`: it drains the received tiles, counts
    empty and non-empty ones, batches the non-empty ones and flushes a batch to
    the mbtiles sink when it is full or when a minute has passed since the last
    flush. The clocks are replaced by two oracle flags per received tile, and
    the sink by the trace of batches handed to `insert_tiles`. */
module Consumer {
  import opened Tiles

  type byte = x: int | 0 <= x < 0x100

  /** `BATCH_SIZE` */
  const BatchSize: nat := 1000
  /** `PROGRESS_REPORT_AFTER` */
  const ReportAfter: nat := 100

  /** A fetched tile; an empty payload means there is no tile at `xyz`. */
  datatype TileXyz = TileXyz(xyz: TileCoord, data: seq<byte>)

  /** One tile taken off the channel, with what the two clocks said while it
      was handled: `saveDue` is `last_saved.elapsed() > SAVE_EVERY` and
      `reportDue` is `last_reported.elapsed() > PROGRESS_REPORT_EVERY`. */
  datatype Received = Received(tile: TileXyz, saveDue: bool, reportDue: bool)

  /** One row of a batch: `(z, x, y, data)`. */
  datatype Row = Row(z: u8, x: u32, y: u32, data: seq<byte>)

  /** A printed status line: the counters it shows, and whether the tile that
      let it through the gate was empty (so which counter passed the gate). */
  datatype Report = Report(empty: nat, nonEmpty: nat, afterEmpty: bool)

  /** The loop's state: the two progress counters, the pending batch, every
      batch flushed so far (in order) and every status line printed so far. */
  datatype ConsumerState = ConsumerState(
    empty: nat,
    nonEmpty: nat,
    batch: seq<Row>,
    flushed: seq<seq<Row>>,
    reports: seq<Report>)

  const Initial := ConsumerState(0, 0, [], [], [])

  function RowOf(t: TileXyz): Row {
    Row(t.xyz.z, t.xyz.x, t.xyz.y, t.data)
  }

  /** The status-line test on `prev`, the counter's value before its increment
      (what `fetch_add` returns). */
  predicate ReportGate(prev: nat, reportDue: bool) {
    prev % ReportAfter == ReportAfter - 1 && reportDue
  }

  function MaybeReport(s: ConsumerState, prev: nat, reportDue: bool, afterEmpty: bool): ConsumerState {
    if ReportGate(prev, reportDue) then s.(reports := s.reports + [Report(s.empty, s.nonEmpty, afterEmpty)]) else s
  }

  /** One iteration of the `while let Some(tile) = rx.recv()` loop. */
  function Step(s: ConsumerState, ev: Received): ConsumerState {
    if |ev.tile.data| == 0 then
      MaybeReport(s.(empty := s.empty + 1), s.empty, ev.reportDue, true)
    else
      var pushed := s.batch + [RowOf(ev.tile)];
      var s1 :=
        if |pushed| >= BatchSize || ev.saveDue then s.(batch := [], flushed := s.flushed + [pushed])
        else s.(batch := pushed);
      MaybeReport(s1.(nonEmpty := s.nonEmpty + 1), s.nonEmpty, ev.reportDue, false)
  }

  // ---------------------------------------------------------------------------
  // Reference views of the received sequence.

  /** The rows of the non-empty tiles, in the order they were received: every
      received tile is either counted as empty or gives exactly one row. */
  function NonEmptyRows(evs: seq<Received>): (r: seq<Row>)
    ensures forall row :: row in r ==> |row.data| > 0
    ensures |r| + EmptyCount(evs) == |evs|
  {
    if evs == [] then []
    else
      var last := evs[|evs| - 1];
      NonEmptyRows(evs[..|evs| - 1]) + (if |last.tile.data| > 0 then [RowOf(last.tile)] else [])
  }

  /** `row` is the row of some received tile with a payload. */
  predicate FromNonEmptyTile(evs: seq<Received>, row: Row) {
    exists i :: 0 <= i < |evs| && |evs[i].tile.data| > 0 && row == RowOf(evs[i].tile)
  }

  /** A row is collected exactly when some received tile with a payload
      produced it. */
  lemma {:induction false} NonEmptyRowsMembers(evs: seq<Received>)
    ensures forall row :: row in NonEmptyRows(evs) <==> FromNonEmptyTile(evs, row)
  {
    if evs != [] {
      var init := evs[..|evs| - 1];
      var last := evs[|evs| - 1];
      NonEmptyRowsMembers(init);
      assert init + [last] == evs;
      forall row
        ensures row in NonEmptyRows(evs) <==> FromNonEmptyTile(evs, row)
      {
        if FromNonEmptyTile(init, row) {
          var i :| 0 <= i < |init| && |init[i].tile.data| > 0 && row == RowOf(init[i].tile);
          assert evs[i] == init[i];
        }
        if |last.tile.data| > 0 && row == RowOf(last.tile) {
          assert evs[|init|] == last;
        }
        if FromNonEmptyTile(evs, row) {
          var i :| 0 <= i < |evs| && |evs[i].tile.data| > 0 && row == RowOf(evs[i].tile);
          if i < |init| {
            assert init[i] == evs[i];
          }
        }
      }
    }
  }

  /** The number of received tiles whose payload is empty. */
  function EmptyCount(evs: seq<Received>): nat {
    if evs == [] then 0
    else EmptyCount(evs[..|evs| - 1]) + (if |evs[|evs| - 1].tile.data| == 0 then 1 else 0)
  }

  /** The batches laid end to end. */
  function Flatten(bs: seq<seq<Row>>): seq<Row> {
    if bs == [] then [] else Flatten(bs[..|bs| - 1]) + bs[|bs| - 1]
  }

  lemma FlattenAppend(bs: seq<seq<Row>>, b: seq<Row>)
    ensures Flatten(bs + [b]) == Flatten(bs) + b
  {
    assert (bs + [b])[..|bs|] == bs;
  }

  /** Every flushed batch holds between 1 and `BatchSize` rows. */
  predicate BatchesBounded(bs: seq<seq<Row>>) {
    forall i :: 0 <= i < |bs| ==> 0 < |bs[i]| <= BatchSize
  }

  /** A status line is printed only when the counter the triggering tile
      incremented has just reached a positive multiple of `ReportAfter`. */
  predicate OnReportBoundary(c: Report) {
    if c.afterEmpty then c.empty > 0 && c.empty % ReportAfter == 0
    else c.nonEmpty > 0 && c.nonEmpty % ReportAfter == 0
  }

  // ---------------------------------------------------------------------------
  // The loop as a fold.

  /** The state after the loop has handled `evs`, in order. */
  function Run(evs: seq<Received>): (r: ConsumerState)
    ensures r.empty == EmptyCount(evs)
    ensures r.nonEmpty == |NonEmptyRows(evs)|
    ensures r.empty + r.nonEmpty == |evs|
    ensures Flatten(r.flushed) + r.batch == NonEmptyRows(evs)
    ensures |r.batch| < BatchSize
    ensures BatchesBounded(r.flushed)
    ensures forall i :: 0 <= i < |r.reports| ==> OnReportBoundary(r.reports[i])
  {
    if evs == [] then Initial
    else
      var s := Run(evs[..|evs| - 1]);
      var ev := evs[|evs| - 1];
      StepKeepsRows(s, ev);
      StepKeepsBounds(s, ev);
      StepReportsOnBoundary(s, ev);
      Step(s, ev)
  }

  lemma StepKeepsBounds(s: ConsumerState, ev: Received)
    requires |s.batch| < BatchSize && BatchesBounded(s.flushed)
    ensures |Step(s, ev).batch| < BatchSize && BatchesBounded(Step(s, ev).flushed)
  {
  }

  lemma StepReportsOnBoundary(s: ConsumerState, ev: Received)
    requires forall i :: 0 <= i < |s.reports| ==> OnReportBoundary(s.reports[i])
    ensures forall i :: 0 <= i < |Step(s, ev).reports| ==> OnReportBoundary(Step(s, ev).reports[i])
  {
  }

  /** A step moves a non-empty tile's row to the end of the flushed-then-pending
      rows and leaves them alone for an empty tile. */
  lemma StepKeepsRows(s: ConsumerState, ev: Received)
    ensures Flatten(Step(s, ev).flushed) + Step(s, ev).batch
            == Flatten(s.flushed) + s.batch + (if |ev.tile.data| > 0 then [RowOf(ev.tile)] else [])
  {
    var pushed := s.batch + [RowOf(ev.tile)];
    if |ev.tile.data| > 0 && (|pushed| >= BatchSize || ev.saveDue) {
      FlattenAppend(s.flushed, pushed);
    }
  }

  /** After the loop: the leftover batch is flushed when it is not empty. */
  function Finish(s: ConsumerState): (r: ConsumerState)
    ensures r.batch == []
    ensures Flatten(r.flushed) == Flatten(s.flushed) + s.batch
    ensures |r.flushed| == |s.flushed| + (if s.batch == [] then 0 else 1)
    ensures r.flushed[..|s.flushed|] == s.flushed
    ensures r.empty == s.empty && r.nonEmpty == s.nonEmpty && r.reports == s.reports
  {
    if s.batch != [] then
      FlattenAppend(s.flushed, s.batch);
      s.(batch := [], flushed := s.flushed + [s.batch])
    else s
  }

  /** The whole consumer: every received tile is counted once, and the flushed
      batches, laid end to end, are exactly the non-empty tiles in the order
      they were received, so no empty tile is written and none is lost. */
  function Consume(evs: seq<Received>): (r: ConsumerState)
    ensures r.empty + r.nonEmpty == |evs|
    ensures r.nonEmpty == |NonEmptyRows(evs)|
    ensures Flatten(r.flushed) == NonEmptyRows(evs)
    ensures r.batch == []
    ensures BatchesBounded(r.flushed)
  {
    var s := Run(evs);
    var r := Finish(s);
    assert |NonEmptyRows(evs)| == |Flatten(s.flushed)| + |s.batch|;
    FinishKeepsBounds(s);
    r
  }

  lemma FinishKeepsBounds(s: ConsumerState)
    requires |s.batch| < BatchSize && BatchesBounded(s.flushed)
    ensures BatchesBounded(Finish(s).flushed)
  {
  }

  // ---------------------------------------------------------------------------
  // Flush and report triggers.

  /** A batch is flushed during the loop only right after a non-empty tile was
      pushed, and exactly when the batch reached `BatchSize` or the minute
      elapsed; the flushed batch is the pending one with that tile. */
  lemma StepFlush(s: ConsumerState, ev: Received)
    ensures var s' := Step(s, ev);
            var flush := |ev.tile.data| > 0 && (|s.batch| + 1 >= BatchSize || ev.saveDue);
            && (flush ==> s'.flushed == s.flushed + [s.batch + [RowOf(ev.tile)]] && s'.batch == [])
            && (!flush ==> s'.flushed == s.flushed)
  {
  }

  /** A status line is printed for a tile exactly when the clock allows it and
      the counter that tile incremented has reached a multiple of `ReportAfter`;
      it shows the counters with that tile already counted. */
  lemma StepReport(s: ConsumerState, ev: Received)
    ensures var s' := Step(s, ev);
            var counter := if |ev.tile.data| == 0 then s'.empty else s'.nonEmpty;
            && |s'.reports| == |s.reports| + (if ev.reportDue && counter % ReportAfter == 0 then 1 else 0)
            && s'.reports[..|s.reports|] == s.reports
            && (|s'.reports| > |s.reports| ==>
                  s'.reports[|s.reports|] == Report(s'.empty, s'.nonEmpty, |ev.tile.data| == 0))
  {
  }

  /** Without the minute timer firing, every batch flushed during the loop is
      exactly `BatchSize` rows long and the pending batch holds the remainder. */
  lemma {:induction false} FullBatchesWithoutTimer(evs: seq<Received>)
    requires forall i :: 0 <= i < |evs| ==> !evs[i].saveDue
    ensures forall i :: 0 <= i < |Run(evs).flushed| ==> |Run(evs).flushed[i]| == BatchSize
    ensures |Run(evs).flushed| * BatchSize + |Run(evs).batch| == |NonEmptyRows(evs)|
  {
    if evs != [] {
      var init := evs[..|evs| - 1];
      FullBatchesWithoutTimer(init);
      var s := Run(init);
      StepFlush(s, evs[|evs| - 1]);
    }
  }

  // ---------------------------------------------------------------------------
  // The loop as the source writes it.

  /** `while let Some(tile) = rx.recv().await { .. }` followed by the final
      partial flush. */
  method ConsumeLoop(received: seq<Received>) returns (s: ConsumerState)
    ensures s == Consume(received)
    ensures s.empty + s.nonEmpty == |received|
    ensures Flatten(s.flushed) == NonEmptyRows(received)
    ensures BatchesBounded(s.flushed)
  {
    s := Initial;
    var i := 0;
    while i < |received|
      invariant 0 <= i <= |received|
      invariant s == Run(received[..i])
    {
      assert received[..i + 1][..i] == received[..i];
      s := Step(s, received[i]);
      i := i + 1;
    }
    assert received[..i] == received;
    s := Finish(s);
  }
}
