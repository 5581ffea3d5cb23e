# martin-cp copy core, modelled in Dafny

`martin-cp` bulk-copies map tiles from a Martin tile source into an mbtiles
file. This project models the core of `martin/src/bin/martin-cp.rs` and proves
properties about that model:

- the `--set-meta KEY=VALUE` parser (`parse_key_value`);
- the choice of tile rectangles (`compute_tile_ranges`, with the clamp of `tile_index`);
- the enumeration of the tiles in those rectangles (`iterate_tiles`);
- the run's counters and the integer part of its status line (`Progress::new`, `Display for Progress`);
- the consumer loop that batches fetched tiles into `insert_tiles` calls;
- the destination layout and the metadata seeded into a new file (`init_schema`);
- what happens after the copy: metadata overrides and the aggregate tile hash.

The modules are:

| file | module | models |
|---|---|---|
| `wrappers.dfy` | `Wrappers` | `Option` and `Result` |
| `key_value.dfy` | `KeyValue` | `parse_key_value` |
| `tiles.dfy` | `Tiles` | `TileCoord`, `TileRect`, `iterate_tiles` |
| `tile_ranges.dfy` | `TileRanges` | `tile_index` (clamp part), zoom and bbox selection, `compute_tile_ranges` |
| `progress.dfy` | `ProgressReport` | `Progress::new` and the integer fields of the status line |
| `consumer.dfy` | `Consumer` | the receiving loop of `run_tile_copy` and the final flush |
| `schema.dfy` | `Schema` | `init_schema`, the `--set-meta` writes and the `agg_tiles_hash` decision |
| `tile_copy.dfy` | `TileCopy` | `run_tile_copy` as one sequential run, recorded as a trace of sink calls |

Some things the core depends on are not modelled; they are parameters instead:

- The floating-point Web-Mercator projection inside `tile_index` is a function parameter `project`.
- `append_rect` is a function parameter `appendRect`. It lives in the martin crate, which is not part of this model.
- The two elapsed-time tests `last_saved.elapsed() > SAVE_EVERY` and `last_reported.elapsed() > PROGRESS_REPORT_EVERY` are a pair of oracle flags on each received tile.
- Concurrent fetching is a parameter too: the `received` sequence says in which order the consumer saw the tiles.
- The sink (`insert_tiles`, `set_metadata_value`, `update_agg_tiles_hash`, schema set-up) is recorded as a sequence of calls.

## Model

| member | source | states |
|---|---|---|
| KeyValue.SplitOnce | martin/src/bin/martin-cp.rs:108-112 | `splitn(2, '=')`: there is a second part iff the text holds `=`; the first part holds no `=`; joining the parts with `=` gives back the text |
| KeyValue.ParseKeyValue | martin/src/bin/martin-cp.rs:107-118 | a pair is returned iff the first `=` has a non-empty key before it and a non-empty value after it; the key holds no `=`; key, `=` and value rebuild the argument; every other argument gives the error `Invalid key=value pair: <arg>` |
| KeyValue.JoinThenParse | martin/src/bin/martin-cp.rs:107-118 | round trip: a non-empty key without `=`, joined by `=` to a non-empty value that may itself contain `=`, parses back to the same pair |
| Tiles.ColumnTiles | martin/src/bin/martin-cp.rs:273 | one column `min_y..=max_y` at a fixed `x` yields exactly `Span` tiles, the `k`-th at `y = lo + k` |
| Tiles.RectColumnsContains | martin/src/bin/martin-cp.rs:272-273 | columns `lo..=hi` yield a coordinate iff it has the rectangle's zoom, an `x` in `lo..=hi` and a `y` in `min_y..=max_y` |
| Tiles.RectColumnsOrder | martin/src/bin/martin-cp.rs:272-273 | the nested walk is strictly column-major: `x` ascending outside, `y` ascending inside, so no tile is yielded twice |
| Tiles.RectTilesOrder | martin/src/bin/martin-cp.rs:270-274 | a well-formed rectangle yields `TileRect::size` tiles, exactly those it contains, in strict column-major order |
| Tiles.IterateTilesCount | martin/src/bin/martin-cp.rs:268-275 | the number of coordinates `iterate_tiles` yields is the sum of the rectangle sizes, the `total` of `Progress::new` |
| Tiles.IterateTilesContains | martin/src/bin/martin-cp.rs:268-275 | a coordinate is yielded iff some rectangle of the list contains it |
| Tiles.IterateTilesOrder | martin/src/bin/martin-cp.rs:268-275 | rectangles are walked in list order: the `k`-th tile of rectangle `i` sits at position (sizes of rectangles before `i`) + `k` |
| TileRanges.Clamp | martin/src/bin/martin-cp.rs:161 | `u32::min`: the result is at most both arguments and equals one of them |
| TileRanges.TileIndex | martin/src/bin/martin-cp.rs:153-162 | both indexes lie in `[0, 2^zoom - 1]` and never exceed the projected values; each equals its projected value when that is in range and is exactly `2^zoom - 1` (`(1 << zoom) - 1`) when it is not |
| TileRanges.RectFor | martin/src/bin/martin-cp.rs:181-185 | the rectangle of one bbox at one zoom takes its minimum indexes from the top-left corner and its maximum ones from the bottom-right corner, within the zoom's grid |
| TileRanges.ZoomRange | martin/src/bin/martin-cp.rs:169 | `lo..=hi` over `u8` has `Span(lo, hi)` elements, the `i`-th being `lo + i`; it is empty when `hi < lo` |
| TileRanges.Zooms | martin/src/bin/martin-cp.rs:167-173 | with a maximum zoom the zooms are `min_zoom.unwrap_or(0)..=max_zoom` in ascending order; otherwise the explicit list, unchanged |
| TileRanges.Boxes | martin/src/bin/martin-cp.rs:174-178 | never empty: the world box replaces an empty bbox list, and a given list is kept as is |
| TileRanges.ZoomRects | martin/src/bin/martin-cp.rs:180-187 | the inner loop builds one rectangle per box, in box order |
| TileRanges.AppendTrace | martin/src/bin/martin-cp.rs:179-188 | zoom-major walk: one call per zoom and box, and with `n` boxes the call at position `i * n + j` is for zoom `i` and box `j` |
| TileRanges.ComputeTileRanges | martin/src/bin/martin-cp.rs:164-190 | one `append_rect` call per (zoom, box) pair in zoom-major order, with the world box when none is given; the result is what those calls build from an empty list |
| TileRanges.AppendedRectsInGrid | martin/src/bin/martin-cp.rs:179-188 | every rectangle handed to `append_rect` is at a selected zoom and lies inside that zoom's tile grid |
| TileRanges.WorldBoxPerZoom | martin/src/bin/martin-cp.rs:174-188 | with no bbox, exactly one whole-world rectangle is appended per zoom, in zoom order |
| TileRanges.EmptyZoomRangeAppendsNothing | martin/src/bin/martin-cp.rs:167-170 | a minimum zoom above the maximum selects no zoom, so `append_rect` is never called and the range list stays empty |
| TileRanges.ZoomSelectionExamples | martin/src/bin/martin-cp.rs:443-459 | the zoom lists of the source's tests: `[0]`, `[3, 7]`, `2..=4`; also `0..=2` with no minimum and nothing for `5..=3` |
| ProgressReport.NewProgress | martin/src/bin/martin-cp.rs:212-220 | `total` is the number of tiles `iterate_tiles` will yield; both counters start at zero |
| ProgressReport.PercentAsWritten | martin/src/bin/martin-cp.rs:244-245 | `done * 100 / total` is undefined exactly when `total` is 0; otherwise it is the floor of the percentage |
| ProgressReport.Percent | martin/src/bin/martin-cp.rs:244-258 | the corrected percentage: at most 100, equal to 100 iff the run is done, and the floor of `done * 100 / total` whenever `total > 0` |
| ProgressReport.NothingToCopy | martin/src/bin/martin-cp.rs:245-258 | with nothing to copy the source's division is undefined, while the corrected line reads 100% and "done" |
| ProgressReport.PercentAgreesWhenDefined | martin/src/bin/martin-cp.rs:245 | wherever the source's division is defined, the corrected percentage equals it |
| ProgressReport.PercentMonotone | martin/src/bin/martin-cp.rs:244-245 | copying more tiles never lowers the reported percentage |
| ProgressReport.StatusSuffix | martin/src/bin/martin-cp.rs:256-264 | "done" iff nothing is left; "??? left" iff nothing is done yet but something is left; otherwise an estimate for `total - done` tiles |
| ProgressReport.Status | martin/src/bin/martin-cp.rs:239-265 | the corrected status line: it shows both counters; its percentage is at most 100 and reads 100 exactly when the suffix is "done", which happens exactly when done equals total; the suffix is "??? left" exactly when nothing is done yet, and otherwise the estimate is for `total - done` tiles; whenever `total > 0` its percentage is the one line 245 computes |
| Consumer.NonEmptyRows | martin/src/bin/martin-cp.rs:325-336 | each received tile either bumps the empty count or is pushed as exactly one row, and every pushed row has a non-empty payload |
| Consumer.NonEmptyRowsMembers | martin/src/bin/martin-cp.rs:325-329 | a row is pushed exactly when some received tile with a non-empty payload carries that zoom, column, row and payload |
| Consumer.StepKeepsRows | martin/src/bin/martin-cp.rs:326-336 | one iteration appends a non-empty tile's row to the flushed-then-pending rows and leaves them alone for an empty tile |
| Consumer.StepKeepsBounds | martin/src/bin/martin-cp.rs:329-335 | one iteration keeps the pending batch below `BATCH_SIZE` and every flushed batch between 1 and `BATCH_SIZE` rows |
| Consumer.StepReportsOnBoundary | martin/src/bin/martin-cp.rs:338-343 | every printed status line was let through by the counter its tile incremented (the empty one for an empty tile, the non-empty one otherwise), which had just reached a positive multiple of `PROGRESS_REPORT_AFTER` |
| Consumer.Run | martin/src/bin/martin-cp.rs:324-344 | after any prefix of the loop: each tile is counted once, as empty or non-empty; flushed batches plus the pending batch are the non-empty rows in arrival order; batch sizes are bounded; reports sit on boundaries |
| Consumer.Finish | martin/src/bin/martin-cp.rs:345-348 | the final flush happens iff the pending batch is non-empty; it appends that batch and changes nothing else |
| Consumer.FinishKeepsBounds | martin/src/bin/martin-cp.rs:345-348 | the final flush keeps every flushed batch between 1 and `BATCH_SIZE` rows |
| Consumer.Consume | martin/src/bin/martin-cp.rs:320-349 | the whole consumer: `empty + non_empty` equals the number of tiles received; the flushed batches, laid end to end, are exactly the non-empty tiles in arrival order; nothing is left pending |
| Consumer.StepFlush | martin/src/bin/martin-cp.rs:329-335 | a batch is flushed during the loop exactly when a non-empty tile filled it to `BATCH_SIZE` or the save timer fired; the flushed batch is the pending one with that tile |
| Consumer.StepReport | martin/src/bin/martin-cp.rs:326-343 | a tile prints a status line exactly when the report timer allows it and the counter it incremented reached a multiple of `PROGRESS_REPORT_AFTER`; the line shows the counters with that tile already counted |
| Consumer.FullBatchesWithoutTimer | martin/src/bin/martin-cp.rs:330-335 | without the save timer, every batch flushed in the loop holds exactly `BATCH_SIZE` rows and the pending batch holds the remainder |
| Consumer.ConsumeLoop | martin/src/bin/martin-cp.rs:320-349 | the `while let` loop plus the final flush computes the fold `Consume`: counts, row order and batch bounds as above |
| Schema.LayoutOfRoundTrip | martin/src/bin/martin-cp.rs:380-384 | each `--mbtiles-type` choice maps to a different layout, and `normalized` always gets the hash view |
| Schema.SeedMetadata | martin/src/bin/martin-cp.rs:386-394 | the seeded metadata has the merged keys plus `format` and `generator`; `format` is the tile format and `generator` is `martin-cp v<version>`; other merged keys are kept |
| Schema.InitSchema | martin/src/bin/martin-cp.rs:372-400 | an empty destination gets the requested layout (normalized with hash view by default), its schema is created and then the metadata is inserted; a non-empty destination keeps its detected layout and nothing is written |
| Schema.RequestIgnoredWhenNotEmpty | martin/src/bin/martin-cp.rs:379-399 | on a non-empty destination the requested layout makes no difference |
| Schema.SetMetaActions | martin/src/bin/martin-cp.rs:355-358 | one metadata write per `--set-meta` pair, in the given order |
| Schema.PostCopy | martin/src/bin/martin-cp.rs:355-367 | after the copy the metadata writes come first, in order; then the aggregate hash is updated exactly once if it is not skipped and some tile was written, and never otherwise |
| TileCopy.CopyTiles | martin/src/bin/martin-cp.rs:295-353 | a run over the given rectangles: its total is the number of enumerated tiles and it counts every received tile once |
| TileCopy.RunTileCopy | martin/src/bin/martin-cp.rs:277-370 | the whole run walks the rectangles `compute_tile_ranges` built, its total is the number of tiles they hold, and `done` is the number of tiles received |
| TileCopy.CopyTilesPhases | martin/src/bin/martin-cp.rs:287-367 | the sink calls come in three phases: the set-up calls `init_schema` asked for come first and no other call is a set-up call; the last ones are the post-copy steps (one per `--set-meta` pair plus one hash update when due), and the inserts, one per flushed batch, lie in between |
| TileCopy.CopyTilesInsertsEveryTile | martin/src/bin/martin-cp.rs:324-348 | the rows of all `insert_tiles` calls, in call order, are exactly the non-empty received tiles in arrival order: none lost, none written twice, no empty tile written |
| TileCopy.CopyTilesHashOnce | martin/src/bin/martin-cp.rs:360-367 | `update_agg_tiles_hash` is called exactly once when it is not skipped and some received tile had a payload, and never otherwise |
| TileCopy.CopyTilesInsertCalls | martin/src/bin/martin-cp.rs:331-347 | every `insert_tiles` call uses the chosen layout and the requested duplicate policy, and carries 1 to `BATCH_SIZE` rows |
| TileCopy.NonEmptyRowsExist | martin/src/bin/martin-cp.rs:361 | some row is written iff some received tile had a payload |
| TileCopy.RunTileCopyGuarantees | martin/src/bin/martin-cp.rs:277-370 | a whole run writes every non-empty tile once in arrival order, with the layout `init_schema` chose, and updates the hash exactly when it is not skipped and some tile was written |
| TileCopy.CompletedRunIsDone | martin/src/bin/martin-cp.rs:295-353 | when every enumerated tile was received once, in any order, `done` equals `total` and the corrected final line reads 100% and "done"; when `total > 0` the source's own division also gives 100 |
| TileCopy.EmptyZoomRangeCopiesNothing | martin/src/bin/martin-cp.rs:167-170 | with a minimum zoom above the maximum the run has no rectangles and a total of 0 |
| TileCopy.EmptyZoomRangeDividesByZero | martin/src/bin/martin-cp.rs:245 | with a minimum zoom above the maximum the percentage of the final status line is undefined: the division by `total` has a zero divisor |

## Left out

- Floating point: the Web-Mercator formula of `tile_index` (lines 156-159) is the parameter `project`, which stands for the floored, saturating `as u32` values. Elapsed time, speed and the remaining-time estimate of the status line (lines 240-241, 246-250, 262) are also left out. The suffix keeps only the number of tiles left.
- `append_rect`, `TileRect::new` and `TileRect::size` live in the martin crate, which is not part of this model. `append_rect` is a parameter, and no claim is made about how it merges rectangles. `Size` is defined as the width times the height of a rectangle whose minimum corner is not past its maximum.
- TileCopy.CopyTilesPhases: with `total` 0 the modelled run goes on to the post-copy calls (one `set_metadata_value` per `--set-meta` pair, lines 355-358) after the closing status line. The source does that only when info logging is off: under the default `martin_cp=info` filter (line 404) the `info!("{progress}")` at line 353 divides by zero first (see "## Findings"). The model follows the corrected status line, so it keeps going. The same holds for `TileCopy.RunTileCopy` and `TileCopy.CopyTiles`.
- TileCopy.RunTileCopy: requires every rectangle `append_rect` returns to have its minimum corner not past its maximum, because the behaviour of `TileRect::size` on other rectangles cannot be seen here.
- TileRanges.ComputeTileRanges: requires every zoom to be below 32. `1_u32 << zoom` overflows at 32 and above, and the source does not say what should happen then.
- ProgressReport.Status: requires `done <= total`. Each enumerated tile is sent to the consumer at most once, so the source never formats a line with more tiles done than the total. The u64 subtraction `total - done` is not modelled beyond that.
- ProgressReport.Status: is the corrected status line. It differs from the source only when `total` is 0: the source divides by zero there (see "## Findings"), while `Status` reads 100% and "done". `PercentAsWritten` models the line as written.
- Integer widths: `total`, the counters and `done * 100` are unbounded here; u64 overflow is not modelled.
- Concurrency: the producer task, the channel of capacity 500, `try_for_each_concurrent` and the atomic counters become one sequence of received tiles in arrival order. Which orders are possible is not modelled; `CompletedRunIsDone` assumes only that the multiset of received coordinates equals the enumerated one.
- Clocks: `last_saved.elapsed() > SAVE_EVERY` and `last_reported.elapsed() > PROGRESS_REPORT_EVERY` are the oracle flags `saveDue` and `reportDue` of each received tile.
- Failures: a fetch error, a send error, and any error from the sink or the database are not modelled. These are the `?` early returns in `run_tile_copy` and `init_schema`. Every sink call succeeds.
- `merge_tilejson`, `is_empty_database` and `detect_type` are outside this source file. Their results are the parameters `merged`, `isEmpty` and `detected`.
- The TileJSON fields other than `format` and `generator` are not modelled, and metadata values are plain strings rather than JSON values.
- Configuration and the command line: `start`, clap parsing, configuration merging and saving, source resolution, encoding negotiation, logging, `main` and `on_error`.
- The snapshot tests of `compute_tile_ranges` over real bounding boxes depend on the floating-point projection. Only their zoom selections are modelled, in `ZoomSelectionExamples`.

## Findings

| source | as written | input that shows it | evidently intended | confidence | as-written member | corrected member |
|---|---|---|---|---|---|---|
| martin/src/bin/martin-cp.rs:245 | `let percent = done * 100 / self.total;` divides by `total` without checking it. `total` is 0 when no zoom is selected: `min_zoom..=max_zoom` is empty when `min_zoom > max_zoom`, and nothing rejects that. The final `info!("{progress}")` at line 353 then divides by zero under the default `martin_cp=info` filter (line 404), so the `--set-meta` writes of lines 355-358 and the hash update never happen. | `--min-zoom 5 --max-zoom 3` | an empty run is complete: report 100%, which agrees with the "done" suffix the same line already prints because `left == 0` | medium (not executed) | ProgressReport.PercentAsWritten, TileCopy.EmptyZoomRangeDividesByZero, TileCopy.EmptyZoomRangeCopiesNothing, ProgressReport.NothingToCopy | ProgressReport.Percent |
