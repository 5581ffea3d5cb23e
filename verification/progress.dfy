/** The counters of a copy run (`Progress`) and the integer part of its status
    line. Elapsed time, speed and the remaining-time estimate are floating point
    and are not modelled. */
module ProgressReport {
  import opened Wrappers
  import opened Tiles

  /** The counters the status line reads. */
  datatype Progress = Progress(total: nat, empty: nat, nonEmpty: nat)

  /** `Progress::new`: `total` is the number of tiles the rectangles cover. */
  function NewProgress(tiles: seq<TileRect>): (p: Progress)
    requires AllValid(tiles)
    ensures p.total == |IterateTiles(tiles)|
    ensures p.empty == 0 && p.nonEmpty == 0
  {
    IterateTilesCount(tiles);
    Progress(TotalSize(tiles), 0, 0)
  }

  function Done(p: Progress): nat {
    p.nonEmpty + p.empty
  }

  /** `done * 100 / self.total` as written: `None` stands for the panic of an
      integer division by zero when `total` is 0. */
  function PercentAsWritten(done: nat, total: nat): (r: Option<nat>)
    ensures r.None? <==> total == 0
    ensures r.Some? ==> r.value * total <= done * 100 < (r.value + 1) * total
  {
    if total == 0 then None
    else
      var q := done * 100 / total;
      assert done * 100 == q * total + done * 100 % total;
      Some(q)
  }

  /** The completed percentage, rounded down; an empty run (nothing to copy) is
      complete. */
  function Percent(done: nat, total: nat): (r: nat)
    requires done <= total
    ensures r <= 100
    ensures r == 100 <==> done == total
    ensures total > 0 ==> r * total <= done * 100 < (r + 1) * total
  {
    if total == 0 then 100
    else
      PercentAsWritten(done, total).value
  }

  /** With nothing to copy the source's division is undefined; the corrected
      status line reports the run as done at 100%. */
  lemma NothingToCopy()
    ensures PercentAsWritten(0, 0).None?
    ensures Status(Progress(0, 0, 0)) == StatusLine(100, 0, 0, Finished)
  {
  }

  /** Where the division is defined, the corrected percentage is the one the
      source computes. */
  lemma PercentAgreesWhenDefined(done: nat, total: nat)
    requires done <= total && total > 0
    ensures PercentAsWritten(done, total) == Some(Percent(done, total))
  {
  }

  lemma MulCancel(a: int, b: int, c: int)
    requires c > 0 && a * c < b * c
    ensures a < b
  {
  }

  /** Rounding down keeps the percentage monotone: copying more never lowers it. */
  lemma PercentMonotone(d1: nat, d2: nat, total: nat)
    requires d1 <= d2 <= total
    ensures Percent(d1, total) <= Percent(d2, total)
  {
    if total > 0 {
      var p1, p2 := Percent(d1, total), Percent(d2, total);
      assert p1 * total < (p2 + 1) * total by {
        assert p1 * total <= d1 * 100 <= d2 * 100 < (p2 + 1) * total;
      }
      MulCancel(p1, p2 + 1, total);
    }
  }

  /** The tail of the status line. */
  datatype Suffix =
    | Finished             // " | done"
    | LeftUnknown          // " | ??? left"
    | LeftEta(left: nat)   // " | {eta} left", the estimate from `left` tiles

  /** `left = total - done`; it is 0 exactly when the run is complete, and no
      estimate is possible before the first tile. */
  function StatusSuffix(p: Progress): (r: Suffix)
    requires Done(p) <= p.total
    ensures r.Finished? <==> Done(p) == p.total
    ensures r.LeftUnknown? <==> Done(p) == 0 < p.total
    ensures r.LeftEta? ==> 0 < Done(p) < p.total && r.left + Done(p) == p.total
  {
    var left := p.total - Done(p);
    if left == 0 then Finished
    else if Done(p) == 0 then LeftUnknown
    else LeftEta(left)
  }

  /** The integer fields of one status line. */
  datatype StatusLine = StatusLine(percent: nat, nonEmpty: nat, empty: nat, suffix: Suffix)

  /** The status line of `Display for Progress`, integer part only, with the
      corrected percentage: it reports 100% exactly when it reports "done",
      "??? left" before the first tile, an estimate for the tiles still left
      otherwise, and whenever there is something to copy its percentage is the
      one the source computes. With nothing to copy the source divides by zero instead (see
      `PercentAsWritten`). */
  function Status(p: Progress): (r: StatusLine)
    requires Done(p) <= p.total
    ensures r.nonEmpty == p.nonEmpty && r.empty == p.empty
    ensures r.percent <= 100
    ensures r.percent == 100 <==> r.suffix.Finished?
    ensures r.suffix.Finished? <==> Done(p) == p.total
    ensures r.suffix.LeftUnknown? <==> Done(p) == 0 < p.total
    ensures r.suffix.LeftEta? ==> r.suffix.left == p.total - Done(p) && 0 < Done(p)
    ensures p.total > 0 ==> r.percent * p.total <= Done(p) * 100 < (r.percent + 1) * p.total
    ensures p.total > 0 ==> PercentAsWritten(Done(p), p.total) == Some(r.percent)
  {
    StatusLine(Percent(Done(p), p.total), p.nonEmpty, p.empty, StatusSuffix(p))
  }
}
