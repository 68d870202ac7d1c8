/** The CPU sampler's rows placed in time (bench/scale/extract-lane-e.py): `mpstat_rows` rebuilds epoch
    seconds from printed times of day, `windowed_idle` keeps the rows inside a window. */
module CpuRows {
  import opened Results

  const DAY := 86400

  /** An `all` row: the printed time of day, in seconds, and the idle share. */
  datatype Printed = Printed(secs: int, idle: real)

  /** A line of the sampler's output. */
  datatype Line = All(row: Printed) | Average(idle: real) | Other

  /** The stream's start and the midnight before it, in epoch seconds; absent when unreadable. */
  datatype Start = Start(at: real, midnight: int)

  datatype Row = Row(end: Option<int>, idle: real)

  // ---------------------------------------------------------------------------
  // The reference: one row at a time
  // ---------------------------------------------------------------------------

  function AllLines(lines: seq<Line>): (r: seq<Printed>) {
    if lines == [] then []
    else
      var last := lines[|lines| - 1];
      AllLines(lines[..|lines| - 1]) + if last.All? then [last.row] else []
  }

  function Averages(lines: seq<Line>): (r: seq<real>) {
    if lines == [] then []
    else
      var last := lines[|lines| - 1];
      Averages(lines[..|lines| - 1]) + if last.Average? then [last.idle] else []
  }

  /** Where row `k` is placed: a day later whenever the time of day went back. */
  function Placed(start: Start, rows: seq<Printed>, k: nat): (t: int)
    requires k < |rows|
  {
    if k == 0 then
      start.midnight + rows[0].secs + if (start.midnight + rows[0].secs) as real < start.at - 1.0 then DAY else 0
    else
      Placed(start, rows, k - 1) + rows[k].secs - rows[k - 1].secs + if rows[k].secs < rows[k - 1].secs then DAY else 0
  }

  lemma {:induction false} PlacedPrefix(start: Start, rows: seq<Printed>, last: Printed, k: nat)
    requires k < |rows|
    ensures Placed(start, rows + [last], k) == Placed(start, rows, k)
  {
    if k > 0 { PlacedPrefix(start, rows, last, k - 1); }
  }

  function RowAt(start: Option<Start>, all: seq<Printed>, k: nat): (r: Row)
    requires k < |all|
  {
    Row(if start.None? then None else Some(Placed(start.value, all, k)), all[k].idle)
  }

  ghost predicate RowsAre(rows: seq<Row>, start: Option<Start>, all: seq<Printed>) {
    |rows| == |all| && forall k :: 0 <= k < |all| ==> rows[k] == RowAt(start, all, k)
  }

  /** Where a row goes that follows the rows `all`. */
  function Next(start: Start, all: seq<Printed>, secs: int): (t: int) {
    if all == [] then start.midnight + secs + if (start.midnight + secs) as real < start.at - 1.0 then DAY else 0
    else
      var n := |all| - 1;
      Placed(start, all, n) + secs - all[n].secs + if secs < all[n].secs then DAY else 0
  }

  lemma RowAdded(rows: seq<Row>, start: Option<Start>, all: seq<Printed>, line: Printed)
    requires RowsAre(rows, start, all)
    ensures RowsAre(rows + [RowAt(start, all + [line], |all|)], start, all + [line])
    ensures start.Some? ==> Placed(start.value, all + [line], |all|) == Next(start.value, all, line.secs)
  {
    forall i | 0 <= i < |all| ensures RowAt(start, all + [line], i) == RowAt(start, all, i) {
      if start.Some? { PlacedPrefix(start.value, all, line, i); }
    }
    if start.Some? && all != [] { PlacedPrefix(start.value, all, line, |all| - 1); }
    hide RowAt;
  }

  /** The last time of day and the days passed, as they stand after the rows `all`. */
  ghost predicate Keeps(start: Start, all: seq<Printed>, prev: Option<int>, offset: int) {
    if all == [] then prev == None && offset == 0
    else prev == Some(all[|all| - 1].secs) && start.midnight + offset + prev.value == Placed(start, all, |all| - 1)
  }

  lemma LineAdded(lines: seq<Line>, k: nat)
    requires k < |lines|
    ensures AllLines(lines[..k + 1]) == AllLines(lines[..k]) + if lines[k].All? then [lines[k].row] else []
    ensures Averages(lines[..k + 1]) == Averages(lines[..k]) + if lines[k].Average? then [lines[k].idle] else []
  {
    assert lines[..k + 1][..k] == lines[..k];
  }

  lemma Placing(start: Start, all: seq<Printed>, row: Printed, prev: Option<int>, offset: int, next: int)
    requires Keeps(start, all, prev, offset)
    requires next == offset + if (prev.None? && (start.midnight + row.secs) as real < start.at - 1.0)
                                 || (prev.Some? && row.secs < prev.value) then DAY else 0
    ensures start.midnight + next + row.secs == Next(start, all, row.secs)
    ensures Keeps(start, all + [row], Some(row.secs), next)
  {
    if all != [] { PlacedPrefix(start, all, row, |all| - 1); }
  }

  /** `mpstat_rows`: one pass that remembers the last time of day and the days passed. */
  method MpstatRows(start: Option<Start>, lines: seq<Line>) returns (rows: seq<Row>, averages: seq<real>)
    ensures RowsAre(rows, start, AllLines(lines))
    ensures averages == Averages(lines)
  {
    rows, averages := [], [];
    var prev: Option<int> := None;
    var offset := 0;
    ghost var all: seq<Printed> := [];
    for k := 0 to |lines|
      invariant all == AllLines(lines[..k]) && averages == Averages(lines[..k])
      invariant RowsAre(rows, start, all)
      invariant start.Some? ==> Keeps(start.value, all, prev, offset)
    {
      LineAdded(lines, k);
      hide AllLines, Averages, Placed, RowsAre, Keeps, Next;
      match lines[k]
      case Average(idle) =>
        averages := averages + [idle];
      case All(row) =>
        RowAdded(rows, start, all, row);
        if start.None? {
          rows := rows + [Row(None, row.idle)];
        } else {
          var midnight := start.value.midnight;
          ghost var was := offset;
          if prev.None? && (midnight + row.secs) as real < start.value.at - 1.0 {
            offset := offset + DAY;
          } else if prev.Some? && row.secs < prev.value {
            offset := offset + DAY;
          }
          Placing(start.value, all, row, prev, was, offset);
          prev := Some(row.secs);
          rows := rows + [Row(Some(midnight + offset + row.secs), row.idle)];
        }
        all := all + [row];
      case Other =>
    }
    assert lines[..|lines|] == lines;
  }

  // ---------------------------------------------------------------------------
  // When the placed times are the true ones
  // ---------------------------------------------------------------------------

  /** `times` are the true epoch seconds of the rows, each printed as its time of day. */
  ghost predicate Prints(start: Start, rows: seq<Printed>, times: seq<int>) {
    && |times| == |rows|
    && (forall k :: 0 <= k < |rows| ==> rows[k].secs == (times[k] - start.midnight) % DAY)
  }

  /** The first row is on the stream's own day and no more than a second early, or on the next day and
      less than a day minus a second after the start. */
  ghost predicate FirstInReach(start: Start, t: int) {
    || (0 <= t - start.midnight < DAY && t as real >= start.at - 1.0)
    || (DAY <= t - start.midnight < 2 * DAY && t as real < start.at + 86399.0)
  }

  ghost predicate InReach(start: Start, times: seq<int>) {
    && (times != [] ==> FirstInReach(start, times[0]))
    && (forall k :: 0 < k < |times| ==> 0 <= times[k] - times[k - 1] < DAY)
  }

  lemma FirstPlaced(start: Start, rows: seq<Printed>, times: seq<int>)
    requires Prints(start, rows, times) && rows != []
    ensures Placed(start, rows, 0) == times[0] <==> FirstInReach(start, times[0])
  {
    var d := times[0] - start.midnight;
    assert d == DAY * (d / DAY) + d % DAY;
  }

  /** Two true times a day or more apart, or out of order, print like ones that are not. */
  lemma NextPlaced(start: Start, rows: seq<Printed>, times: seq<int>, k: nat)
    requires Prints(start, rows, times) && 0 < k < |rows|
    ensures Placed(start, rows, k) - Placed(start, rows, k - 1) == (times[k] - times[k - 1]) % DAY
    ensures Placed(start, rows, k) - Placed(start, rows, k - 1) == times[k] - times[k - 1] <==>
            0 <= times[k] - times[k - 1] < DAY
  {
    var a, b := times[k - 1] - start.midnight, times[k] - start.midnight;
    var gap := b - a;
    assert a == DAY * (a / DAY) + a % DAY && b == DAY * (b / DAY) + b % DAY;
    assert gap == DAY * (gap / DAY) + gap % DAY;
    assert rows[k].secs == b % DAY && rows[k - 1].secs == a % DAY;
    var q := b / DAY - a / DAY - gap / DAY;
    assert b % DAY - a % DAY - gap % DAY == -DAY * q;
  }

  /** Every row gets its true second, across any number of midnights, exactly when the first row is in
      reach of the stream's start and each next one follows within a day. */
  lemma RecoveredIff(start: Start, rows: seq<Printed>, times: seq<int>)
    requires Prints(start, rows, times)
    ensures (forall k :: 0 <= k < |rows| ==> Placed(start, rows, k) == times[k]) <==> InReach(start, times)
  {
    if rows != [] { FirstPlaced(start, rows, times); }
    forall k | 0 < k < |rows|
      ensures Placed(start, rows, k) - Placed(start, rows, k - 1) == times[k] - times[k - 1] <==>
              0 <= times[k] - times[k - 1] < DAY
    {
      NextPlaced(start, rows, times, k);
    }
    assert |times| == |rows|;
    hide Prints, FirstInReach, Placed;
    if InReach(start, times) {
      forall k | 0 <= k < |rows| ensures Placed(start, rows, k) == times[k] { Chain(start, rows, times, k); }
    }
  }

  lemma {:induction false} Chain(start: Start, rows: seq<Printed>, times: seq<int>, k: nat)
    requires k < |rows| == |times|
    requires Placed(start, rows, 0) == times[0]
    requires forall i :: 0 < i < |rows| ==>
               Placed(start, rows, i) - Placed(start, rows, i - 1) == times[i] - times[i - 1]
    ensures Placed(start, rows, k) == times[k]
  {
    if k > 0 { Chain(start, rows, times, k - 1); }
  }

  /** A row printed from the stream's start to under 86399 seconds after it is in reach. */
  lemma StartIsInReach(start: Start, t: int)
    requires start.midnight as real <= start.at < (start.midnight + DAY) as real
    requires start.at <= t as real < start.at + 86399.0
    ensures FirstInReach(start, t)
  {
  }

  /** Two rows a day apart print alike, and the second is placed a day too early. */
  lemma DayLost()
    ensures
      var start := Start(10.0, 0);
      var rows := [Printed(10, 50.0), Printed(10, 50.0)];
      var times := [10, 10 + DAY];
      Prints(start, rows, times) && Placed(start, rows, 1) == times[1] - DAY
  {
    var start := Start(10.0, 0);
    var rows := [Printed(10, 50.0), Printed(10, 50.0)];
    assert Placed(start, rows, 0) == 10;
  }

  // ---------------------------------------------------------------------------
  // The rows inside a window
  // ---------------------------------------------------------------------------

  /** The printed second is truncated: the row's interval ended somewhere in `[t, t + 1)`, a second
      after it began, and every such interval lies in the window. */
  ghost predicate Inside(t: int, lo: real, hi: real) {
    forall e: real :: t as real <= e < t as real + 1.0 ==> SecondInside(e, lo, hi)
  }

  predicate SecondInside(e: real, lo: real, hi: real) {
    lo <= e - 1.0 && e <= hi
  }

  predicate Kept(row: Row, lo: real, hi: real) {
    row.end.Some? && (row.end.value - 1) as real >= lo && (row.end.value + 1) as real <= hi
  }

  /** The test on the printed second keeps exactly the rows that cannot have sampled outside. */
  lemma KeptIff(row: Row, lo: real, hi: real)
    ensures Kept(row, lo, hi) <==> row.end.Some? && Inside(row.end.value, lo, hi)
  {
    if row.end.Some? && Inside(row.end.value, lo, hi) {
      var t := row.end.value as real;
      assert SecondInside(t, lo, hi);
      var e := (hi + t + 1.0) / 2.0;
      assert t <= e < t + 1.0 ==> SecondInside(e, lo, hi);
    }
  }

  function KeptIdles(rows: seq<Row>, lo: real, hi: real): (r: seq<real>) {
    if rows == [] then []
    else
      var last := rows[|rows| - 1];
      KeptIdles(rows[..|rows| - 1], lo, hi) + if Kept(last, lo, hi) then [last.idle] else []
  }

  function PlacedRows(start: Option<Start>, all: seq<Printed>): (r: seq<Row>)
    ensures RowsAre(r, start, all)
  {
    seq(|all|, k requires 0 <= k < |all| => RowAt(start, all, k))
  }

  /** `windowed_idle`: the idle figures of the kept rows, in order. */
  method WindowedIdle(start: Option<Start>, lines: seq<Line>, lo: real, hi: real) returns (idles: seq<real>)
    ensures idles == KeptIdles(PlacedRows(start, AllLines(lines)), lo, hi)
  {
    var rows, _ := MpstatRows(start, lines);
    assert rows == PlacedRows(start, AllLines(lines));
    idles := [];
    for k := 0 to |rows|
      invariant idles == KeptIdles(rows[..k], lo, hi)
    {
      assert rows[..k + 1][..k] == rows[..k];
      if Kept(rows[k], lo, hi) {
        idles := idles + [rows[k].idle];
      }
    }
    assert rows[..|rows|] == rows;
  }

  /** In reach, a row is kept exactly when its true second cannot have sampled outside the window. */
  lemma KeptIsTrue(start: Start, all: seq<Printed>, times: seq<int>, rows: seq<Row>, lo: real, hi: real, k: nat)
    requires Prints(start, all, times) && InReach(start, times) && RowsAre(rows, Some(start), all) && k < |all|
    ensures Kept(rows[k], lo, hi) <==> Inside(times[k], lo, hi)
  {
    RecoveredIff(start, all, times);
    KeptIff(rows[k], lo, hi);
    hide Inside, Kept, Prints, InReach, Placed;
  }
}
