/** The data model shared by the synchronisation engine: price cells, the
    two granularities, provider responses (named columns of cells) and the
    nine-column rows the stores hold. Timestamps are integer seconds in UTC. */
module Bars {

  datatype Option<T> = None | Some(value: T)

  /** One cell of a provider response or a store row: a missing value
      (NaN / NaT) or a value. Prices are opaque integers; their arithmetic is
      never used. */
  datatype Cell = Missing | Value(v: int)

  datatype Granularity = Daily | Hourly

  const Day: int := 86400
  const Hour: int := 3600

  /** The label stamped into the `interval` column of every row. */
  function Label(g: Granularity): string {
    match g
    case Daily => "daily"
    case Hourly => "hourly"
  }

  /** The name of the time column of each store. */
  function TimeColumn(g: Granularity): string {
    match g
    case Daily => "Date"
    case Hourly => "Datetime"
  }

  /** The header of each store, in file order. */
  function Schema(g: Granularity): (h: seq<string>)
    ensures |h| == 9 && h[0] == "ticker" && h[1] == "interval" && h[2] == TimeColumn(g)
  {
    ["ticker", "interval", TimeColumn(g), "Adj Close", "Close", "High", "Low", "Open", "Volume"]
  }

  /** One stored bar; the fields are the nine columns of Schema, in order. */
  datatype Row = Row(
    ticker: string,
    interval: string,
    time: Cell,
    adjClose: Cell,
    close: Cell,
    high: Cell,
    low: Cell,
    open: Cell,
    volume: int)

  /** A named column of a provider response. */
  datatype Column = Column(name: string, cells: seq<Cell>)

  datatype RawFrame = RawFrame(columns: seq<Column>, height: nat)

  predicate Rectangular(f: RawFrame) {
    forall i :: 0 <= i < |f.columns| ==> |f.columns[i].cells| == f.height
  }

  /** A provider response after `reset_index` and header flattening: every
      column has one cell per bar. */
  type Frame = f: RawFrame | Rectangular(f) witness RawFrame([], 0)

  /** `DataFrame.empty`: no columns or no rows. */
  predicate IsEmpty(f: Frame) {
    |f.columns| == 0 || f.height == 0
  }

  /** The first second of the day holding `t` (the daily formatter keeps only
      the date of each bar). */
  function DayStart(t: int): int {
    t - t % Day
  }

  /** DayStart is the midnight that starts the day of `t`. */
  lemma DayStartBounds(t: int)
    ensures DayStart(t) <= t < DayStart(t) + Day && DayStart(t) % Day == 0
  {
  }
}
