/** The discrete part of the feature generator (`generate.py`): on-balance
    volume, the per-ticker observation and recency filters over the daily
    rows, the lag columns added to a feature frame and the drop of rows
    missing a critical value. Prices are opaque integers, and dates are
    integer seconds. */
module Features {
  import opened Text
  import opened Bars

  // ---------------------------------------------------------------------
  // On-balance volume

  /** The change of the running total at one bar: plus the volume on a
      rise, minus it on a fall, nothing when the close is unchanged. */
  function ObvDelta(current: int, previous: int, vol: int): (d: int)
    ensures current > previous ==> d == vol
    ensures current < previous ==> d == -vol
    ensures current == previous ==> d == 0
  {
    if current > previous then vol else if current < previous then -vol else 0
  }

  /** Reference definition of the indicator at bar `i`. */
  function ObvAt(close: seq<int>, volume: seq<int>, i: nat): int
    requires i == 0 || (i < |close| && i < |volume|)
    decreases i
  {
    if i == 0 then 0 else ObvAt(close, volume, i - 1) + ObvDelta(close[i], close[i - 1], volume[i])
  }

  /** `pd.Series(obv_values, index=close.index)` accepts the values only when
      there is one per close: `zip` stops at the shorter input, so this
      holds for a single close or for at least as many volumes as closes. */
  predicate ObvDefined(close: seq<int>, volume: seq<int>) {
    |close| == 1 || (|close| >= 2 && |volume| >= |close|)
  }

  /** `obv(close, volume)`: start at 0 and accumulate one delta per pair of
      consecutive closes; None where the series constructor raises. */
  method Obv(close: seq<int>, volume: seq<int>) returns (r: Option<seq<int>>)
    ensures r.Some? <==> ObvDefined(close, volume)
    ensures r.Some? ==> |r.value| == |close| && forall i :: 0 <= i < |close| ==> r.value[i] == ObvAt(close, volume, i)
    ensures r.Some? ==> r.value[0] == 0 && forall i :: 1 <= i < |close| ==>
              r.value[i] == r.value[i - 1] + ObvDelta(close[i], close[i - 1], volume[i])
  {
    var values := [0];
    var shorter := if |close| < |volume| then |close| else |volume|;
    var steps := if shorter > 0 then shorter - 1 else 0;
    for k := 0 to steps
      invariant |values| == k + 1
      invariant forall i :: 0 <= i <= k ==> values[i] == ObvAt(close, volume, i)
    {
      var current, previous, vol := close[k + 1], close[k], volume[k + 1];
      if current > previous {
        values := values + [values[|values| - 1] + vol];
      } else if current < previous {
        values := values + [values[|values| - 1] - vol];
      } else {
        values := values + [values[|values| - 1]];
      }
    }
    if |values| != |close| {
      return None;
    }
    forall i | 1 <= i < |close|
      ensures values[i] == values[i - 1] + ObvDelta(close[i], close[i - 1], volume[i])
    {
      assert values[i] == ObvAt(close, volume, i);
    }
    return Some(values);
  }

  /** `sum(volume[1 : i + 1])`. */
  function VolumeSince(volume: seq<int>, i: nat): int
    requires i < |volume| || i == 0
    decreases i
  {
    if i == 0 then 0 else VolumeSince(volume, i - 1) + volume[i]
  }

  /** With non-negative volumes the indicator never leaves the band of the
      volume traded since the first bar: it reaches the top when the close
      rises at every bar and stays at 0 when the close never moves. */
  lemma {:induction false} ObvBounds(close: seq<int>, volume: seq<int>, i: nat)
    requires i == 0 || (i < |close| && i < |volume|)
    requires forall j :: 0 <= j < |volume| ==> volume[j] >= 0
    ensures -VolumeSince(volume, i) <= ObvAt(close, volume, i) <= VolumeSince(volume, i)
    ensures (forall j :: 1 <= j <= i ==> close[j] > close[j - 1]) ==> ObvAt(close, volume, i) == VolumeSince(volume, i)
    ensures (forall j :: 1 <= j <= i ==> close[j] == close[j - 1]) ==> ObvAt(close, volume, i) == 0
    decreases i
  {
    if i > 0 {
      ObvBounds(close, volume, i - 1);
    }
  }

  // ---------------------------------------------------------------------
  // Ticker filters over the daily rows

  /** The number of rows of symbol `t`. */
  function CountOf(rows: seq<Row>, t: string): (n: nat)
    ensures n <= |rows|
    decreases |rows|
  {
    if |rows| == 0 then 0
    else CountOf(rows[..|rows| - 1], t) + (if rows[|rows| - 1].ticker == t then 1 else 0)
  }

  /** `x[date_col].max()` for the rows of `t`: the latest date, None when no
      row of `t` has one (NaT is skipped). */
  function LatestDate(rows: seq<Row>, t: string): (d: Option<int>)
    decreases |rows|
  {
    if |rows| == 0 then None
    else
      var x := rows[|rows| - 1];
      var m := LatestDate(rows[..|rows| - 1], t);
      if x.ticker == t && x.time.Value? then
        Some(if m.Some? && m.value > x.time.v then m.value else x.time.v)
      else m
  }

  /** The latest date is the date of some row of the symbol and no row of it
      is later; there is none exactly when no row of it has a date. */
  lemma {:induction false} LatestDateIsMax(rows: seq<Row>, t: string)
    ensures LatestDate(rows, t).Some? ==>
              exists i :: 0 <= i < |rows| && rows[i].ticker == t && rows[i].time == Value(LatestDate(rows, t).value)
    ensures LatestDate(rows, t).Some? ==>
              forall i :: 0 <= i < |rows| && rows[i].ticker == t && rows[i].time.Value? ==> rows[i].time.v <= LatestDate(rows, t).value
    ensures LatestDate(rows, t).None? <==> forall i :: 0 <= i < |rows| && rows[i].ticker == t ==> rows[i].time.Missing?
    decreases |rows|
  {
    if |rows| > 0 {
      var n := |rows| - 1;
      LatestDateIsMax(rows[..n], t);
      assert forall i :: 0 <= i < n ==> rows[..n][i] == rows[i];
    }
  }

  /** The symbols of a set of rows. */
  function TickersOf(rows: seq<Row>): set<string> {
    set x | x in rows :: x.ticker
  }

  /** The rows whose symbol is in `ts`, in order (a `groupby(...).filter`
      keeps or drops whole groups and leaves the row order as it was). */
  function OfTickers(rows: seq<Row>, ts: set<string>): (r: seq<Row>)
    ensures |r| <= |rows|
    decreases |rows|
  {
    if |rows| == 0 then []
    else OfTickers(rows[..|rows| - 1], ts) + (if rows[|rows| - 1].ticker in ts then [rows[|rows| - 1]] else [])
  }

  /** Selecting symbols keeps exactly the rows of the selected symbols. */
  lemma {:induction false} OfTickersMembers(rows: seq<Row>, ts: set<string>)
    ensures forall x :: x in OfTickers(rows, ts) <==> x in rows && x.ticker in ts
    decreases |rows|
  {
    if |rows| > 0 {
      var n := |rows| - 1;
      OfTickersMembers(rows[..n], ts);
      assert rows == rows[..n] + [rows[n]];
    }
  }

  /** Selecting symbols keeps all rows of a selected symbol and none of any
      other symbol. */
  lemma {:induction false} OfTickersCount(rows: seq<Row>, ts: set<string>, t: string)
    ensures CountOf(OfTickers(rows, ts), t) == if t in ts then CountOf(rows, t) else 0
    decreases |rows|
  {
    if |rows| > 0 {
      var n := |rows| - 1;
      OfTickersCount(rows[..n], ts, t);
      var front := OfTickers(rows[..n], ts);
      var r := OfTickers(rows, ts);
      if rows[n].ticker in ts {
        assert r[..|r| - 1] == front;
      } else {
        assert r == front;
      }
    }
  }

  /** A selected symbol keeps its latest date. */
  lemma {:induction false} OfTickersLatest(rows: seq<Row>, ts: set<string>, t: string)
    requires t in ts
    ensures LatestDate(OfTickers(rows, ts), t) == LatestDate(rows, t)
    decreases |rows|
  {
    if |rows| > 0 {
      var n := |rows| - 1;
      OfTickersLatest(rows[..n], ts, t);
      var front := OfTickers(rows[..n], ts);
      var r := OfTickers(rows, ts);
      if rows[n].ticker in ts {
        assert r[..|r| - 1] == front;
      } else {
        assert r == front;
      }
    }
  }

  /** `d >= last_date`; a missing latest date (NaT) compares false. */
  predicate NotBefore(d: Option<int>, bound: int) {
    d.Some? && d.value >= bound
  }

  /** `filter_active_tickers`: keep the symbols with at least `min_obs`
      rows, then, when `last_date` is given, those among them whose latest
      date is not before it. */
  function FilterActiveTickers(rows: seq<Row>, minObs: int, lastDate: Option<int>): seq<Row> {
    var enough := set x | x in rows && CountOf(rows, x.ticker) >= minObs :: x.ticker;
    var df := OfTickers(rows, enough);
    if lastDate.None? then df
    else
      var recent := set x | x in df && NotBefore(LatestDate(df, x.ticker), lastDate.value) :: x.ticker;
      OfTickers(df, recent)
  }

  /** Whether the filter keeps symbol `t`. */
  predicate Active(rows: seq<Row>, t: string, minObs: int, lastDate: Option<int>) {
    CountOf(rows, t) >= minObs && (lastDate.None? || NotBefore(LatestDate(rows, t), lastDate.value))
  }

  /** The filter keeps every row of an active symbol and no row of any other
      symbol; the rows kept are the input's own rows. */
  lemma FilterActiveIff(rows: seq<Row>, minObs: int, lastDate: Option<int>, t: string)
    ensures forall x :: x in FilterActiveTickers(rows, minObs, lastDate) <==>
              x in rows && Active(rows, x.ticker, minObs, lastDate)
    ensures t in TickersOf(rows) ==>
              CountOf(FilterActiveTickers(rows, minObs, lastDate), t) ==
                (if Active(rows, t, minObs, lastDate) then CountOf(rows, t) else 0)
  {
    var enough := set x | x in rows && CountOf(rows, x.ticker) >= minObs :: x.ticker;
    var df := OfTickers(rows, enough);
    OfTickersMembers(rows, enough);
    OfTickersCount(rows, enough, t);
    forall u | u in enough
      ensures LatestDate(df, u) == LatestDate(rows, u) && CountOf(df, u) == CountOf(rows, u)
    {
      OfTickersLatest(rows, enough, u);
      OfTickersCount(rows, enough, u);
    }
    if lastDate.Some? {
      var recent := set x | x in df && NotBefore(LatestDate(df, x.ticker), lastDate.value) :: x.ticker;
      OfTickersMembers(df, recent);
      OfTickersCount(df, recent, t);
    }
  }

  /** With `last_date` given, every symbol that survives has a date on or
      after it. */
  lemma SurvivorsAreRecent(rows: seq<Row>, minObs: int, last: int)
    ensures forall x :: x in FilterActiveTickers(rows, minObs, Some(last)) ==>
              NotBefore(LatestDate(rows, x.ticker), last) && CountOf(rows, x.ticker) >= minObs
  {
    FilterActiveIff(rows, minObs, Some(last), "");
  }

  /** A symbol is stale when its latest date is before the cutoff
      (`max_dates_per_ticker < stale_cutoff`). */
  predicate Stale(rows: seq<Row>, t: string, cutoff: int) {
    LatestDate(rows, t).Some? && LatestDate(rows, t).value < cutoff
  }

  /** The stale-symbol exclusion: drop the rows of every symbol whose latest
      date is more than `staleDays` days before the reference date. */
  function ExcludeStale(rows: seq<Row>, reference: int, staleDays: int): seq<Row> {
    var cutoff := reference - staleDays * Day;
    var stale := set x | x in rows && Stale(rows, x.ticker, cutoff) :: x.ticker;
    OfTickers(rows, TickersOf(rows) - stale)
  }

  /** The exclusion removes exactly the rows of stale symbols and keeps
      every row of the others. */
  lemma ExcludeStaleIff(rows: seq<Row>, reference: int, staleDays: int, t: string)
    ensures forall x :: x in ExcludeStale(rows, reference, staleDays) <==>
              x in rows && !Stale(rows, x.ticker, reference - staleDays * Day)
    ensures CountOf(ExcludeStale(rows, reference, staleDays), t) ==
              (if Stale(rows, t, reference - staleDays * Day) then 0 else CountOf(rows, t))
  {
    var cutoff := reference - staleDays * Day;
    var stale := set x | x in rows && Stale(rows, x.ticker, cutoff) :: x.ticker;
    OfTickersMembers(rows, TickersOf(rows) - stale);
    OfTickersCount(rows, TickersOf(rows) - stale, t);
    if t !in TickersOf(rows) {
      CountOfAbsent(rows, t);
    }
  }

  /** A symbol without rows has none to count. */
  lemma {:induction false} CountOfAbsent(rows: seq<Row>, t: string)
    requires t !in TickersOf(rows)
    ensures CountOf(rows, t) == 0
    decreases |rows|
  {
    if |rows| > 0 {
      var n := |rows| - 1;
      assert rows[n] in rows;
      assert TickersOf(rows[..n]) <= TickersOf(rows) by {
        forall x | x in rows[..n] ensures x in rows {
        }
      }
      CountOfAbsent(rows[..n], t);
    }
  }

  // ---------------------------------------------------------------------
  // Feature frames

  /** The index of the first column named `name`. */
  function Lookup(cols: seq<Column>, name: string): (r: Option<nat>)
    ensures r.Some? ==> r.value < |cols| && cols[r.value].name == name
    decreases |cols|
  {
    if |cols| == 0 then None
    else if cols[0].name == name then Some(0)
    else match Lookup(cols[1..], name)
      case None => None
      case Some(k) => Some(k + 1)
  }

  /** The column found is the first of that name, and none is found exactly
      when no column has the name. */
  lemma {:induction false} LookupFirst(cols: seq<Column>, name: string)
    ensures Lookup(cols, name).Some? ==> forall j :: 0 <= j < Lookup(cols, name).value ==> cols[j].name != name
    ensures Lookup(cols, name).None? <==> forall j :: 0 <= j < |cols| ==> cols[j].name != name
    decreases |cols|
  {
    if |cols| > 0 && cols[0].name != name {
      LookupFirst(cols[1..], name);
      assert forall j :: 1 <= j < |cols| ==> cols[j] == cols[1..][j - 1];
    }
  }

  /** `df[name]`, or None when that raises `KeyError`. */
  function CellsNamed(f: Frame, name: string): (r: Option<seq<Cell>>)
    ensures r.Some? ==> |r.value| == f.height
  {
    match Lookup(f.columns, name)
    case None => None
    case Some(k) => Some(f.columns[k].cells)
  }

  /** `series.shift(lag)`: the value `lag` rows earlier (later for a
      negative lag), missing where that row does not exist. */
  function Shift(cells: seq<Cell>, lag: int): (r: seq<Cell>)
    ensures |r| == |cells|
  {
    seq(|cells|, i requires 0 <= i < |cells| => if 0 <= i - lag < |cells| then cells[i - lag] else Missing)
  }

  /** Shifting by 0 changes nothing, shifting by the whole length or more
      leaves nothing, and two shifts in the same direction add up. */
  lemma ShiftLaws(cells: seq<Cell>, a: int, b: int)
    ensures Shift(cells, 0) == cells
    ensures a >= |cells| || -a >= |cells| ==> forall i :: 0 <= i < |cells| ==> Shift(cells, a)[i] == Missing
    ensures a >= 0 && b >= 0 ==> Shift(Shift(cells, a), b) == Shift(cells, a + b)
    ensures forall i :: 0 <= i < |cells| && 0 <= i - a < |cells| ==> Shift(cells, a)[i] == cells[i - a]
  {
  }

  /** `f"{col}_lag_{lag}"`. */
  function LagName(col: string, lag: int): string
  {
    col + "_lag_" + IntToString(lag)
  }

  /** The underscore before the lag is the last one of a lag name: the
      rendering of an integer has none. */
  lemma LastUnderscore(col: string, lag: int)
    ensures LagName(col, lag)[|col| + 4] == '_'
    ensures forall j :: |col| + 4 < j < |LagName(col, lag)| ==> LagName(col, lag)[j] != '_'
    ensures LagName(col, lag)[|col| + 5..] == IntToString(lag)
  {
    var x := LagName(col, lag);
    var s := IntToString(lag);
    assert forall j :: |col| + 4 < j < |x| ==> x[j] == s[j - |col| - 5];
  }

  /** Distinct (column, lag) pairs name distinct columns: the last
      underscore fixes where the column name ends. */
  lemma LagNameInjective(c1: string, l1: int, c2: string, l2: int)
    requires LagName(c1, l1) == LagName(c2, l2)
    ensures c1 == c2 && l1 == l2
  {
    var x := LagName(c1, l1);
    LastUnderscore(c1, l1);
    LastUnderscore(c2, l2);
    assert x[|c1| + 4] == '_' && x[|c2| + 4] == '_';
    assert |c1| == |c2|;
    assert c1 == x[..|c1|] == c2;
    IntToStringInjective(l1, l2);
  }

  /** `df[name] = cells`: an existing column is replaced where it stands, a
      new one goes at the end. */
  function SetColumn(f: Frame, name: string, cells: seq<Cell>): (r: Frame)
    requires |cells| == f.height
    ensures r.height == f.height
    ensures CellsNamed(r, name) == Some(cells)
  {
    match Lookup(f.columns, name)
    case Some(k) =>
      LookupUpdate(f.columns, k, Column(name, cells), name);
      RawFrame(f.columns[k := Column(name, cells)], f.height)
    case None =>
      LookupSnoc(f.columns, Column(name, cells), name);
      RawFrame(f.columns + [Column(name, cells)], f.height)
  }

  /** Assigning one column leaves every other name as it was. */
  lemma SetColumnOthers(f: Frame, name: string, cells: seq<Cell>, n: string)
    requires |cells| == f.height && n != name
    ensures CellsNamed(SetColumn(f, name, cells), n) == CellsNamed(f, n)
  {
    match Lookup(f.columns, name)
    case Some(k) => LookupUpdate(f.columns, k, Column(name, cells), n);
    case None => LookupSnoc(f.columns, Column(name, cells), n);
  }

  /** Assigning a column keeps every column in its place and adds one
      column exactly when the name was new. */
  lemma SetColumnPlaces(f: Frame, name: string, cells: seq<Cell>)
    requires |cells| == f.height
    ensures |SetColumn(f, name, cells).columns| == |f.columns| + (if CellsNamed(f, name).None? then 1 else 0)
    ensures forall j :: 0 <= j < |f.columns| ==> SetColumn(f, name, cells).columns[j].name == f.columns[j].name
  {
  }

  lemma {:induction false} LookupUpdate(cols: seq<Column>, k: nat, c: Column, n: string)
    requires k < |cols| && c.name == cols[k].name
    ensures Lookup(cols[k := c], n) == Lookup(cols, n)
    decreases |cols|
  {
    if cols[0].name != n {
      if k == 0 {
        assert cols[k := c][1..] == cols[1..];
      } else {
        assert cols[k := c][1..] == cols[1..][k - 1 := c];
        LookupUpdate(cols[1..], k - 1, c, n);
      }
    }
  }

  lemma {:induction false} LookupSnoc(cols: seq<Column>, c: Column, n: string)
    requires Lookup(cols, c.name).None?
    ensures Lookup(cols + [c], n) == if n == c.name then Some(|cols|) else Lookup(cols, n)
    decreases |cols|
  {
    if |cols| == 0 {
      assert (cols + [c])[0] == c;
    } else {
      assert (cols + [c])[1..] == cols[1..] + [c];
      if cols[0].name != n {
        LookupSnoc(cols[1..], c, n);
      }
    }
  }

  /** The inner loop of `add_lag_features` for one column: for each lag in
      turn, read the column and store its shift under the lag name. */
  function LagOne(f: Frame, col: string, lags: seq<int>): (r: Frame)
    requires CellsNamed(f, col).Some?
    ensures r.height == f.height && CellsNamed(r, col) == CellsNamed(f, col)
    decreases |lags|
  {
    if |lags| == 0 then f
    else
      var prev := LagOne(f, col, lags[..|lags| - 1]);
      var l := lags[|lags| - 1];
      var shifted := Shift(CellsNamed(prev, col).value, l);
      SetColumnOthers(prev, LagName(col, l), shifted, col);
      SetColumn(prev, LagName(col, l), shifted)
  }

  /** A column that exists still exists after the lags of `col`. */
  lemma {:induction false} LagOnePresent(f: Frame, col: string, lags: seq<int>, n: string)
    requires CellsNamed(f, col).Some? && CellsNamed(f, n).Some?
    ensures CellsNamed(LagOne(f, col, lags), n).Some?
    decreases |lags|
  {
    if |lags| > 0 {
      var m := |lags| - 1;
      LagOnePresent(f, col, lags[..m], n);
      var prev := LagOne(f, col, lags[..m]);
      if n != LagName(col, lags[m]) {
        SetColumnOthers(prev, LagName(col, lags[m]), Shift(CellsNamed(prev, col).value, lags[m]), n);
      }
    }
  }

  /** The outcome of `add_lag_features`: the frame as it stands, and whether
      the call completed (a missing column read for its first lag raises
      `KeyError` after the earlier columns were already added). */
  datatype LagOutcome = LagOutcome(frame: Frame, ok: bool)

  /** The outer loop of `add_lag_features`, column by column. A column is
      only read inside the loop over the lags, so with no lags a missing
      column raises nothing. */
  function LagAll(f: Frame, cols: seq<string>, lags: seq<int>): (r: LagOutcome)
    ensures r.frame.height == f.height
    decreases |cols|
  {
    if |cols| == 0 then LagOutcome(f, true)
    else
      var prev := LagAll(f, cols[..|cols| - 1], lags);
      var c := cols[|cols| - 1];
      if !prev.ok then prev
      else if CellsNamed(prev.frame, c).None? then LagOutcome(prev.frame, |lags| == 0)
      else LagOutcome(LagOne(prev.frame, c, lags), true)
  }

  /** A missing column with at least one lag ends the call: what the first
      columns left is the outcome of the whole call. */
  lemma {:induction false} LagAllStops(f: Frame, cols: seq<string>, lags: seq<int>, i: nat)
    requires i <= |cols| && !LagAll(f, cols[..i], lags).ok
    ensures LagAll(f, cols, lags) == LagAll(f, cols[..i], lags)
    decreases |cols| - i
  {
    if i < |cols| {
      assert cols[..i + 1][..i] == cols[..i];
      LagAllStops(f, cols, lags, i + 1);
    } else {
      assert cols[..i] == cols;
    }
  }

  /** An explicitly empty lag list reads no column, so the call completes
      and leaves the frame as it was, whatever columns are named. */
  lemma {:induction false} LagAllNoLags(f: Frame, cols: seq<string>)
    ensures LagAll(f, cols, []) == LagOutcome(f, true)
    decreases |cols|
  {
    if |cols| > 0 {
      LagAllNoLags(f, cols[..|cols| - 1]);
    }
  }

  /** A missing column fails the call exactly when it has a lag to read. */
  lemma MissingColumnFails(f: Frame, c: string, lags: seq<int>)
    requires CellsNamed(f, c).None?
    ensures LagAll(f, [c], lags).ok <==> |lags| == 0
    ensures LagAll(f, [c], lags).frame == f
  {
    assert [c][..0] == [];
  }

  /** `lags = [1, 2, 3, 5, 10]` when none are given. */
  const DefaultLags: seq<int> := [1, 2, 3, 5, 10]

  /** For one column: the lag column of `l` holds the column shifted by
      `l`. */
  lemma {:induction false} LagOneLagged(f: Frame, col: string, lags: seq<int>, l: int)
    requires CellsNamed(f, col).Some? && l in lags
    ensures CellsNamed(LagOne(f, col, lags), LagName(col, l)) == Some(Shift(CellsNamed(f, col).value, l))
    decreases |lags|
  {
    var m := |lags| - 1;
    var last := lags[m];
    if LagName(col, l) != LagName(col, last) {
      assert l in lags[..m] by {
        var i :| 0 <= i < |lags| && lags[i] == l;
        assert lags[..m][i] == l;
      }
      LagOneLagged(f, col, lags[..m], l);
      var prev := LagOne(f, col, lags[..m]);
      SetColumnOthers(prev, LagName(col, last), Shift(CellsNamed(prev, col).value, last), LagName(col, l));
    } else {
      LagNameInjective(col, l, col, last);
    }
  }

  /** For one column: a column that is none of its lag columns is
      untouched. */
  lemma {:induction false} LagOneKeeps(f: Frame, col: string, lags: seq<int>, n: string)
    requires CellsNamed(f, col).Some?
    requires forall i :: 0 <= i < |lags| ==> n != LagName(col, lags[i])
    ensures CellsNamed(LagOne(f, col, lags), n) == CellsNamed(f, n)
    decreases |lags|
  {
    if |lags| > 0 {
      var m := |lags| - 1;
      LagOneKeeps(f, col, lags[..m], n);
      var prev := LagOne(f, col, lags[..m]);
      var shifted := Shift(CellsNamed(prev, col).value, lags[m]);
      assert LagOne(f, col, lags) == SetColumn(prev, LagName(col, lags[m]), shifted);
      SetColumnOthers(prev, LagName(col, lags[m]), shifted, n);
    }
  }

  /** An element other than the last is in the front of the sequence. */
  lemma InFront<T>(s: seq<T>, x: T)
    requires x in s && x != s[|s| - 1]
    ensures x in s[..|s| - 1]
  {
    var i :| 0 <= i < |s| && s[i] == x;
    assert s[..|s| - 1][i] == x;
  }

  /** No requested column is itself the lag name of a requested column. */
  predicate NoClash(cols: seq<string>, lags: seq<int>) {
    forall j :: 0 <= j < |cols| ==> NotLagOf(cols[j], cols, lags)
  }

  /** `n` is none of the lag names of the call. */
  predicate NotLagOf(n: string, cols: seq<string>, lags: seq<int>) {
    forall j, i {:trigger LagName(cols[j], lags[i])} :: 0 <= j < |cols| && 0 <= i < |lags| ==> n != LagName(cols[j], lags[i])
  }

  /** A column that exists still exists after the call. */
  lemma {:induction false} LagAllPresent(f: Frame, cols: seq<string>, lags: seq<int>, n: string)
    requires CellsNamed(f, n).Some?
    ensures CellsNamed(LagAll(f, cols, lags).frame, n).Some?
    decreases |cols|
  {
    if |cols| > 0 {
      var m := |cols| - 1;
      LagAllPresent(f, cols[..m], lags, n);
      var prev := LagAll(f, cols[..m], lags);
      if prev.ok && CellsNamed(prev.frame, cols[m]).Some? {
        LagOnePresent(prev.frame, cols[m], lags, n);
      }
    }
  }

  /** When every requested column exists, `add_lag_features` completes. */
  lemma {:induction false} LagAllOk(f: Frame, cols: seq<string>, lags: seq<int>)
    requires forall c :: c in cols ==> CellsNamed(f, c).Some?
    ensures LagAll(f, cols, lags).ok
    decreases |cols|
  {
    if |cols| > 0 {
      var m := |cols| - 1;
      assert forall x :: x in cols[..m] ==> x in cols;
      assert cols[m] in cols;
      LagAllOk(f, cols[..m], lags);
      LagAllPresent(f, cols[..m], lags, cols[m]);
    }
  }

  /** A column that is no lag column of the call is untouched, whether or
      not the call completes. */
  lemma {:induction false} LagAllKeepsName(f: Frame, cols: seq<string>, lags: seq<int>, n: string)
    requires NotLagOf(n, cols, lags)
    ensures CellsNamed(LagAll(f, cols, lags).frame, n) == CellsNamed(f, n)
    decreases |cols|
  {
    if |cols| > 0 {
      var m := |cols| - 1;
      LagAllKeepsName(f, cols[..m], lags, n);
      var prev := LagAll(f, cols[..m], lags);
      var c := cols[m];
      if prev.ok && CellsNamed(prev.frame, c).Some? {
        assert LagAll(f, cols, lags).frame == LagOne(prev.frame, c, lags);
        LagOneKeeps(prev.frame, c, lags, n);
      }
    }
  }

  /** One column of the outer loop, once the earlier columns went through:
      a name that is none of its lag names keeps its cells. */
  lemma LagAllStepKeeps(f: Frame, cols: seq<string>, lags: seq<int>, n: string)
    requires |cols| > 0
    requires var prev := LagAll(f, cols[..|cols| - 1], lags);
      prev.ok && CellsNamed(prev.frame, cols[|cols| - 1]).Some?
    requires forall k :: 0 <= k < |lags| ==> n != LagName(cols[|cols| - 1], lags[k])
    ensures CellsNamed(LagAll(f, cols, lags).frame, n) == CellsNamed(LagAll(f, cols[..|cols| - 1], lags).frame, n)
  {
    var prev := LagAll(f, cols[..|cols| - 1], lags).frame;
    LagOneKeeps(prev, cols[|cols| - 1], lags, n);
  }

  /** One column of the outer loop: each of its lag names receives its
      shifted cells. */
  lemma LagAllStepLagged(f: Frame, cols: seq<string>, lags: seq<int>, l: int)
    requires |cols| > 0 && l in lags
    requires var prev := LagAll(f, cols[..|cols| - 1], lags);
      prev.ok && CellsNamed(prev.frame, cols[|cols| - 1]).Some?
    ensures var prev := LagAll(f, cols[..|cols| - 1], lags).frame;
      CellsNamed(LagAll(f, cols, lags).frame, LagName(cols[|cols| - 1], l)) ==
        Some(Shift(CellsNamed(prev, cols[|cols| - 1]).value, l))
  {
    var prev := LagAll(f, cols[..|cols| - 1], lags).frame;
    LagOneLagged(prev, cols[|cols| - 1], lags, l);
  }

  /** The pair (`cols[j]`, `lags[i]`) gets column `cols[j]` shifted by
      `lags[i]`. */
  lemma {:induction false} LagAllPair(f: Frame, cols: seq<string>, lags: seq<int>, j: nat, i: nat)
    requires forall c :: c in cols ==> CellsNamed(f, c).Some?
    requires NoClash(cols, lags)
    requires j < |cols| && i < |lags|
    ensures CellsNamed(LagAll(f, cols, lags).frame, LagName(cols[j], lags[i])) == Some(Shift(CellsNamed(f, cols[j]).value, lags[i]))
    decreases |cols|
  {
    var m := |cols| - 1;
    var front := cols[..m];
    var c := cols[m];
    var a, l := cols[j], lags[i];
    assert LagAll(f, front, lags).ok && CellsNamed(LagAll(f, front, lags).frame, c) == CellsNamed(f, c) by {
      assert forall x :: x in front ==> x in cols;
      assert NotLagOf(c, front, lags) by {
        assert NotLagOf(c, cols, lags);
      }
      LagAllOk(f, front, lags);
      LagAllKeepsName(f, front, lags, c);
      assert c in cols;
    }
    if j == m || a == c {
      LagAllStepLagged(f, cols, lags, l);
    } else {
      assert CellsNamed(LagAll(f, front, lags).frame, LagName(a, l)) == Some(Shift(CellsNamed(f, a).value, l)) by {
        assert front[j] == a;
        assert forall x :: x in front ==> x in cols;
        assert NoClash(front, lags) by {
          forall k | 0 <= k < m ensures NotLagOf(front[k], front, lags) {
            assert NotLagOf(cols[k], cols, lags);
          }
        }
        LagAllPair(f, front, lags, j, i);
      }
      forall k | 0 <= k < |lags| ensures LagName(a, l) != LagName(c, lags[k]) {
        if LagName(a, l) == LagName(c, lags[k]) {
          LagNameInjective(a, l, c, lags[k]);
        }
      }
      LagAllStepKeeps(f, cols, lags, LagName(a, l));
    }
  }

  /** When every requested column exists and none is the lag name of
      another, `add_lag_features` completes, every (column, lag) pair gets
      the column shifted by the lag and every other column is untouched. */
  lemma LagAllContent(f: Frame, cols: seq<string>, lags: seq<int>)
    requires forall c :: c in cols ==> CellsNamed(f, c).Some?
    requires NoClash(cols, lags)
    ensures LagAll(f, cols, lags).ok
    ensures forall c, l :: c in cols && l in lags ==>
              CellsNamed(LagAll(f, cols, lags).frame, LagName(c, l)) == Some(Shift(CellsNamed(f, c).value, l))
    ensures forall n :: NotLagOf(n, cols, lags) ==> CellsNamed(LagAll(f, cols, lags).frame, n) == CellsNamed(f, n)
  {
    LagAllOk(f, cols, lags);
    forall c, l | c in cols && l in lags
      ensures CellsNamed(LagAll(f, cols, lags).frame, LagName(c, l)) == Some(Shift(CellsNamed(f, c).value, l))
    {
      var j :| 0 <= j < |cols| && cols[j] == c;
      var i :| 0 <= i < |lags| && lags[i] == l;
      LagAllPair(f, cols, lags, j, i);
    }
    forall n | NotLagOf(n, cols, lags)
      ensures CellsNamed(LagAll(f, cols, lags).frame, n) == CellsNamed(f, n)
    {
      LagAllKeepsName(f, cols, lags, n);
    }
  }

  /** A frame whose columns are updated in place, as `add_lag_features`
      updates the `df` it is given. */
  class DataFrame {
    var frame: Frame

    constructor (f: Frame)
      ensures frame == f
    {
      frame := f;
    }

    /** The lags of one column, one assignment per lag. */
    method LagColumn(col: string, ls: seq<int>)
      requires CellsNamed(frame, col).Some?
      modifies this
      ensures frame == LagOne(old(frame), col, ls)
    {
      ghost var before := frame;
      for j := 0 to |ls|
        invariant CellsNamed(before, col).Some?
        invariant frame == LagOne(before, col, ls[..j])
      {
        assert ls[..j + 1][..j] == ls[..j];
        var shifted := Shift(CellsNamed(frame, col).value, ls[j]);
        frame := SetColumn(frame, LagName(col, ls[j]), shifted);
      }
      assert ls[..|ls|] == ls;
    }

    /** `add_lag_features(df, columns, lags)`: the frame ends as the
        column-by-column specification leaves it, and `ok` is false where a
        missing column, read for its first lag, raised `KeyError`. */
    method AddLagFeatures(cols: seq<string>, lags: Option<seq<int>>) returns (ok: bool)
      modifies this
      ensures LagOutcome(frame, ok) == LagAll(old(frame), cols, if lags.None? then DefaultLags else lags.value)
    {
      var ls := if lags.None? then DefaultLags else lags.value;
      ghost var start := frame;
      for i := 0 to |cols|
        invariant LagAll(start, cols[..i], ls) == LagOutcome(frame, true)
      {
        var col := cols[i];
        assert cols[..i + 1][..i] == cols[..i];
        var cells := CellsNamed(frame, col);
        if cells.None? {
          if |ls| > 0 {
            LagAllStops(start, cols, ls, i + 1);
            return false;
          }
        } else {
          LagColumn(col, ls);
        }
      }
      assert cols[..|cols|] == cols;
      return true;
    }
  }

  // ---------------------------------------------------------------------
  // Critical-column drop

  /** The columns whose missing values drop a row, as listed by
      `generate_features`. */
  const CriticalColumns: seq<string> :=
    ["Open", "High", "Low", "Close", "Volume", "atr_5", "atr_14", "RSI_14",
     "SMA_20", "EMA_20", "MACD", "BB_mid", "ADX"]

  /** `[c for c in critical_cols if c in features_df.columns]`. */
  function PresentColumns(f: Frame, names: seq<string>): (r: seq<string>)
    ensures forall c :: c in r <==> c in names && CellsNamed(f, c).Some?
    decreases |names|
  {
    if |names| == 0 then []
    else
      var c := names[|names| - 1];
      PresentColumns(f, names[..|names| - 1]) + (if CellsNamed(f, c).Some? then [c] else [])
  }

  /** Row `i` has a value in every listed column that exists. */
  predicate Complete(f: Frame, names: seq<string>, i: nat)
    requires i < f.height
  {
    forall c :: c in names && CellsNamed(f, c).Some? ==> CellsNamed(f, c).value[i].Value?
  }

  /** The indices of the complete rows among the first `n`, in order. */
  function CompleteRows(f: Frame, names: seq<string>, n: nat): (r: seq<nat>)
    requires n <= f.height
    ensures forall j :: 0 <= j < |r| ==> r[j] < n && Complete(f, names, r[j])
    ensures forall j, k :: 0 <= j < k < |r| ==> r[j] < r[k]
    ensures forall i :: 0 <= i < n && Complete(f, names, i) ==> i in r
    decreases n
  {
    if n == 0 then []
    else CompleteRows(f, names, n - 1) + (if Complete(f, names, n - 1) then [n - 1] else [])
  }

  /** The cells of the chosen rows. */
  function Pick(cells: seq<Cell>, rows: seq<nat>): (r: seq<Cell>)
    requires forall j :: 0 <= j < |rows| ==> rows[j] < |cells|
    ensures |r| == |rows| && forall j :: 0 <= j < |rows| ==> r[j] == cells[rows[j]]
  {
    seq(|rows|, j requires 0 <= j < |rows| => cells[rows[j]])
  }

  /** `features_df.dropna(subset=critical_cols).reset_index(drop=True)`:
      keep, in order, the rows with a value in every critical column the
      frame has; every column keeps its name and place. */
  function DropMissingCritical(f: Frame, critical: seq<string>): (r: Frame)
    ensures |r.columns| == |f.columns|
    ensures forall j :: 0 <= j < |f.columns| ==> r.columns[j].name == f.columns[j].name
  {
    var keep := CompleteRows(f, PresentColumns(f, critical), f.height);
    RawFrame(seq(|f.columns|, j requires 0 <= j < |f.columns| => Column(f.columns[j].name, Pick(f.columns[j].cells, keep))), |keep|)
  }

  /** After the drop no row misses a value in a critical column, and the
      rows kept are exactly the complete ones, in their original order. */
  lemma DropMissingCriticalRows(f: Frame, critical: seq<string>)
    ensures var r := DropMissingCritical(f, critical);
      forall c, i :: c in critical && CellsNamed(r, c).Some? && 0 <= i < r.height ==> CellsNamed(r, c).value[i].Value?
    ensures var keep := CompleteRows(f, PresentColumns(f, critical), f.height);
      && DropMissingCritical(f, critical).height == |keep|
      && (forall i :: 0 <= i < f.height ==> (i in keep <==> Complete(f, critical, i)))
      && (forall j, k :: 0 <= j < k < |keep| ==> keep[j] < keep[k])
  {
    var present := PresentColumns(f, critical);
    var keep := CompleteRows(f, present, f.height);
    var r := DropMissingCritical(f, critical);
    forall c | c in critical && CellsNamed(r, c).Some?
      ensures forall i :: 0 <= i < r.height ==> CellsNamed(r, c).value[i].Value?
    {
      var k := Lookup(r.columns, c).value;
      assert Lookup(f.columns, c) == Some(k) by {
        LookupSameNames(r.columns, f.columns, c);
      }
      forall i | 0 <= i < r.height ensures CellsNamed(r, c).value[i].Value? {
        assert r.columns[k].cells[i] == f.columns[k].cells[keep[i]];
        assert Complete(f, present, keep[i]);
      }
    }
    forall i | 0 <= i < f.height ensures Complete(f, present, i) <==> Complete(f, critical, i) {
    }
  }

  lemma {:induction false} LookupSameNames(a: seq<Column>, b: seq<Column>, n: string)
    requires |a| == |b| && forall j :: 0 <= j < |a| ==> a[j].name == b[j].name
    ensures Lookup(a, n) == Lookup(b, n)
    decreases |a|
  {
    if |a| > 0 && a[0].name != n {
      LookupSameNames(a[1..], b[1..], n);
    }
  }
}
