/** The row formatter (`format_daily_data`, `format_hourly_data`): resolves
    arbitrarily named provider columns to the canonical price columns by an
    ordered list of substring rules, gives up when a required column is
    missing, and otherwise emits nine-column rows stamped with the ticker and
    the interval label. */
module Formatter {
  import opened Text
  import opened Bars

  datatype Canonical = Time | AdjClose | Close | High | Low | Open | Volume

  /** The required canonical columns, in the order their rules are tried and
      the order they take in the output. */
  const Required: seq<Canonical> := [Time, AdjClose, Close, High, Low, Open, Volume]

  /** The position of each canonical column's rule in the rule list. */
  function Rank(c: Canonical): (k: nat)
    ensures k < |Required| && Required[k] == c
  {
    match c
    case Time => 0
    case AdjClose => 1
    case Close => 2
    case High => 3
    case Low => 4
    case Open => 5
    case Volume => 6
  }

  /** The name a canonical column takes after renaming. */
  function CanonicalName(g: Granularity, c: Canonical): string {
    match c
    case Time => TimeColumn(g)
    case AdjClose => "Adj Close"
    case Close => "Close"
    case High => "High"
    case Low => "Low"
    case Open => "Open"
    case Volume => "Volume"
  }

  /** The schema of a store is ticker, interval and the canonical columns in
      rule order. */
  lemma SchemaFollowsRequired(g: Granularity)
    ensures |Schema(g)| == 2 + |Required|
    ensures forall k :: 0 <= k < |Required| ==> Schema(g)[k + 2] == CanonicalName(g, Required[k])
  {
  }

  /** `str(col).lower().strip()`. */
  function NormalName(name: string): string {
    Lower(Strip(name))
  }

  /** The rule, read on its own, that claims a normalised name for `c`. */
  predicate Rule(g: Granularity, c: Canonical, n: string) {
    match c
    case Time => (g == Hourly && Contains(n, "datetime")) || n == "date"
    case AdjClose => Contains(n, "adj") && Contains(n, "close")
    case Close => Contains(n, "close")
    case High => Contains(n, "high")
    case Low => Contains(n, "low")
    case Open => Contains(n, "open")
    case Volume => Contains(n, "volume")
  }

  /** The `if/elif` chain that builds `column_mapping`, on a normalised
      column name. */
  function ClassifyName(g: Granularity, n: string): Option<Canonical> {
    if (g == Daily && n == "date") || (g == Hourly && (Contains(n, "datetime") || n == "date")) then Some(Time)
    else if Contains(n, "adj") && Contains(n, "close") then Some(AdjClose)
    else if Contains(n, "close") then Some(Close)
    else if Contains(n, "high") then Some(High)
    else if Contains(n, "low") then Some(Low)
    else if Contains(n, "open") then Some(Open)
    else if Contains(n, "volume") then Some(Volume)
    else None
  }

  /** The canonical column a provider column is renamed to, if any. */
  function Classify(g: Granularity, name: string): Option<Canonical> {
    ClassifyName(g, NormalName(name))
  }

  /** No rule earlier in the list than `c`'s matches `n`. */
  predicate NoEarlierRule(g: Granularity, c: Canonical, n: string) {
    forall d :: d in Required[..Rank(c)] ==> !Rule(g, d, n)
  }

  /** A name is classified as `c` exactly when `c`'s rule matches it and no
      rule earlier in the list does. */
  lemma ClassifyIsFirstMatchingRule(g: Granularity, n: string, c: Canonical)
    ensures ClassifyName(g, n) == Some(c) <==> Rule(g, c, n) && NoEarlierRule(g, c, n)
  {
    match c
    case Time =>
    case AdjClose =>
      assert NoEarlierRule(g, c, n) <==> !Rule(g, Time, n) by {
        assert Required[..1] == [Time];
      }
    case Close =>
      assert NoEarlierRule(g, c, n) <==> !Rule(g, Time, n) && !Rule(g, AdjClose, n) by {
        assert Required[..2] == [Time, AdjClose];
      }
    case High =>
      assert NoEarlierRule(g, c, n) <==> !Rule(g, Time, n) && !Rule(g, AdjClose, n) && !Rule(g, Close, n) by {
        assert Required[..3] == [Time, AdjClose, Close];
      }
    case Low =>
      assert NoEarlierRule(g, c, n) <==> !Rule(g, Time, n) && !Rule(g, AdjClose, n) && !Rule(g, Close, n) && !Rule(g, High, n) by {
        assert Required[..4] == [Time, AdjClose, Close, High];
      }
    case Open =>
      assert NoEarlierRule(g, c, n) <==> !Rule(g, Time, n) && !Rule(g, AdjClose, n) && !Rule(g, Close, n) && !Rule(g, High, n) && !Rule(g, Low, n) by {
        assert Required[..5] == [Time, AdjClose, Close, High, Low];
      }
    case Volume =>
      assert NoEarlierRule(g, c, n) <==> !Rule(g, Time, n) && !Rule(g, AdjClose, n) && !Rule(g, Close, n) && !Rule(g, High, n) && !Rule(g, Low, n) && !Rule(g, Open, n) by {
        assert Required[..6] == [Time, AdjClose, Close, High, Low, Open];
      }
  }

  /** A name stays unmapped (and is dropped by the rename) exactly when no
      rule matches it. */
  lemma UnmappedIffNoRule(g: Granularity, n: string)
    ensures ClassifyName(g, n) == None <==> forall k :: 0 <= k < |Required| ==> !Rule(g, Required[k], n)
  {
    if ClassifyName(g, n).Some? {
      var c := ClassifyName(g, n).value;
      ClassifyIsFirstMatchingRule(g, n, c);
      assert Rule(g, Required[Rank(c)], n);
    }
  }

  /** A name holding both "adj" and "close" is the adjusted close, never the
      plain close (for hourly data unless it also holds "datetime"). */
  lemma AdjCloseNeverClose(g: Granularity, n: string)
    requires Contains(n, "adj") && Contains(n, "close")
    ensures ClassifyName(g, n) != Some(Close)
    ensures g == Daily || !Contains(n, "datetime") ==> ClassifyName(g, n) == Some(AdjClose)
  {
    if n == "date" {
      AbsentCharNotContained(n, "close", 0);
      assert false;
    }
  }

  /** The normalised form of each name of the output schema. */
  function LowerName(g: Granularity, c: Canonical): string {
    match c
    case Time => if g == Daily then "date" else "datetime"
    case AdjClose => "adj close"
    case Close => "close"
    case High => "high"
    case Low => "low"
    case Open => "open"
    case Volume => "volume"
  }

  lemma NormaliseCanonicalName(g: Granularity, c: Canonical)
    ensures NormalName(CanonicalName(g, c)) == LowerName(g, c)
  {
    var n := CanonicalName(g, c);
    StripFixed(n);
    var l := LowerName(g, c);
    assert |n| == |l| && forall i :: 0 <= i < |n| ==> LowerChar(n[i]) == l[i];
    assert Lower(n) == l;
  }

  lemma ClassifyTimeName(g: Granularity)
    ensures ClassifyName(g, LowerName(g, Time)) == Some(Time)
  {
    if g == Hourly {
      assert Contains("datetime", "datetime");
    }
  }

  lemma ClassifyAdjCloseName(g: Granularity)
    ensures ClassifyName(g, LowerName(g, AdjClose)) == Some(AdjClose)
  {
    assert Contains("adj close", "adj") && Contains("adj close", "close");
    AbsentCharNotContained("adj close", "datetime", 4);
  }

  lemma ClassifyCloseName(g: Granularity)
    ensures ClassifyName(g, LowerName(g, Close)) == Some(Close)
  {
    AbsentCharNotContained("close", "datetime", 0);
    AbsentCharNotContained("close", "adj", 0);
  }

  lemma ClassifyHighName(g: Granularity)
    ensures ClassifyName(g, LowerName(g, High)) == Some(High)
  {
    AbsentCharNotContained("high", "datetime", 0);
    AbsentCharNotContained("high", "adj", 0);
    AbsentCharNotContained("high", "close", 0);
  }

  lemma ClassifyLowName(g: Granularity)
    ensures ClassifyName(g, LowerName(g, Low)) == Some(Low)
  {
    AbsentCharNotContained("low", "datetime", 0);
    AbsentCharNotContained("low", "adj", 0);
    AbsentCharNotContained("low", "close", 0);
    AbsentCharNotContained("low", "high", 0);
  }

  lemma ClassifyOpenName(g: Granularity)
    ensures ClassifyName(g, LowerName(g, Open)) == Some(Open)
  {
    AbsentCharNotContained("open", "datetime", 0);
    AbsentCharNotContained("open", "adj", 0);
    AbsentCharNotContained("open", "close", 0);
    AbsentCharNotContained("open", "high", 0);
    AbsentCharNotContained("open", "low", 0);
  }

  lemma VolumeLacksTimeAndClose()
    ensures !Contains("volume", "datetime") && !Contains("volume", "adj") && !Contains("volume", "close")
  {
    AbsentCharNotContained("volume", "datetime", 0);
    AbsentCharNotContained("volume", "adj", 0);
    AbsentCharNotContained("volume", "close", 0);
  }

  lemma VolumeLacksPrices()
    ensures !Contains("volume", "high") && !Contains("volume", "low") && !Contains("volume", "open")
  {
    AbsentCharNotContained("volume", "high", 0);
    AbsentCharNotContained("volume", "low", 2);
    AbsentCharNotContained("volume", "open", 1);
  }

  lemma ClassifyVolumeName(g: Granularity)
    ensures ClassifyName(g, LowerName(g, Volume)) == Some(Volume)
  {
    VolumeLacksTimeAndClose();
    VolumeLacksPrices();
  }

  /** Each normalised schema name is claimed by its own rule. */
  lemma ClassifyLowerName(g: Granularity, c: Canonical)
    ensures ClassifyName(g, LowerName(g, c)) == Some(c)
  {
    match c
    case Time => ClassifyTimeName(g);
    case AdjClose => ClassifyAdjCloseName(g);
    case Close => ClassifyCloseName(g);
    case High => ClassifyHighName(g);
    case Low => ClassifyLowName(g);
    case Open => ClassifyOpenName(g);
    case Volume => ClassifyVolumeName(g);
  }

  /** Each name of the output schema is resolved to its own canonical column,
      so a store header read back by the formatter maps onto itself. */
  lemma CanonicalNamesResolve(g: Granularity, c: Canonical)
    ensures Classify(g, CanonicalName(g, c)) == Some(c)
  {
    NormaliseCanonicalName(g, c);
    ClassifyLowerName(g, c);
  }

  /** `column_mapping`, one entry per provider column, built column by
      column. */
  function ColumnMapping(g: Granularity, cols: seq<Column>): (m: seq<Option<Canonical>>)
    ensures |m| == |cols|
  {
    if |cols| == 0 then []
    else ColumnMapping(g, cols[..|cols| - 1]) + [Classify(g, cols[|cols| - 1].name)]
  }

  /** Entry `i` of the mapping is the classification of column `i`. */
  lemma {:induction false} ColumnMappingAt(g: Granularity, cols: seq<Column>, i: nat)
    requires i < |cols|
    ensures ColumnMapping(g, cols)[i] == Classify(g, cols[i].name)
    decreases |cols|
  {
    if i < |cols| - 1 {
      ColumnMappingAt(g, cols[..|cols| - 1], i);
    }
  }

  /** The first position of `Some(c)` in a mapping. */
  function FirstIndex(m: seq<Option<Canonical>>, c: Canonical): (r: Option<nat>)
    ensures r.Some? ==> r.value < |m| && m[r.value] == Some(c)
    ensures r.Some? ==> forall j :: 0 <= j < r.value ==> m[j] != Some(c)
    ensures r.None? ==> forall j :: 0 <= j < |m| ==> m[j] != Some(c)
  {
    if |m| == 0 then None
    else if m[0] == Some(c) then Some(0)
    else match FirstIndex(m[1..], c)
      case None => None
      case Some(k) => Some(k + 1)
  }

  /** The column that carries the canonical name `c` after `df.rename`. */
  function Resolve(g: Granularity, cols: seq<Column>, c: Canonical): Option<nat> {
    FirstIndex(ColumnMapping(g, cols), c)
  }

  /** The resolved column is the first one whose name is classified as `c`;
      none resolves exactly when no name is. */
  lemma ResolveIsFirstClassified(g: Granularity, cols: seq<Column>, c: Canonical)
    ensures var r := Resolve(g, cols, c);
      && (r.Some? ==> r.value < |cols| && Classify(g, cols[r.value].name) == Some(c))
      && (r.Some? ==> forall j :: 0 <= j < r.value ==> Classify(g, cols[j].name) != Some(c))
      && (r.None? <==> forall j :: 0 <= j < |cols| ==> Classify(g, cols[j].name) != Some(c))
  {
    forall j | 0 <= j < |cols| ensures ColumnMapping(g, cols)[j] == Classify(g, cols[j].name) {
      ColumnMappingAt(g, cols, j);
    }
  }

  /** The cells of the seven required columns, once all of them resolved. */
  datatype Resolution = Resolution(
    time: seq<Cell>, adjClose: seq<Cell>, close: seq<Cell>, high: seq<Cell>,
    low: seq<Cell>, open: seq<Cell>, volume: seq<Cell>)

  /** The cells of the column that `mapping` renames to `c`. */
  function CellsAt(f: Frame, mapping: seq<Option<Canonical>>, c: Canonical): (r: Option<seq<Cell>>)
    requires |mapping| == |f.columns|
    ensures r.Some? ==> |r.value| == f.height
  {
    match FirstIndex(mapping, c)
    case None => None
    case Some(k) => Some(f.columns[k].cells)
  }

  /** The cells of the column resolved as `c`. */
  function CellsOf(g: Granularity, f: Frame, c: Canonical): Option<seq<Cell>> {
    CellsAt(f, ColumnMapping(g, f.columns), c)
  }

  /** Every resolved column has one cell per bar. */
  predicate Covers(res: Resolution, height: nat) {
    && |res.time| == height && |res.adjClose| == height && |res.close| == height
    && |res.high| == height && |res.low| == height && |res.open| == height
    && |res.volume| == height
  }

  /** `missing = [col for col in required_cols if col not in df.columns]`
      after renaming by `mapping`: None when some required column is
      missing. */
  function ResolveWith(f: Frame, mapping: seq<Option<Canonical>>): (r: Option<Resolution>)
    requires |mapping| == |f.columns|
    ensures r.Some? ==> Covers(r.value, f.height)
  {
    var t, a, c, h, l, o, v :=
      CellsAt(f, mapping, Time), CellsAt(f, mapping, AdjClose), CellsAt(f, mapping, Close),
      CellsAt(f, mapping, High), CellsAt(f, mapping, Low), CellsAt(f, mapping, Open),
      CellsAt(f, mapping, Volume);
    if t.None? || a.None? || c.None? || h.None? || l.None? || o.None? || v.None? then None
    else Some(Resolution(t.value, a.value, c.value, h.value, l.value, o.value, v.value))
  }

  function ResolveAll(g: Granularity, f: Frame): (r: Option<Resolution>)
    ensures r.Some? ==> Covers(r.value, f.height)
  {
    ResolveWith(f, ColumnMapping(g, f.columns))
  }

  /** The time written for one bar: the date alone for daily data; the UTC
      instant for hourly data. */
  function TimeCell(g: Granularity, c: Cell): Cell {
    match c
    case Missing => Missing
    case Value(t) => if g == Daily then Value(DayStart(t)) else Value(t)
  }

  /** `df["Volume"].fillna(0).astype("Int64")` for one cell. */
  function FillVolume(c: Cell): int {
    match c
    case Missing => 0
    case Value(v) => v
  }

  /** Formatting gives up exactly when some required column is missing. */
  lemma ResolveAllFailsIffMissing(g: Granularity, f: Frame)
    ensures ResolveAll(g, f).None? <==> exists c :: CellsOf(g, f, c).None?
  {
    if ResolveAll(g, f).None? {
      assert CellsOf(g, f, Time).None? || CellsOf(g, f, AdjClose).None? || CellsOf(g, f, Close).None? ||
             CellsOf(g, f, High).None? || CellsOf(g, f, Low).None? || CellsOf(g, f, Open).None? ||
             CellsOf(g, f, Volume).None?;
    } else {
      forall c ensures CellsOf(g, f, c).Some? {
        match c
        case Time =>
        case AdjClose =>
        case Close =>
        case High =>
        case Low =>
        case Open =>
        case Volume =>
      }
    }
  }

  /** The output row of bar `i`. */
  function RowAt(g: Granularity, ticker: string, res: Resolution, height: nat, i: nat): Row
    requires Covers(res, height) && i < height
  {
    Row(ticker, Label(g), TimeCell(g, res.time[i]), res.adjClose[i], res.close[i],
        res.high[i], res.low[i], res.open[i], FillVolume(res.volume[i]))
  }

  /** The formatted result: no rows when the response is empty or a required
      column is missing; otherwise one row per bar. */
  function Formatted(g: Granularity, f: Frame, ticker: string): (r: seq<Row>)
    ensures |r| == 0 || |r| == f.height
    ensures forall i :: 0 <= i < |r| ==> r[i].ticker == ticker && r[i].interval == Label(g)
  {
    if IsEmpty(f) then []
    else match ResolveAll(g, f)
      case None => []
      case Some(res) => seq(f.height, i requires 0 <= i < f.height => RowAt(g, ticker, res, f.height, i))
  }

  /** A response in which some required column cannot be resolved gives no
      rows at all. */
  lemma MissingColumnGivesNoRows(g: Granularity, f: Frame, ticker: string, c: Canonical)
    requires Resolve(g, f.columns, c).None?
    ensures Formatted(g, f, ticker) == []
  {
  }

  /** When every required column resolves, each bar becomes one row whose
      cells are that bar's cells of the first column resolved to each
      canonical name; a missing volume becomes 0 and a daily time keeps only
      its date. */
  lemma FormattedCells(g: Granularity, f: Frame, ticker: string, i: nat)
    requires !IsEmpty(f) && i < f.height
    requires forall c: Canonical :: Resolve(g, f.columns, c).Some?
    ensures var r := Formatted(g, f, ticker);
      var cell := (c: Canonical) requires Resolve(g, f.columns, c).Some? =>
        f.columns[Resolve(g, f.columns, c).value].cells[i];
      && |r| == f.height
      && r[i].time == TimeCell(g, cell(Time))
      && r[i].adjClose == cell(AdjClose)
      && r[i].close == cell(Close)
      && r[i].high == cell(High)
      && r[i].low == cell(Low)
      && r[i].open == cell(Open)
      && r[i].volume == (if cell(Volume).Missing? then 0 else cell(Volume).v)
  {
  }

  /** Every daily row is stamped at the start of its day. */
  lemma DailyTimesAreDates(f: Frame, ticker: string)
    ensures forall r :: r in Formatted(Daily, f, ticker) && r.time.Value? ==> r.time.v % Day == 0
  {
    var rows := Formatted(Daily, f, ticker);
    forall r | r in rows && r.time.Value?
      ensures r.time.v % Day == 0
    {
      var i :| 0 <= i < |rows| && rows[i] == r;
      var res := ResolveAll(Daily, f).value;
      assert r == RowAt(Daily, ticker, res, f.height, i);
      DayStartBounds(res.time[i].v);
    }
  }

  /** No two columns of a response resolve to the same canonical name unless
      they are identical. */
  predicate Unambiguous(g: Granularity, cols: seq<Column>) {
    forall i, j ::
      0 <= i < |cols| && 0 <= j < |cols| && Classify(g, cols[i].name).Some? &&
      Classify(g, cols[i].name) == Classify(g, cols[j].name)
      ==> cols[i] == cols[j]
  }

  /** A column classified as `c` makes `c` resolve. */
  lemma ClassifiedResolves(g: Granularity, cols: seq<Column>, x: Column, c: Canonical)
    requires x in cols && Classify(g, x.name) == Some(c)
    ensures Resolve(g, cols, c).Some?
  {
    ResolveIsFirstClassified(g, cols, c);
    var m :| 0 <= m < |cols| && cols[m] == x;
  }

  lemma ResolveSameColumn(g: Granularity, f1: Frame, f2: Frame, c: Canonical)
    requires forall x :: x in f1.columns <==> x in f2.columns
    requires Unambiguous(g, f1.columns)
    ensures CellsOf(g, f1, c) == CellsOf(g, f2, c)
  {
    ResolveIsFirstClassified(g, f1.columns, c);
    ResolveIsFirstClassified(g, f2.columns, c);
    var r1, r2 := Resolve(g, f1.columns, c), Resolve(g, f2.columns, c);
    if r1.Some? {
      var x := f1.columns[r1.value];
      assert x in f2.columns;
      var y := f2.columns[r2.value];
      assert y in f1.columns;
      var m :| 0 <= m < |f1.columns| && f1.columns[m] == y;
      assert y == x;
    } else if r2.Some? {
      ClassifiedResolves(g, f1.columns, f2.columns[r2.value], c);
      assert false;
    }
  }

  lemma SameCellsSameResolution(g: Granularity, f1: Frame, f2: Frame)
    requires forall c :: CellsOf(g, f1, c) == CellsOf(g, f2, c)
    ensures ResolveAll(g, f1) == ResolveAll(g, f2)
  {
    assert CellsOf(g, f1, Time) == CellsOf(g, f2, Time);
    assert CellsOf(g, f1, AdjClose) == CellsOf(g, f2, AdjClose);
    assert CellsOf(g, f1, Close) == CellsOf(g, f2, Close);
    assert CellsOf(g, f1, High) == CellsOf(g, f2, High);
    assert CellsOf(g, f1, Low) == CellsOf(g, f2, Low);
    assert CellsOf(g, f1, Open) == CellsOf(g, f2, Open);
    assert CellsOf(g, f1, Volume) == CellsOf(g, f2, Volume);
  }

  /** The output does not depend on the order of the response's columns
      (when no canonical name is claimed by two different columns). */
  lemma FormatIgnoresColumnOrder(g: Granularity, f1: Frame, f2: Frame, ticker: string)
    requires f1.height == f2.height
    requires forall x :: x in f1.columns <==> x in f2.columns
    requires Unambiguous(g, f1.columns)
    ensures Formatted(g, f1, ticker) == Formatted(g, f2, ticker)
  {
    if |f1.columns| > 0 {
      assert f1.columns[0] in f2.columns;
    }
    if |f2.columns| > 0 {
      assert f2.columns[0] in f1.columns;
    }
    forall c: Canonical ensures CellsOf(g, f1, c) == CellsOf(g, f2, c) {
      ResolveSameColumn(g, f1, f2, c);
    }
    SameCellsSameResolution(g, f1, f2);
  }

  /** The `for col in df.columns` loop that fills `column_mapping`. */
  method BuildColumnMapping(g: Granularity, cols: seq<Column>) returns (mapping: seq<Option<Canonical>>)
    ensures mapping == ColumnMapping(g, cols)
  {
    mapping := [];
    for i := 0 to |cols|
      invariant mapping == ColumnMapping(g, cols[..i])
    {
      assert cols[..i + 1][..i] == cols[..i];
      mapping := mapping + [Classify(g, cols[i].name)];
    }
    assert cols[..|cols|] == cols;
  }

  /** `format_daily_data` / `format_hourly_data`. */
  method FormatData(g: Granularity, f: Frame, ticker: string) returns (rows: seq<Row>)
    ensures rows == Formatted(g, f, ticker)
  {
    if IsEmpty(f) {
      return [];
    }
    var mapping := BuildColumnMapping(g, f.columns);
    var resolved := ResolveWith(f, mapping);
    if resolved.None? {
      return [];
    }
    var res := resolved.value;
    rows := seq(f.height, i requires 0 <= i < f.height => RowAt(g, ticker, res, f.height, i));
  }
}
