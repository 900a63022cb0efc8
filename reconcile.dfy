/** Universe reconciliation (`reconcile_stocks`): the screener list, the
    three change lists computed against the symbols already stored, the
    removal rewrite of both stores and the download of new symbols. */
module Reconcile {
  import opened Text
  import opened Bars
  import opened Chunks
  import opened Planning
  import opened Store
  import opened Sync

  /** The characters of `INVALID_TICKER_PATTERNS`, the class `[\^\.\/\-=]`. */
  const InvalidTickerChars: set<char> := {'^', '.', '/', '-', '='}

  /** Whether `s` holds a character of the invalid class. */
  function AnyInvalid(s: string): (b: bool)
    ensures b <==> exists i :: 0 <= i < |s| && s[i] in InvalidTickerChars
    decreases |s|
  {
    if |s| == 0 then false
    else if s[0] in InvalidTickerChars then true
    else
      var rest := AnyInvalid(s[1..]);
      assert forall i :: 0 <= i < |s| - 1 ==> s[1..][i] == s[i + 1];
      rest
  }

  /** `has_special_chars`: a missing symbol (NaN) counts as invalid;
      otherwise the symbol is invalid when the pattern matches anywhere. */
  function HasSpecialChars(t: Option<string>): (b: bool)
    ensures b <==> t.None? || exists i :: 0 <= i < |t.value| && t.value[i] in InvalidTickerChars
  {
    match t
    case None => true
    case Some(s) => AnyInvalid(s)
  }

  /** Upper-casing never adds or removes an invalid character, so the test
      gives the same answer for every spelling of a symbol. */
  lemma SpecialIgnoresCase(s: string)
    ensures HasSpecialChars(Some(Upper(s))) == HasSpecialChars(Some(s))
  {
    var u := Upper(s);
    forall i | 0 <= i < |s|
      ensures u[i] in InvalidTickerChars <==> s[i] in InvalidTickerChars
    {
      assert u[i] == UpperChar(s[i]);
    }
  }

  /** One row of the screener file: its symbol (missing when the cell is
      empty) and its parsed last sale price (missing when it does not
      parse). */
  datatype ScreenerRow = ScreenerRow(symbol: Option<string>, lastPrice: Option<int>)

  /** `MIN_PRICE <= LastPrice <= MAX_PRICE`; a price that did not parse
      compares false on both sides. */
  predicate InBand(p: Option<int>, minPrice: int, maxPrice: int) {
    p.Some? && minPrice <= p.value <= maxPrice
  }

  /** `load_nasdaq_screener`: the symbols of the rows in the price band that
      hold no invalid character, in file order. */
  function Screened(rows: seq<ScreenerRow>, minPrice: int, maxPrice: int): (r: seq<string>)
    ensures |r| <= |rows|
    ensures forall i :: 0 <= i < |r| ==> !HasSpecialChars(Some(r[i]))
    decreases |rows|
  {
    if |rows| == 0 then []
    else
      var x := rows[|rows| - 1];
      Screened(rows[..|rows| - 1], minPrice, maxPrice) +
      (if InBand(x.lastPrice, minPrice, maxPrice) && !HasSpecialChars(x.symbol) then [x.symbol.value] else [])
  }

  /** A symbol is screened exactly when some row holds it with a price in the
      band and it has no invalid character. */
  lemma {:induction false} ScreenedIff(rows: seq<ScreenerRow>, minPrice: int, maxPrice: int, t: string)
    ensures t in Screened(rows, minPrice, maxPrice) <==>
              !HasSpecialChars(Some(t)) &&
              exists i :: 0 <= i < |rows| && rows[i].symbol == Some(t) && InBand(rows[i].lastPrice, minPrice, maxPrice)
    decreases |rows|
  {
    if |rows| > 0 {
      var n := |rows| - 1;
      ScreenedIff(rows[..n], minPrice, maxPrice, t);
      assert forall i :: 0 <= i < n ==> rows[..n][i] == rows[i];
      if exists i :: 0 <= i < |rows| && rows[i].symbol == Some(t) && InBand(rows[i].lastPrice, minPrice, maxPrice) {
        var i :| 0 <= i < |rows| && rows[i].symbol == Some(t) && InBand(rows[i].lastPrice, minPrice, maxPrice);
        if i < n {
          assert rows[..n][i] == rows[i];
        }
      }
    }
  }

  /** `[t.upper() for t in ...]`. */
  function UpperAll(ss: seq<string>): (r: seq<string>)
    ensures |r| == |ss|
    ensures forall i :: 0 <= i < |ss| ==> r[i] == Upper(ss[i])
  {
    seq(|ss|, i requires 0 <= i < |ss| => Upper(ss[i]))
  }

  /** The symbols already stored, `set(current_daily + current_hourly)`. */
  function CurrentTickers(daily: seq<Row>, hourly: seq<Row>): (r: set<string>)
    ensures forall t :: t in r <==> exists x :: x in daily + hourly && x.ticker == t
  {
    set x | x in daily + hourly :: x.ticker
  }

  /** `t.upper() not in [ct.upper() for ct in current_tickers]`. */
  predicate Unmatched(t: string, current: set<string>) {
    forall c :: c in current ==> Upper(c) != Upper(t)
  }

  /** The screener symbols that match no stored symbol, in screener order. */
  function NewSymbols(screener: seq<string>, current: set<string>): (r: seq<string>)
    ensures |r| <= |screener|
    decreases |screener|
  {
    if |screener| == 0 then []
    else
      var t := screener[|screener| - 1];
      NewSymbols(screener[..|screener| - 1], current) + (if Unmatched(t, current) then [t] else [])
  }

  /** A screener symbol is added exactly when it matches no stored symbol,
      case-insensitively. */
  lemma {:induction false} NewSymbolsIff(screener: seq<string>, current: set<string>, t: string)
    ensures t in NewSymbols(screener, current) <==> t in screener && Unmatched(t, current)
    decreases |screener|
  {
    if |screener| > 0 {
      var n := |screener| - 1;
      NewSymbolsIff(screener[..n], current, t);
      assert screener == screener[..n] + [screener[n]];
    }
  }

  /** The three lists of a reconciliation. */
  datatype Plan = Plan(toRemove: set<string>, special: set<string>, toAdd: seq<string>)

  /** `to_remove`, `special_chars` and `to_add`: stored symbols missing from
      the screener (and well-formed), stored symbols with an invalid
      character, and screener symbols not yet stored. */
  function PlanChanges(current: set<string>, screener: seq<string>): (p: Plan)
    ensures forall t :: t in p.toRemove <==> t in current && Upper(t) !in screener && !HasSpecialChars(Some(t))
    ensures forall t :: t in p.special <==> t in current && HasSpecialChars(Some(t))
  {
    var toRemove := set t | t in current && Upper(t) !in screener && !HasSpecialChars(Some(t));
    var special := set t | t in current && HasSpecialChars(Some(t));
    Plan(toRemove, special, NewSymbols(screener, current))
  }

  /** The two removal lists are disjoint, and every stored symbol is removed
      or, upper-cased, listed by the screener. */
  lemma PlanPartitionsCurrent(current: set<string>, screener: seq<string>)
    ensures PlanChanges(current, screener).toRemove * PlanChanges(current, screener).special == {}
    ensures PlanChanges(current, screener).toRemove + PlanChanges(current, screener).special <= current
    ensures forall t :: t in current ==>
              t in PlanChanges(current, screener).toRemove + PlanChanges(current, screener).special || Upper(t) in screener
  {
    var p := PlanChanges(current, screener);
    assert forall t :: t in p.toRemove ==> !HasSpecialChars(Some(t));
  }

  /** No added symbol matches a stored one case-insensitively, and every
      screener symbol that matches none is added. */
  lemma AddsOnlyNewSymbols(current: set<string>, screener: seq<string>)
    ensures forall a, c :: a in PlanChanges(current, screener).toAdd && c in current ==> Upper(a) != Upper(c)
    ensures forall t :: t in screener && Unmatched(t, current) ==> t in PlanChanges(current, screener).toAdd
  {
    forall a | a in PlanChanges(current, screener).toAdd
      ensures Unmatched(a, current)
    {
      NewSymbolsIff(screener, current, a);
    }
    forall t | t in screener && Unmatched(t, current)
      ensures t in PlanChanges(current, screener).toAdd
    {
      NewSymbolsIff(screener, current, t);
    }
  }

  /** `set(t.upper() for t in all_to_remove)`. */
  function RemoveKeys(all: set<string>): (r: set<string>)
    ensures forall t :: t in all ==> Upper(t) in r
    ensures forall k :: k in r ==> exists t :: t in all && Upper(t) == k
  {
    set t | t in all :: Upper(t)
  }

  /** `chunk[~chunk["ticker"].str.upper().isin(remove_set)]`: the rows whose
      upper-cased symbol is not removed, in order. */
  function Kept(rows: seq<Row>, keys: set<string>): (r: seq<Row>)
    ensures |r| <= |rows|
    decreases |rows|
  {
    if |rows| == 0 then []
    else
      var x := rows[|rows| - 1];
      Kept(rows[..|rows| - 1], keys) + (if Upper(x.ticker) !in keys then [x] else [])
  }

  /** A row is kept exactly when it is in the input and its upper-cased
      symbol is not removed. */
  lemma {:induction false} KeptIff(rows: seq<Row>, keys: set<string>)
    ensures forall x :: x in Kept(rows, keys) <==> x in rows && Upper(x.ticker) !in keys
    decreases |rows|
  {
    if |rows| > 0 {
      var n := |rows| - 1;
      KeptIff(rows[..n], keys);
      assert rows == rows[..n] + [rows[n]];
    }
  }

  /** The filter works piecewise, so the kept rows keep their relative
      order. */
  lemma {:induction false} KeptConcat(a: seq<Row>, b: seq<Row>, keys: set<string>)
    ensures Kept(a + b, keys) == Kept(a, keys) + Kept(b, keys)
    decreases |b|
  {
    if |b| == 0 {
      assert a + b == a;
    } else {
      var n := |b| - 1;
      var x := b[n];
      var last := if Upper(x.ticker) !in keys then [x] else [];
      KeptConcat(a, b[..n], keys);
      assert Kept(a + b, keys) == Kept(a + b[..n], keys) + last by {
        assert (a + b)[..|a + b| - 1] == a + b[..n];
        assert (a + b)[|a + b| - 1] == x;
      }
      assert Kept(b, keys) == Kept(b[..n], keys) + last;
      assert (Kept(a, keys) + Kept(b[..n], keys)) + last == Kept(a, keys) + (Kept(b[..n], keys) + last);
    }
  }

  /** With nothing removed every row is kept. */
  lemma {:induction false} KeptNothingRemoved(rows: seq<Row>, keys: set<string>)
    requires forall i :: 0 <= i < |rows| ==> Upper(rows[i].ticker) !in keys
    ensures Kept(rows, keys) == rows
    decreases |rows|
  {
    if |rows| > 0 {
      var n := |rows| - 1;
      var front := rows[..n];
      assert forall i :: 0 <= i < n ==> front[i] == rows[i];
      KeptNothingRemoved(front, keys);
      assert rows == front + [rows[n]];
    }
  }

  /** The removal loop over one store: read it in chunks, keep the rows of
      each chunk that are not removed, and write their concatenation back. */
  method RewriteWithout(file: CsvFile, keys: set<string>, chunkSize: int)
    requires file.Valid() && file.present && chunkSize > 0
    modifies file
    ensures file.Valid() && file.present && file.header == old(file.header)
    ensures file.rows == Kept(old(file.rows), keys)
  {
    var chunks := Chunked(file.rows, chunkSize);
    var parts: seq<seq<Row>> := [];
    for i := 0 to |chunks|
      invariant unchanged(file)
      invariant Flatten(parts) == Kept(Flatten(chunks[..i]), keys)
    {
      var chunk := chunks[i];
      var kept := Kept(chunk, keys);
      FlattenSnoc(chunks, i);
      KeptConcat(Flatten(chunks[..i]), chunk, keys);
      FlattenAppend(parts, [kept]);
      assert Flatten([kept]) == kept + Flatten([]);
      parts := parts + [kept];
    }
    assert chunks[..|chunks|] == chunks;
    ChunkedFlatten(file.rows, chunkSize);
    file.Rewrite(Flatten(parts));
  }

  /** The store contents after the removal step: rewritten only when there
      is something to remove and the daily store exists (the hourly store
      also has to exist itself). */
  function AfterRemoval(rows: seq<Row>, rewritten: bool, keys: set<string>): seq<Row> {
    if rewritten then Kept(rows, keys) else rows
  }

  /** Of the rows whose symbol was stored, the rewrite keeps exactly those
      whose symbol the screener lists (after upper-casing) and which have no
      invalid character. */
  lemma ReconciledRows(rows: seq<Row>, current: set<string>, screener: seq<string>)
    requires forall x :: x in rows ==> x.ticker in current
    ensures var p := PlanChanges(current, screener);
      forall x :: x in Kept(rows, RemoveKeys(p.toRemove + p.special)) <==>
        x in rows && Upper(x.ticker) in screener && !HasSpecialChars(Some(x.ticker))
  {
    var p := PlanChanges(current, screener);
    var all := p.toRemove + p.special;
    var keys := RemoveKeys(all);
    KeptIff(rows, keys);
    forall x | x in rows
      ensures Upper(x.ticker) !in keys <==> Upper(x.ticker) in screener && !HasSpecialChars(Some(x.ticker))
    {
      if Upper(x.ticker) in keys {
        var t :| t in all && Upper(t) == Upper(x.ticker);
        SpecialIgnoresCase(t);
        SpecialIgnoresCase(x.ticker);
      }
    }
  }

  /** What a reconciliation did: the plan, whether the stores were
      rewritten and, when symbols were added, the initial download's
      results. */
  datatype Outcome = Outcome(plan: Plan, rewritten: bool, dailyAdded: nat, hourlyAdded: nat,
                             failed: seq<Failure>, events: seq<Event>)

  /** `reconcile_stocks`: compute the plan from the screener and the stored
      symbols; on a dry run stop there. Otherwise remove the rows of every
      removed symbol from the daily store and, when it exists, from the
      hourly store (both only when there is something to remove and the
      daily store exists), then run the initial download for the added
      symbols. */
  method ReconcileStocks(daily: CsvFile, hourly: CsvFile, screenerRows: seq<ScreenerRow>,
                         minPrice: int, maxPrice: int, start: int, end: int,
                         cfg: Config, fetch: Request -> Option<Frame>, dryRun: bool)
    returns (outcome: Outcome)
    requires daily != hourly && daily.Valid() && hourly.Valid()
    modifies daily, hourly
    ensures var current := CurrentTickers(old(daily.rows), old(hourly.rows));
      outcome.plan == PlanChanges(current, UpperAll(Screened(screenerRows, minPrice, maxPrice)))
    ensures dryRun ==> unchanged(daily) && unchanged(hourly) && !outcome.rewritten && outcome.events == []
    ensures !dryRun ==>
      var all := outcome.plan.toRemove + outcome.plan.special;
      var keys := RemoveKeys(all);
      var toAdd := outcome.plan.toAdd;
      var reqs := InitRequests(toAdd, start, end, cfg.hourlyMaxDays);
      var dailyKept := AfterRemoval(old(daily.rows), outcome.rewritten, keys);
      var hourlyKept := AfterRemoval(old(hourly.rows), outcome.rewritten && old(hourly.present), keys);
      && outcome.rewritten == (all != {} && old(daily.present))
      && daily.Valid() && hourly.Valid()
      && (|toAdd| == 0 ==>
            && daily.present == old(daily.present) && daily.header == old(daily.header) && daily.rows == dailyKept
            && hourly.present == old(hourly.present) && hourly.header == old(hourly.header) && hourly.rows == hourlyKept
            && outcome.events == [] && outcome.failed == [])
      && (|toAdd| > 0 ==>
            && daily.present && daily.header == InitHeader(old(daily.present), old(daily.header), Daily)
            && hourly.present && hourly.header == InitHeader(old(hourly.present), old(hourly.header), Hourly)
            && daily.rows == dailyKept + AppendedBy(fetch, reqs, Daily)
            && hourly.rows == hourlyKept + AppendedBy(fetch, reqs, Hourly)
            && outcome.dailyAdded == |AppendedBy(fetch, reqs, Daily)|
            && outcome.hourlyAdded == |AppendedBy(fetch, reqs, Hourly)|
            && outcome.failed == FailuresOf(fetch, reqs)
            && outcome.events == InitLog(toAdd, start, end, cfg)
            && Requests(outcome.events) == reqs
            && RunsBounded(outcome.events, Slack(cfg.pauseAfter) + 2)
            && Trailing(outcome.events) <= Slack(cfg.pauseAfter)
            && PausesLast(outcome.events, cfg.pauseSeconds)
            && (cfg.pauseAfter >= 1 ==> PausesFollowCalls(outcome.events)))
  {
    var screener := UpperAll(Screened(screenerRows, minPrice, maxPrice));
    var current := CurrentTickers(daily.rows, hourly.rows);
    var plan := PlanChanges(current, screener);
    outcome := Outcome(plan, false, 0, 0, [], []);
    if dryRun {
      return;
    }

    // Remove invalid tickers
    var all := plan.toRemove + plan.special;
    var keys := RemoveKeys(all);
    var rewritten := all != {} && daily.present;
    if rewritten {
      RewriteWithout(daily, keys, 100000);
      if hourly.present {
        RewriteWithout(hourly, keys, 100000);
      }
    }

    // Add new tickers
    var dailyAdded, hourlyAdded, failed, events := 0, 0, [], [];
    if |plan.toAdd| > 0 {
      dailyAdded, hourlyAdded, failed, events := InitialDownload(daily, hourly, plan.toAdd, start, end, cfg, fetch, false);
    }
    outcome := Outcome(plan, rewritten, dailyAdded, hourlyAdded, failed, events);
  }
}
