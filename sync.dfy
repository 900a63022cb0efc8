/** The synchronisation runs: the initial download (`initial_download`) and
    the incremental update (`update_data`), with the provider taken as a
    function from requests to responses and the stores as CSV files. */
module Sync {
  import opened Text
  import opened Bars
  import opened Chunks
  import opened Formatter
  import opened Watermark
  import opened Planning
  import opened Store

  /** `download_ticker_data`: the response, or None when the provider call
      raised or returned no data. */
  function Download(fetch: Request -> Option<Frame>, req: Request): (d: Option<Frame>)
    ensures d.Some? <==> fetch(req).Some? && !IsEmpty(fetch(req).value)
    ensures d.Some? ==> d == fetch(req)
  {
    match fetch(req)
    case None => None
    case Some(f) => if IsEmpty(f) then None else Some(f)
  }

  /** The formatted rows a request yields (none when the download or the
      formatting fails). */
  function Fetched(fetch: Request -> Option<Frame>, req: Request): (rs: seq<Row>)
    ensures forall i :: 0 <= i < |rs| ==> rs[i].ticker == req.ticker && rs[i].interval == Label(req.gran)
  {
    match Download(fetch, req)
    case None => []
    case Some(f) => Formatted(req.gran, f, req.ticker)
  }

  /** Download one request and append what the formatter makes of it. */
  method FetchAndAppend(file: CsvFile, fetch: Request -> Option<Frame>, req: Request)
    returns (added: nat, ok: bool)
    requires file.Valid() && file.present
    modifies file
    ensures file.Valid() && file.present && file.header == old(file.header)
    ensures file.rows == old(file.rows) + Fetched(fetch, req)
    ensures added == |Fetched(fetch, req)| && ok == Download(fetch, req).Some?
  {
    added, ok := 0, false;
    var raw := Download(fetch, req);
    if raw.Some? && !IsEmpty(raw.value) {
      ok := true;
      var formatted := FormatData(req.gran, raw.value, req.ticker);
      if |formatted| > 0 {
        file.Append(formatted);
        added := |formatted|;
      } else {
        assert file.rows == old(file.rows) + formatted;
      }
    } else {
      assert file.rows == old(file.rows) + [];
    }
  }

  // ---------------------------------------------------------------------
  // Initial download

  /** The two calls the initial download makes for one ticker: the full
      daily history, then the hourly history clamped to `HOURLY_MAX_DAYS`. */
  function InitRequestsFor(ticker: string, start: int, end: int, maxDays: int): (rs: seq<Request>)
    ensures |rs| == 2 && rs[0].gran == Daily && rs[1].gran == Hourly
    ensures rs[0].ticker == ticker && rs[1].ticker == ticker
  {
    [DownloadRequest(ticker, Daily, start, end), DownloadRequest(ticker, Hourly, HourlyStart(start, end, maxDays), end)]
  }

  /** Every call of the initial download, in order. */
  function InitRequests(tickers: seq<string>, start: int, end: int, maxDays: int): (rs: seq<Request>)
    ensures |rs| == 2 * |tickers|
    decreases |tickers|
  {
    if |tickers| == 0 then []
    else InitRequests(tickers[..|tickers| - 1], start, end, maxDays) + InitRequestsFor(tickers[|tickers| - 1], start, end, maxDays)
  }

  /** The initial download asks for every ticker's daily bars from `start`
      and its hourly bars from the clamped start, both up to one day past
      `end`. */
  lemma {:induction false} InitRequestsCover(tickers: seq<string>, start: int, end: int, maxDays: int)
    ensures forall i :: 0 <= i < |tickers| ==>
      && InitRequests(tickers, start, end, maxDays)[2 * i] == Request(tickers[i], Daily, start, end + Day)
      && InitRequests(tickers, start, end, maxDays)[2 * i + 1] == Request(tickers[i], Hourly, HourlyStart(start, end, maxDays), end + Day)
    decreases |tickers|
  {
    if |tickers| > 0 {
      var n := |tickers| - 1;
      InitRequestsCover(tickers[..n], start, end, maxDays);
      assert forall i :: 0 <= i < n ==> tickers[..n][i] == tickers[i];
    }
  }

  /** The log of an initial download over `tickers`: for each ticker its
      two calls, then the rate-limit check. */
  function InitLog(tickers: seq<string>, start: int, end: int, cfg: Config): (es: seq<Event>)
    ensures Requests(es) == InitRequests(tickers, start, end, cfg.hourlyMaxDays)
    decreases |tickers|
  {
    if |tickers| == 0 then []
    else
      var n := |tickers| - 1;
      Throttled(InitLog(tickers[..n], start, end, cfg), InitRequestsFor(tickers[n], start, end, cfg.hourlyMaxDays), cfg)
  }

  /** The limits an initial download keeps: at most `PAUSE_AFTER_BATCHES`
      plus one calls between two pauses (the check runs after each ticker's
      two calls), a counter within the slack at the end, pauses of
      `PAUSE_DURATION_SECONDS`, and, for a threshold of at least one, no
      pause that does not follow a call. */
  lemma {:induction false} InitLogLimits(tickers: seq<string>, start: int, end: int, cfg: Config)
    ensures var es := InitLog(tickers, start, end, cfg);
            && RunsBounded(es, Slack(cfg.pauseAfter) + 2)
            && Trailing(es) <= Slack(cfg.pauseAfter)
            && PausesLast(es, cfg.pauseSeconds)
            && (cfg.pauseAfter >= 1 ==> PausesFollowCalls(es))
    decreases |tickers|
  {
    if |tickers| > 0 {
      var n := |tickers| - 1;
      var front := InitLog(tickers[..n], start, end, cfg);
      var pair := InitRequestsFor(tickers[n], start, end, cfg.hourlyMaxDays);
      InitLogLimits(tickers[..n], start, end, cfg);
      ThrottledKeepsLimits(front, pair, cfg, Slack(cfg.pauseAfter) + 2);
      if cfg.pauseAfter >= 1 {
        ThrottledPausesFollowCalls(front, pair, cfg);
      }
    }
  }

  /** The rows that the calls of granularity `g` among `reqs` append, in
      order. */
  function AppendedBy(fetch: Request -> Option<Frame>, reqs: seq<Request>, g: Granularity): (rs: seq<Row>)
    ensures forall i :: 0 <= i < |rs| ==> rs[i].interval == Label(g)
    decreases |reqs|
  {
    if |reqs| == 0 then []
    else
      var last := reqs[|reqs| - 1];
      AppendedBy(fetch, reqs[..|reqs| - 1], g) + (if last.gran == g then Fetched(fetch, last) else [])
  }

  /** One entry of the `failed` list: a ticker and the granularity whose
      download failed. */
  datatype Failure = Failure(ticker: string, gran: Granularity)

  /** The calls among `reqs` whose download failed, in order. */
  function FailuresOf(fetch: Request -> Option<Frame>, reqs: seq<Request>): (fs: seq<Failure>)
    ensures |fs| <= |reqs|
    decreases |reqs|
  {
    if |reqs| == 0 then []
    else
      var last := reqs[|reqs| - 1];
      FailuresOf(fetch, reqs[..|reqs| - 1]) + (if Download(fetch, last).None? then [Failure(last.ticker, last.gran)] else [])
  }

  /** A download is reported failed exactly when it raised or returned no
      data; a response the formatter rejects is not reported. */
  lemma {:induction false} FailuresAreFailedDownloads(fetch: Request -> Option<Frame>, reqs: seq<Request>, fl: Failure)
    ensures fl in FailuresOf(fetch, reqs) <==>
              exists i :: 0 <= i < |reqs| && Download(fetch, reqs[i]).None? && fl == Failure(reqs[i].ticker, reqs[i].gran)
    decreases |reqs|
  {
    if |reqs| > 0 {
      var n := |reqs| - 1;
      FailuresAreFailedDownloads(fetch, reqs[..n], fl);
      assert forall i :: 0 <= i < n ==> reqs[..n][i] == reqs[i];
      if exists i :: 0 <= i < |reqs| && Download(fetch, reqs[i]).None? && fl == Failure(reqs[i].ticker, reqs[i].gran) {
        var i :| 0 <= i < |reqs| && Download(fetch, reqs[i]).None? && fl == Failure(reqs[i].ticker, reqs[i].gran);
        if i < n {
          assert reqs[..n][i] == reqs[i];
        }
      }
    }
  }

  /** Concatenation is associative (stated once, so that the solver does
      not compare the formatted rows element by element). */
  lemma ConcatAssoc<T>(x: seq<T>, y: seq<T>, z: seq<T>)
    ensures (x + y) + z == x + (y + z)
  {
  }

  lemma {:induction false} AppendedByConcat(fetch: Request -> Option<Frame>, a: seq<Request>, b: seq<Request>, g: Granularity)
    ensures AppendedBy(fetch, a + b, g) == AppendedBy(fetch, a, g) + AppendedBy(fetch, b, g)
    decreases |b|
  {
    if |b| == 0 {
      assert a + b == a;
    } else {
      var n := |b| - 1;
      var last := if b[n].gran == g then Fetched(fetch, b[n]) else [];
      AppendedByConcat(fetch, a, b[..n], g);
      assert AppendedBy(fetch, a + b, g) == AppendedBy(fetch, a + b[..n], g) + last by {
        assert (a + b)[..|a + b| - 1] == a + b[..n];
        assert (a + b)[|a + b| - 1] == b[n];
      }
      assert AppendedBy(fetch, b, g) == AppendedBy(fetch, b[..n], g) + last;
      ConcatAssoc(AppendedBy(fetch, a, g), AppendedBy(fetch, b[..n], g), last);
    }
  }

  lemma {:induction false} FailuresOfConcat(fetch: Request -> Option<Frame>, a: seq<Request>, b: seq<Request>)
    ensures FailuresOf(fetch, a + b) == FailuresOf(fetch, a) + FailuresOf(fetch, b)
    decreases |b|
  {
    if |b| == 0 {
      assert a + b == a;
    } else {
      var n := |b| - 1;
      var last := if Download(fetch, b[n]).None? then [Failure(b[n].ticker, b[n].gran)] else [];
      FailuresOfConcat(fetch, a, b[..n]);
      assert FailuresOf(fetch, a + b) == FailuresOf(fetch, a + b[..n]) + last by {
        assert (a + b)[..|a + b| - 1] == a + b[..n];
        assert (a + b)[|a + b| - 1] == b[n];
      }
      assert FailuresOf(fetch, b) == FailuresOf(fetch, b[..n]) + last;
      ConcatAssoc(FailuresOf(fetch, a), FailuresOf(fetch, b[..n]), last);
    }
  }

  /** The two calls for one ticker split over the two stores. */
  lemma AppendedByPair(fetch: Request -> Option<Frame>, d: Request, h: Request)
    requires d.gran == Daily && h.gran == Hourly
    ensures AppendedBy(fetch, [d, h], Daily) == Fetched(fetch, d)
    ensures AppendedBy(fetch, [d, h], Hourly) == Fetched(fetch, h)
    ensures FailuresOf(fetch, [d, h]) ==
      (if Download(fetch, d).None? then [Failure(d.ticker, Daily)] else []) +
      (if Download(fetch, h).None? then [Failure(h.ticker, Hourly)] else [])
  {
    var fd, fh := Fetched(fetch, d), Fetched(fetch, h);
    assert [d, h][..1] == [d] && [d][..0] == [];
    assert AppendedBy(fetch, [d, h], Daily) == fd by {
      assert AppendedBy(fetch, [d], Daily) == [] + fd;
      assert [] + fd == fd;
    }
    assert AppendedBy(fetch, [d, h], Hourly) == fh by {
      assert AppendedBy(fetch, [d], Hourly) == [];
      assert [] + fh == fh;
    }
    assert FailuresOf(fetch, [d]) == (if Download(fetch, d).None? then [Failure(d.ticker, Daily)] else []) by {
      assert FailuresOf(fetch, [d][..0]) == [];
    }
  }

  /** The header a store gets from the initial download: its own when it
      exists, the schema otherwise. */
  function InitHeader(present: bool, header: seq<string>, g: Granularity): seq<string> {
    if present then header else Schema(g)
  }

  /** The body of the ticker loop of `initial_download`: the daily history
      goes to the daily store, the hourly history to the hourly store, and
      each failed download is reported. */
  method InitTicker(daily: CsvFile, hourly: CsvFile, fetch: Request -> Option<Frame>,
                    ticker: string, start: int, end: int, maxDays: int)
    returns (dailyAdded: nat, hourlyAdded: nat, failed: seq<Failure>)
    requires daily != hourly && daily.Valid() && daily.present && hourly.Valid() && hourly.present
    modifies daily, hourly
    ensures daily.Valid() && daily.present && daily.header == old(daily.header)
    ensures hourly.Valid() && hourly.present && hourly.header == old(hourly.header)
    ensures daily.rows == old(daily.rows) + AppendedBy(fetch, InitRequestsFor(ticker, start, end, maxDays), Daily)
    ensures hourly.rows == old(hourly.rows) + AppendedBy(fetch, InitRequestsFor(ticker, start, end, maxDays), Hourly)
    ensures dailyAdded == |AppendedBy(fetch, InitRequestsFor(ticker, start, end, maxDays), Daily)|
    ensures hourlyAdded == |AppendedBy(fetch, InitRequestsFor(ticker, start, end, maxDays), Hourly)|
    ensures failed == FailuresOf(fetch, InitRequestsFor(ticker, start, end, maxDays))
  {
    var dreq := DownloadRequest(ticker, Daily, start, end);
    var hreq := DownloadRequest(ticker, Hourly, HourlyStart(start, end, maxDays), end);
    assert InitRequestsFor(ticker, start, end, maxDays) == [dreq, hreq];
    AppendedByPair(fetch, dreq, hreq);
    failed := [];

    // Daily data
    var ok;
    dailyAdded, ok := FetchAndAppend(daily, fetch, dreq);
    if !ok {
      failed := failed + [Failure(ticker, Daily)];
    }

    // Hourly data
    hourlyAdded, ok := FetchAndAppend(hourly, fetch, hreq);
    if !ok {
      failed := failed + [Failure(ticker, Hourly)];
    }
  }

  /** The calls of one step, then the rate-limit check: the count grows by
      the calls made, and a count that reaches `PAUSE_AFTER_BATCHES` is
      followed by one pause and restarts from zero. */
  method LogAndThrottle(events: seq<Event>, requestCount: nat, rs: seq<Request>, cfg: Config)
    returns (events': seq<Event>, requestCount': nat)
    requires requestCount == Trailing(events)
    ensures events' == Throttled(events, rs, cfg)
    ensures Requests(events') == Requests(events) + rs
    ensures requestCount' == Trailing(events')
    ensures requestCount' == if requestCount + |rs| >= cfg.pauseAfter then 0 else requestCount + |rs|
  {
    events' := events + Calls(rs);
    requestCount' := requestCount + |rs|;
    if requestCount' >= cfg.pauseAfter {
      events' := events' + [Paused(cfg.pauseSeconds)];
      requestCount' := 0;
    }
  }

  /** The ticker loop of `initial_download`: every ticker's two calls in
      order, two counted calls per ticker and a pause after any ticker that
      brings the count to `PAUSE_AFTER_BATCHES`. */
  method DownloadAll(daily: CsvFile, hourly: CsvFile, tickers: seq<string>, start: int, end: int,
                     cfg: Config, fetch: Request -> Option<Frame>)
    returns (dailyAdded: nat, hourlyAdded: nat, failed: seq<Failure>, events: seq<Event>)
    requires daily != hourly && daily.Valid() && daily.present && hourly.Valid() && hourly.present
    modifies daily, hourly
    ensures daily.Valid() && daily.present && daily.header == old(daily.header)
    ensures hourly.Valid() && hourly.present && hourly.header == old(hourly.header)
    ensures daily.rows == old(daily.rows) + AppendedBy(fetch, InitRequests(tickers, start, end, cfg.hourlyMaxDays), Daily)
    ensures hourly.rows == old(hourly.rows) + AppendedBy(fetch, InitRequests(tickers, start, end, cfg.hourlyMaxDays), Hourly)
    ensures dailyAdded == |AppendedBy(fetch, InitRequests(tickers, start, end, cfg.hourlyMaxDays), Daily)|
    ensures hourlyAdded == |AppendedBy(fetch, InitRequests(tickers, start, end, cfg.hourlyMaxDays), Hourly)|
    ensures failed == FailuresOf(fetch, InitRequests(tickers, start, end, cfg.hourlyMaxDays))
    ensures events == InitLog(tickers, start, end, cfg)
    ensures Requests(events) == InitRequests(tickers, start, end, cfg.hourlyMaxDays)
    ensures RunsBounded(events, Slack(cfg.pauseAfter) + 2)
    ensures Trailing(events) <= Slack(cfg.pauseAfter)
    ensures PausesLast(events, cfg.pauseSeconds)
    ensures cfg.pauseAfter >= 1 ==> PausesFollowCalls(events)
  {
    dailyAdded, hourlyAdded, failed, events := 0, 0, [], [];
    ghost var reqs: seq<Request> := [];
    var requestCount := 0;
    for i := 0 to |tickers|
      invariant reqs == InitRequests(tickers[..i], start, end, cfg.hourlyMaxDays)
      invariant daily.Valid() && daily.present && daily.header == old(daily.header)
      invariant hourly.Valid() && hourly.present && hourly.header == old(hourly.header)
      invariant daily.rows == old(daily.rows) + AppendedBy(fetch, reqs, Daily)
      invariant hourly.rows == old(hourly.rows) + AppendedBy(fetch, reqs, Hourly)
      invariant dailyAdded == |AppendedBy(fetch, reqs, Daily)| && hourlyAdded == |AppendedBy(fetch, reqs, Hourly)|
      invariant failed == FailuresOf(fetch, reqs)
      invariant events == InitLog(tickers[..i], start, end, cfg)
      invariant requestCount == Trailing(events)
    {
      var ticker := tickers[i];
      var pair := InitRequestsFor(ticker, start, end, cfg.hourlyMaxDays);
      assert tickers[..i + 1][..i] == tickers[..i];
      assert InitRequests(tickers[..i + 1], start, end, cfg.hourlyMaxDays) == reqs + pair;
      AppendedByConcat(fetch, reqs, pair, Daily);
      AppendedByConcat(fetch, reqs, pair, Hourly);
      FailuresOfConcat(fetch, reqs, pair);
      ConcatAssoc(old(daily.rows), AppendedBy(fetch, reqs, Daily), AppendedBy(fetch, pair, Daily));
      ConcatAssoc(old(hourly.rows), AppendedBy(fetch, reqs, Hourly), AppendedBy(fetch, pair, Hourly));

      var d, h, f := InitTicker(daily, hourly, fetch, ticker, start, end, cfg.hourlyMaxDays);
      dailyAdded, hourlyAdded, failed := dailyAdded + d, hourlyAdded + h, failed + f;
      assert InitLog(tickers[..i + 1], start, end, cfg) == Throttled(events, pair, cfg);
      events, requestCount := LogAndThrottle(events, requestCount, pair, cfg);
      reqs := reqs + pair;
    }
    assert tickers[..|tickers|] == tickers;
    InitLogLimits(tickers, start, end, cfg);
  }

  /** `initial_download`: create missing stores with their header, then for
      every ticker download, format and append its daily and its hourly
      history, counting two calls per ticker and pausing once the count
      reaches `PAUSE_AFTER_BATCHES`. Nothing is de-duplicated. A dry run
      changes nothing. */
  method InitialDownload(daily: CsvFile, hourly: CsvFile, tickers: seq<string>, start: int, end: int,
                         cfg: Config, fetch: Request -> Option<Frame>, dryRun: bool)
    returns (dailyAdded: nat, hourlyAdded: nat, failed: seq<Failure>, events: seq<Event>)
    requires daily != hourly && daily.Valid() && hourly.Valid()
    modifies daily, hourly
    ensures dryRun ==> unchanged(daily) && unchanged(hourly)
    ensures dryRun ==> dailyAdded == 0 && hourlyAdded == 0 && failed == [] && events == []
    ensures !dryRun ==>
      var reqs := InitRequests(tickers, start, end, cfg.hourlyMaxDays);
      && daily.Valid() && daily.present && daily.header == InitHeader(old(daily.present), old(daily.header), Daily)
      && hourly.Valid() && hourly.present && hourly.header == InitHeader(old(hourly.present), old(hourly.header), Hourly)
      && daily.rows == old(daily.rows) + AppendedBy(fetch, reqs, Daily)
      && hourly.rows == old(hourly.rows) + AppendedBy(fetch, reqs, Hourly)
      && dailyAdded == |AppendedBy(fetch, reqs, Daily)| && hourlyAdded == |AppendedBy(fetch, reqs, Hourly)|
      && failed == FailuresOf(fetch, reqs)
      && events == InitLog(tickers, start, end, cfg)
      && Requests(events) == reqs
      && RunsBounded(events, Slack(cfg.pauseAfter) + 2)
      && Trailing(events) <= Slack(cfg.pauseAfter)
      && PausesLast(events, cfg.pauseSeconds)
      && (cfg.pauseAfter >= 1 ==> PausesFollowCalls(events))
  {
    dailyAdded, hourlyAdded, failed, events := 0, 0, [], [];
    if dryRun {
      return;
    }
    if !daily.present {
      daily.CreateWithHeader(Schema(Daily));
    }
    if !hourly.present {
      hourly.CreateWithHeader(Schema(Hourly));
    }
    dailyAdded, hourlyAdded, failed, events := DownloadAll(daily, hourly, tickers, start, end, cfg, fetch);
  }

  // ---------------------------------------------------------------------
  // Incremental update

  /** `[t for t in tickers if t.upper() in latest_by_ticker]`. */
  function KnownTickers(tickers: seq<string>, stamps: map<string, int>): (r: seq<string>)
    ensures forall x :: x in r <==> x in tickers && Upper(x) in stamps
    ensures |r| <= |tickers|
    decreases |tickers|
  {
    if |tickers| == 0 then []
    else
      var last := tickers[|tickers| - 1];
      KnownTickers(tickers[..|tickers| - 1], stamps) + (if Upper(last) in stamps then [last] else [])
  }

  /** The tickers an update visits: the requested ones that the store knows
      (when any were requested), otherwise every key of the index. */
  function ToUpdate(latest: Latest, tickers: seq<string>): seq<string> {
    if |tickers| > 0 then KnownTickers(tickers, latest.stamps) else latest.order
  }

  /** Only tickers the index knows are visited. */
  lemma VisitedAreKnown(rows: seq<Row>, tickers: seq<string>)
    ensures forall x :: x in ToUpdate(LatestOf(rows), tickers) ==> Upper(x) in LatestOf(rows).stamps
    ensures |tickers| == 0 ==> forall k :: k in ToUpdate(LatestOf(rows), tickers) <==> k in LatestOf(rows).stamps
  {
    LatestOfWellFormed(rows);
    LatestKeysNormalised(rows);
  }

  /** The call made for one ticker of an update, if any: none for a ticker
      without a watermark or one already up to date. */
  function UpdateRequest(t: Target, stamps: map<string, int>, ticker: string, now: int): (r: Option<Request>)
    ensures r.Some? ==> Upper(ticker) in stamps
    ensures r.Some? ==> r.value == Request(ticker, t.gran, stamps[Upper(ticker)] + t.step, now + t.endPad + Day)
    ensures r.None? <==> Upper(ticker) !in stamps || stamps[Upper(ticker)] + t.step >= now + t.endPad
  {
    var k := Upper(ticker);
    if k !in stamps then None
    else match UpdateWindow(t, stamps[k], now)
      case None => None
      case Some(w) => Some(DownloadRequest(ticker, t.gran, w.0, w.1))
  }

  /** `formatted[formatted[time_col] > last_seen]`: the rows strictly newer
      than the watermark, in order (a missing time never compares greater). */
  function NewerThan(rows: seq<Row>, last: int): (r: seq<Row>)
    ensures |r| <= |rows|
    decreases |rows|
  {
    if |rows| == 0 then []
    else
      var x := rows[|rows| - 1];
      NewerThan(rows[..|rows| - 1], last) + (if x.time.Value? && x.time.v > last then [x] else [])
  }

  /** A row survives the filter exactly when it is in the input and its
      time is later than the watermark. */
  lemma {:induction false} NewerThanIff(rows: seq<Row>, last: int)
    ensures forall x :: x in NewerThan(rows, last) <==> x in rows && x.time.Value? && x.time.v > last
    decreases |rows|
  {
    if |rows| > 0 {
      var n := |rows| - 1;
      NewerThanIff(rows[..n], last);
      assert rows == rows[..n] + [rows[n]];
    }
  }

  /** The filter keeps every row that is newer and only those, so the number
      of rows appended is the number of newer formatted rows. */
  lemma NewerThanCount(rows: seq<Row>, last: int)
    ensures |NewerThan(rows, last)| == |set i | 0 <= i < |rows| && rows[i].time.Value? && rows[i].time.v > last|
  {
    NewerThanPrefixCount(rows, last, |rows|);
    assert rows[..|rows|] == rows;
    assert NewerIndices(rows, last, |rows|) == set i | 0 <= i < |rows| && rows[i].time.Value? && rows[i].time.v > last;
  }

  /** The indices below `n` of the bars after `last`. */
  ghost function NewerIndices(rows: seq<Row>, last: int, n: nat): (s: set<int>)
    requires n <= |rows|
    ensures forall i :: i in s <==> 0 <= i < n && rows[i].time.Value? && rows[i].time.v > last
    decreases n
  {
    if n == 0 then {}
    else NewerIndices(rows, last, n - 1) + (if rows[n - 1].time.Value? && rows[n - 1].time.v > last then {n - 1} else {})
  }

  lemma {:induction false} NewerThanPrefixCount(rows: seq<Row>, last: int, n: nat)
    requires n <= |rows|
    ensures |NewerThan(rows[..n], last)| == |NewerIndices(rows, last, n)|
    decreases n
  {
    if n > 0 {
      var x := rows[n - 1];
      NewerThanPrefixCount(rows, last, n - 1);
      assert NewerThan(rows[..n], last) == NewerThan(rows[..n - 1], last) + (if x.time.Value? && x.time.v > last then [x] else []) by {
        assert rows[..n][..n - 1] == rows[..n - 1];
        assert rows[..n][n - 1] == x;
      }
      NewerIndicesSnoc(rows, last, n);
    }
  }

  lemma NewerIndicesSnoc(rows: seq<Row>, last: int, n: nat)
    requires 0 < n <= |rows|
    ensures |NewerIndices(rows, last, n)| == |NewerIndices(rows, last, n - 1)|
      + (if rows[n - 1].time.Value? && rows[n - 1].time.v > last then 1 else 0)
  {
    assert n - 1 !in NewerIndices(rows, last, n - 1);
  }

  /** A response whose bars up to index `k` are at or before the watermark
      and whose later bars are after it yields exactly its suffix from `k`
      (the case of a response in time order). */
  lemma NewerThanSuffix(rows: seq<Row>, last: int, k: nat)
    requires k <= |rows|
    requires forall i :: 0 <= i < |rows| ==> rows[i].time.Value?
    requires forall i :: 0 <= i < k ==> rows[i].time.v <= last
    requires forall i :: k <= i < |rows| ==> rows[i].time.v > last
    ensures NewerThan(rows, last) == rows[k..]
  {
    NewerThanPrefixSuffix(rows, last, k, |rows|);
    assert rows[..|rows|] == rows;
  }

  /** The prefix form of the lemma above, over a fixed response. */
  lemma {:induction false} NewerThanPrefixSuffix(rows: seq<Row>, last: int, k: nat, m: nat)
    requires k <= |rows| && m <= |rows|
    requires forall i :: 0 <= i < |rows| ==> rows[i].time.Value?
    requires forall i :: 0 <= i < k ==> rows[i].time.v <= last
    requires forall i :: k <= i < |rows| ==> rows[i].time.v > last
    ensures NewerThan(rows[..m], last) == if m <= k then [] else rows[k..m]
    decreases m
  {
    if m > 0 {
      var x := rows[m - 1];
      NewerThanPrefixSuffix(rows, last, k, m - 1);
      assert NewerThan(rows[..m], last) == NewerThan(rows[..m - 1], last) + (if x.time.Value? && x.time.v > last then [x] else []) by {
        assert rows[..m][..m - 1] == rows[..m - 1];
        assert rows[..m][m - 1] == x;
      }
      if m - 1 >= k {
        assert x.time.Value? && x.time.v > last;
        assert rows[k..m] == (if m - 1 <= k then [] else rows[k..m - 1]) + [x];
      } else {
        assert x.time.Value? && x.time.v <= last;
      }
    }
  }

  /** Daily bars of `ticker` at the starts of days `from` to `to`. */
  function DailyBars(ticker: string, from: int, to: int): (rs: seq<Row>)
    requires from <= to + 1
    ensures |rs| == to - from + 1
    ensures forall i :: 0 <= i < |rs| ==> rs[i].time == Value((from + i) * Day)
  {
    seq(to - from + 1, i requires 0 <= i < to - from + 1 =>
      Row(ticker, "daily", Value((from + i) * Day), Missing, Missing, Missing, Missing, Missing, 0))
  }

  /** A watermark at day 10 and a response holding days 10 to 15 append the
      five days 11 to 15. */
  lemma NewerThanExample(ticker: string)
    ensures NewerThan(DailyBars(ticker, 10, 15), 10 * Day) == DailyBars(ticker, 11, 15)
    ensures |NewerThan(DailyBars(ticker, 10, 15), 10 * Day)| == 5
  {
    var all := DailyBars(ticker, 10, 15);
    NewerThanSuffix(all, 10 * Day, 1);
    assert all[1..] == DailyBars(ticker, 11, 15);
  }

  /** The rows one ticker of an update appends. */
  function TickerUpdate(fetch: Request -> Option<Frame>, t: Target, stamps: map<string, int>, ticker: string, now: int): (rs: seq<Row>)
    ensures rs != [] ==> Upper(ticker) in stamps
    ensures forall i :: 0 <= i < |rs| ==>
      rs[i].ticker == ticker && rs[i].time.Value? && rs[i].time.v > stamps[Upper(ticker)]
  {
    match UpdateRequest(t, stamps, ticker, now)
    case None => []
    case Some(req) =>
      var rows := NewerThan(Fetched(fetch, req), stamps[Upper(ticker)]);
      NewerThanIff(Fetched(fetch, req), stamps[Upper(ticker)]);
      assert forall i :: 0 <= i < |rows| ==> rows[i] in rows;
      rows
  }

  /** The rows an update appends, ticker by ticker. */
  function UpdateAppended(fetch: Request -> Option<Frame>, t: Target, stamps: map<string, int>, todo: seq<string>, now: int): seq<Row>
    decreases |todo|
  {
    if |todo| == 0 then []
    else UpdateAppended(fetch, t, stamps, todo[..|todo| - 1], now) + TickerUpdate(fetch, t, stamps, todo[|todo| - 1], now)
  }

  /** The calls an update makes, ticker by ticker. */
  function UpdateRequests(t: Target, stamps: map<string, int>, todo: seq<string>, now: int): (rs: seq<Request>)
    ensures |rs| <= |todo|
    decreases |todo|
  {
    if |todo| == 0 then []
    else
      var r := UpdateRequest(t, stamps, todo[|todo| - 1], now);
      UpdateRequests(t, stamps, todo[..|todo| - 1], now) + (if r.Some? then [r.value] else [])
  }

  /** Every call of an update is for a ticker with a watermark, starts one
      step after it and ends one day past `now + end_pad`; every ticker that
      is not up to date is called. */
  lemma {:induction false} UpdateRequestsSpec(t: Target, stamps: map<string, int>, todo: seq<string>, now: int)
    ensures forall r :: r in UpdateRequests(t, stamps, todo, now) ==>
      && r.ticker in todo && Upper(r.ticker) in stamps
      && r.start == stamps[Upper(r.ticker)] + t.step && r.start < now + t.endPad
      && r.end == now + t.endPad + Day && r.gran == t.gran
    ensures forall x :: x in todo && Upper(x) in stamps && stamps[Upper(x)] + t.step < now + t.endPad ==>
      UpdateRequest(t, stamps, x, now).value in UpdateRequests(t, stamps, todo, now)
    decreases |todo|
  {
    if |todo| > 0 {
      var n := |todo| - 1;
      UpdateRequestsSpec(t, stamps, todo[..n], now);
      assert todo == todo[..n] + [todo[n]];
    }
  }

  lemma UpdateSnoc(fetch: Request -> Option<Frame>, t: Target, stamps: map<string, int>, todo: seq<string>, x: string, now: int)
    ensures UpdateAppended(fetch, t, stamps, todo + [x], now) == UpdateAppended(fetch, t, stamps, todo, now) + TickerUpdate(fetch, t, stamps, x, now)
    ensures UpdateRequests(t, stamps, todo + [x], now) ==
      UpdateRequests(t, stamps, todo, now) + (if UpdateRequest(t, stamps, x, now).Some? then [UpdateRequest(t, stamps, x, now).value] else [])
  {
    assert (todo + [x])[..|todo|] == todo;
  }

  lemma {:induction false} UpdateAppendedConcat(fetch: Request -> Option<Frame>, t: Target, stamps: map<string, int>, a: seq<string>, b: seq<string>, now: int)
    ensures UpdateAppended(fetch, t, stamps, a + b, now) == UpdateAppended(fetch, t, stamps, a, now) + UpdateAppended(fetch, t, stamps, b, now)
    decreases |b|
  {
    if |b| == 0 {
      assert a + b == a;
    } else {
      var n := |b| - 1;
      UpdateAppendedConcat(fetch, t, stamps, a, b[..n], now);
      assert UpdateAppended(fetch, t, stamps, a + b, now) == UpdateAppended(fetch, t, stamps, a + b[..n], now) + TickerUpdate(fetch, t, stamps, b[n], now) by {
        assert (a + b)[..|a + b| - 1] == a + b[..n];
        assert (a + b)[|a + b| - 1] == b[n];
      }
      ConcatAssoc(UpdateAppended(fetch, t, stamps, a, now), UpdateAppended(fetch, t, stamps, b[..n], now), TickerUpdate(fetch, t, stamps, b[n], now));
    }
  }

  lemma {:induction false} UpdateRequestsConcat(t: Target, stamps: map<string, int>, a: seq<string>, b: seq<string>, now: int)
    ensures UpdateRequests(t, stamps, a + b, now) == UpdateRequests(t, stamps, a, now) + UpdateRequests(t, stamps, b, now)
    decreases |b|
  {
    if |b| == 0 {
      assert a + b == a;
    } else {
      var n := |b| - 1;
      var r := UpdateRequest(t, stamps, b[n], now);
      var last := if r.Some? then [r.value] else [];
      UpdateRequestsConcat(t, stamps, a, b[..n], now);
      assert UpdateRequests(t, stamps, a + b, now) == UpdateRequests(t, stamps, a + b[..n], now) + last by {
        assert (a + b)[..|a + b| - 1] == a + b[..n];
        assert (a + b)[|a + b| - 1] == b[n];
      }
      assert UpdateRequests(t, stamps, b, now) == UpdateRequests(t, stamps, b[..n], now) + last;
      ConcatAssoc(UpdateRequests(t, stamps, a, now), UpdateRequests(t, stamps, b[..n], now), last);
    }
  }

  /** A ticker the index knows after upper-casing is normalised by the index
      to the same key, so its watermark covers all its stored rows. */
  lemma LookupKeyIsKey(rows: seq<Row>, x: string)
    requires Upper(x) in LatestOf(rows).stamps
    ensures Key(x) == Upper(x)
  {
    LatestKeysNormalised(rows);
    StripUpper(x);
  }

  /** An update never appends a row that is not strictly newer than every
      stored row of the same symbol, so no (symbol, time) pair is
      re-appended. */
  lemma {:induction false} UpdateAppendsOnlyNewRows(fetch: Request -> Option<Frame>, t: Target, rows: seq<Row>, todo: seq<string>, now: int)
    ensures forall r, o ::
              r in UpdateAppended(fetch, t, LatestOf(rows).stamps, todo, now) && o in rows &&
              o.time.Value? && Key(o.ticker) == Key(r.ticker)
              ==> r.time.Value? && r.time.v > o.time.v
    decreases |todo|
  {
    if |todo| > 0 {
      var n := |todo| - 1;
      var stamps := LatestOf(rows).stamps;
      UpdateAppendsOnlyNewRows(fetch, t, rows, todo[..n], now);
      var x := todo[n];
      var tail := TickerUpdate(fetch, t, stamps, x, now);
      forall r, o | r in tail && o in rows && o.time.Value? && Key(o.ticker) == Key(r.ticker)
        ensures r.time.Value? && r.time.v > o.time.v
      {
        var i :| 0 <= i < |tail| && tail[i] == r;
        LookupKeyIsKey(rows, x);
        var j :| 0 <= j < |rows| && rows[j] == o;
        LatestOfKeys(rows);
        LatestOfBounds(rows);
        assert HasStamp(rows, Key(o.ticker));
      }
    }
  }

  /** The watermarks are read once, before the run, so a ticker listed twice
      is updated twice from the same watermark and its new rows are appended
      twice. */
  lemma RepeatedTickerAppendsTwice(fetch: Request -> Option<Frame>, t: Target, stamps: map<string, int>, todo: seq<string>, x: string, now: int)
    ensures UpdateAppended(fetch, t, stamps, todo + [x, x], now) ==
              UpdateAppended(fetch, t, stamps, todo, now) + TickerUpdate(fetch, t, stamps, x, now) + TickerUpdate(fetch, t, stamps, x, now)
  {
    UpdateSnoc(fetch, t, stamps, todo, x, now);
    UpdateSnoc(fetch, t, stamps, todo + [x], x, now);
    assert todo + [x] + [x] == todo + [x, x];
  }

  /** Adding rows to a fold never removes a key nor lowers its watermark. */
  lemma {:induction false} FoldNeverLowers(l: Latest, rows: seq<Row>)
    ensures forall k :: k in l.stamps ==> k in Fold(l, rows).stamps && Fold(l, rows).stamps[k] >= l.stamps[k]
    decreases |rows|
  {
    if |rows| > 0 {
      FoldNeverLowers(l, rows[..|rows| - 1]);
    }
  }

  /** Appending rows to a store never lowers any symbol's watermark. */
  lemma WatermarkNeverDecreases(old_rows: seq<Row>, more: seq<Row>)
    ensures forall k :: k in LatestOf(old_rows).stamps ==>
              k in LatestOf(old_rows + more).stamps && LatestOf(old_rows + more).stamps[k] >= LatestOf(old_rows).stamps[k]
  {
    FoldConcat(NoStamps, old_rows, more);
    FoldNeverLowers(LatestOf(old_rows), more);
  }

  /** The body of the ticker loop of `update_data`: skip a ticker without a
      watermark or without a window; otherwise download, format, keep the
      rows newer than the watermark and append them. The call made, if any,
      is returned. */
  method UpdateTicker(file: CsvFile, fetch: Request -> Option<Frame>, t: Target, stamps: map<string, int>,
                      ticker: string, now: int)
    returns (added: nat, req: Option<Request>)
    requires file.Valid() && file.present
    modifies file
    ensures file.Valid() && file.present && file.header == old(file.header)
    ensures file.rows == old(file.rows) + TickerUpdate(fetch, t, stamps, ticker, now)
    ensures added == |TickerUpdate(fetch, t, stamps, ticker, now)|
    ensures req == UpdateRequest(t, stamps, ticker, now)
  {
    added, req := 0, None;
    var endTime := now + t.endPad;
    var key := Upper(ticker);
    if key !in stamps {
      assert file.rows == old(file.rows) + [];
      return;
    }
    var lastSeen := stamps[key];
    var start := lastSeen + t.step;
    if start >= endTime {
      assert file.rows == old(file.rows) + [];
      return;
    }
    var call := DownloadRequest(ticker, t.gran, start, endTime);
    req := Some(call);
    assert UpdateRequest(t, stamps, ticker, now) == req;
    var data := Download(fetch, call);
    ghost var expected := NewerThan(Fetched(fetch, call), lastSeen);
    assert TickerUpdate(fetch, t, stamps, ticker, now) == expected;
    var appended: seq<Row> := [];
    if data.Some? && !IsEmpty(data.value) {
      var formatted := FormatData(t.gran, data.value, ticker);
      assert Fetched(fetch, call) == formatted;
      if |formatted| > 0 {
        var newer := NewerThan(formatted, lastSeen);
        if |newer| > 0 {
          file.Append(newer);
          added := |newer|;
          appended := newer;
        }
      }
    } else {
      assert Fetched(fetch, call) == [];
    }
    assert appended == expected;
    assert file.rows == old(file.rows) + appended;
  }

  /** The inner loop of `update_data` over one batch: every ticker is
      updated in turn, and the calls made are returned in order. */
  method UpdateBatch(file: CsvFile, fetch: Request -> Option<Frame>, t: Target, stamps: map<string, int>,
                     batch: seq<string>, now: int)
    returns (added: nat, reqs: seq<Request>)
    requires file.Valid() && file.present
    modifies file
    ensures file.Valid() && file.present && file.header == old(file.header)
    ensures file.rows == old(file.rows) + UpdateAppended(fetch, t, stamps, batch, now)
    ensures added == |UpdateAppended(fetch, t, stamps, batch, now)|
    ensures reqs == UpdateRequests(t, stamps, batch, now)
  {
    added, reqs := 0, [];
    for j := 0 to |batch|
      invariant file.Valid() && file.present && file.header == old(file.header)
      invariant file.rows == old(file.rows) + UpdateAppended(fetch, t, stamps, batch[..j], now)
      invariant added == |UpdateAppended(fetch, t, stamps, batch[..j], now)|
      invariant reqs == UpdateRequests(t, stamps, batch[..j], now)
    {
      assert batch[..j + 1] == batch[..j] + [batch[j]];
      added, reqs := UpdateNext(file, fetch, t, stamps, batch[..j], batch[j], now, old(file.rows), added, reqs);
    }
    assert batch[..|batch|] == batch;
  }

  /** One ticker more of a batch: its rows go after those of the tickers
      before it, and its call, if any, after theirs. */
  method UpdateNext(file: CsvFile, fetch: Request -> Option<Frame>, t: Target, stamps: map<string, int>,
                    done: seq<string>, ticker: string, now: int, ghost base: seq<Row>, added: nat, reqs: seq<Request>)
    returns (added': nat, reqs': seq<Request>)
    requires file.Valid() && file.present
    requires file.rows == base + UpdateAppended(fetch, t, stamps, done, now)
    requires added == |UpdateAppended(fetch, t, stamps, done, now)|
    requires reqs == UpdateRequests(t, stamps, done, now)
    modifies file
    ensures file.Valid() && file.present && file.header == old(file.header)
    ensures file.rows == base + UpdateAppended(fetch, t, stamps, done + [ticker], now)
    ensures added' == |UpdateAppended(fetch, t, stamps, done + [ticker], now)|
    ensures reqs' == UpdateRequests(t, stamps, done + [ticker], now)
  {
    UpdateSnoc(fetch, t, stamps, done, ticker, now);
    ConcatAssoc(base, UpdateAppended(fetch, t, stamps, done, now), TickerUpdate(fetch, t, stamps, ticker, now));
    var n, req := UpdateTicker(file, fetch, t, stamps, ticker, now);
    added' := added + n;
    reqs' := reqs;
    if req.Some? {
      reqs' := reqs + [req.value];
    }
  }

  /** The log of an update over `batches`: for each batch the calls of its
      tickers, then the rate-limit check (UpdateLogRequests says which calls
      it holds). */
  function UpdateLog(batches: seq<seq<string>>, t: Target, stamps: map<string, int>, now: int, cfg: Config): seq<Event>
    decreases |batches|
  {
    if |batches| == 0 then []
    else
      var n := |batches| - 1;
      Throttled(UpdateLog(batches[..n], t, stamps, now, cfg), UpdateRequests(t, stamps, batches[n], now), cfg)
  }

  /** The log over one batch more is one limiter step more. */
  lemma UpdateLogSnoc(batches: seq<seq<string>>, b: nat, t: Target, stamps: map<string, int>, now: int, cfg: Config)
    requires b < |batches|
    ensures UpdateLog(batches[..b + 1], t, stamps, now, cfg) ==
              Throttled(UpdateLog(batches[..b], t, stamps, now, cfg), UpdateRequests(t, stamps, batches[b], now), cfg)
  {
    assert batches[..b + 1][..b] == batches[..b];
  }

  /** The log of an update holds exactly the calls of its batches, in order. */
  lemma {:induction false} UpdateLogRequests(batches: seq<seq<string>>, t: Target, stamps: map<string, int>, now: int, cfg: Config)
    ensures Requests(UpdateLog(batches, t, stamps, now, cfg)) == UpdateRequests(t, stamps, Flatten(batches), now)
    decreases |batches|
  {
    if |batches| > 0 {
      var n := |batches| - 1;
      UpdateLogRequests(batches[..n], t, stamps, now, cfg);
      FlattenSnoc(batches, n);
      assert batches[..n + 1] == batches;
      UpdateRequestsConcat(t, stamps, Flatten(batches[..n]), batches[n], now);
    }
  }

  /** The limits an update keeps when no batch is longer than `k` minus the
      slack: at most `k` calls between two pauses, a counter within the
      slack at the end, pauses of `PAUSE_DURATION_SECONDS`, and, for a
      threshold of at least one, no pause that does not follow a call. */
  lemma {:induction false} UpdateLogLimits(batches: seq<seq<string>>, t: Target, stamps: map<string, int>, now: int, cfg: Config, k: int)
    requires Slack(cfg.pauseAfter) <= k
    requires forall b :: 0 <= b < |batches| ==> Slack(cfg.pauseAfter) + |batches[b]| <= k
    ensures var es := UpdateLog(batches, t, stamps, now, cfg);
            && RunsBounded(es, k)
            && Trailing(es) <= Slack(cfg.pauseAfter)
            && PausesLast(es, cfg.pauseSeconds)
            && (cfg.pauseAfter >= 1 ==> PausesFollowCalls(es))
    decreases |batches|
  {
    if |batches| > 0 {
      var n := |batches| - 1;
      var front := UpdateLog(batches[..n], t, stamps, now, cfg);
      var rs := UpdateRequests(t, stamps, batches[n], now);
      assert forall b :: 0 <= b < n ==> batches[..n][b] == batches[b];
      UpdateLogLimits(batches[..n], t, stamps, now, cfg, k);
      assert Slack(cfg.pauseAfter) + |rs| <= k by {
        assert Slack(cfg.pauseAfter) + |batches[n]| <= k;
      }
      ThrottledKeepsLimits(front, rs, cfg, k);
      if cfg.pauseAfter >= 1 {
        ThrottledPausesFollowCalls(front, rs, cfg);
      }
      assert UpdateLog(batches, t, stamps, now, cfg) == Throttled(front, rs, cfg);
    }
  }

  /** The log of a whole update, walked in batches of `BATCH_SIZE`: exactly
      the calls of the visited tickers, at most `PAUSE_AFTER_BATCHES - 1 +
      BATCH_SIZE` calls between pauses, a counter within the slack at the
      end, pauses of `PAUSE_DURATION_SECONDS`, and for a threshold of at
      least one no pause without a call right before it. */
  lemma UpdateRunLog(todo: seq<string>, t: Target, stamps: map<string, int>, now: int, cfg: Config)
    requires cfg.batchSize != 0
    ensures var es := UpdateLog(Chunked(todo, cfg.batchSize), t, stamps, now, cfg);
            && Requests(es) == UpdateRequests(t, stamps, Walked(todo, cfg.batchSize), now)
            && RunsBounded(es, Slack(cfg.pauseAfter) + (if cfg.batchSize > 0 then cfg.batchSize else 0))
            && Trailing(es) <= Slack(cfg.pauseAfter)
            && PausesLast(es, cfg.pauseSeconds)
            && (cfg.pauseAfter >= 1 ==> PausesFollowCalls(es))
  {
    var batches := Chunked(todo, cfg.batchSize);
    if cfg.batchSize > 0 {
      ChunkedFlatten(todo, cfg.batchSize);
    }
    UpdateLogLimits(batches, t, stamps, now, cfg, Slack(cfg.pauseAfter) + (if cfg.batchSize > 0 then cfg.batchSize else 0));
    UpdateLogRequests(batches, t, stamps, now, cfg);
  }

  /** One batch of `update_data` after the batches `done`: its rows and its
      calls follow theirs, and the rate-limit check runs once. */
  method RunBatch(file: CsvFile, fetch: Request -> Option<Frame>, t: Target, stamps: map<string, int>,
                  done: seq<string>, batch: seq<string>, now: int, cfg: Config,
                  ghost base: seq<Row>, totalAdded: nat, events: seq<Event>, requestCount: nat)
    returns (totalAdded': nat, events': seq<Event>, requestCount': nat)
    requires file.Valid() && file.present
    requires file.rows == base + UpdateAppended(fetch, t, stamps, done, now)
    requires totalAdded == |UpdateAppended(fetch, t, stamps, done, now)|
    requires requestCount == Trailing(events)
    modifies file
    ensures file.Valid() && file.present && file.header == old(file.header)
    ensures file.rows == base + UpdateAppended(fetch, t, stamps, done + batch, now)
    ensures totalAdded' == |UpdateAppended(fetch, t, stamps, done + batch, now)|
    ensures events' == Throttled(events, UpdateRequests(t, stamps, batch, now), cfg)
    ensures requestCount' == Trailing(events')
  {
    UpdateAppendedConcat(fetch, t, stamps, done, batch, now);
    ConcatAssoc(base, UpdateAppended(fetch, t, stamps, done, now), UpdateAppended(fetch, t, stamps, batch, now));
    var added, reqs := UpdateBatch(file, fetch, t, stamps, batch, now);
    totalAdded' := totalAdded + added;
    events', requestCount' := LogAndThrottle(events, requestCount, reqs, cfg);
  }

  /** The batch loop of `update_data`: the tickers are updated batch by
      batch, and after each batch a count that has reached
      `PAUSE_AFTER_BATCHES` causes a pause and is reset. */
  method UpdateBatches(file: CsvFile, t: Target, stamps: map<string, int>, todo: seq<string>, now: int, cfg: Config,
                       fetch: Request -> Option<Frame>)
    returns (totalAdded: nat, events: seq<Event>)
    requires file.Valid() && file.present && cfg.batchSize != 0
    modifies file
    ensures file.Valid() && file.present && file.header == old(file.header)
    ensures file.rows == old(file.rows) + UpdateAppended(fetch, t, stamps, Walked(todo, cfg.batchSize), now)
    ensures totalAdded == |UpdateAppended(fetch, t, stamps, Walked(todo, cfg.batchSize), now)|
    ensures events == UpdateLog(Chunked(todo, cfg.batchSize), t, stamps, now, cfg)
    ensures Requests(events) == UpdateRequests(t, stamps, Walked(todo, cfg.batchSize), now)
    ensures RunsBounded(events, Slack(cfg.pauseAfter) + (if cfg.batchSize > 0 then cfg.batchSize else 0))
    ensures Trailing(events) <= Slack(cfg.pauseAfter)
    ensures PausesLast(events, cfg.pauseSeconds)
    ensures cfg.pauseAfter >= 1 ==> PausesFollowCalls(events)
  {
    events := [];
    var requestCount := 0;
    totalAdded := 0;
    var batches := Chunked(todo, cfg.batchSize);
    for b := 0 to |batches|
      invariant file.Valid() && file.present && file.header == old(file.header)
      invariant file.rows == old(file.rows) + UpdateAppended(fetch, t, stamps, Flatten(batches[..b]), now)
      invariant totalAdded == |UpdateAppended(fetch, t, stamps, Flatten(batches[..b]), now)|
      invariant events == UpdateLog(batches[..b], t, stamps, now, cfg)
      invariant requestCount == Trailing(events)
    {
      FlattenSnoc(batches, b);
      UpdateLogSnoc(batches, b, t, stamps, now, cfg);
      totalAdded, events, requestCount :=
        RunBatch(file, fetch, t, stamps, Flatten(batches[..b]), batches[b], now, cfg, old(file.rows), totalAdded, events, requestCount);
    }
    assert batches[..|batches|] == batches;
    if cfg.batchSize > 0 {
      ChunkedFlatten(todo, cfg.batchSize);
    }
    UpdateRunLog(todo, t, stamps, now, cfg);
  }

  /** What `update_data` reports. */
  datatype UpdateOutcome = NoStore | DryRun(todo: seq<string>) | Updated(todo: seq<string>, added: nat)

  /** The tickers an update walks: all of them in batches of a positive size,
      none when the batch size is negative. */
  function Walked(todo: seq<string>, batchSize: int): seq<string> {
    if batchSize > 0 then todo else []
  }

  /** The store must exist. The index is loaded, the tickers to visit are
      chosen, and they are walked in batches of `BATCH_SIZE`. For each ticker
      with a window, its new bars are downloaded and formatted, only the rows
      newer than its watermark are appended, and one call is counted. After
      each batch, a count that has reached `PAUSE_AFTER_BATCHES` causes a
      pause and is reset. */
  method UpdateData(file: CsvFile, t: Target, tickers: seq<string>, now: int, cfg: Config,
                    fetch: Request -> Option<Frame>, dryRun: bool)
    returns (outcome: UpdateOutcome, events: seq<Event>)
    requires file.Valid() && cfg.batchSize != 0
    modifies file
    ensures !old(file.present) ==> outcome == NoStore && unchanged(file) && events == []
    ensures old(file.present) && dryRun ==>
      outcome == DryRun(ToUpdate(LatestOf(old(file.rows)), tickers)) && unchanged(file) && events == []
    ensures old(file.present) && !dryRun ==>
      var stamps := LatestOf(old(file.rows)).stamps;
      var walked := Walked(ToUpdate(LatestOf(old(file.rows)), tickers), cfg.batchSize);
      var appended := UpdateAppended(fetch, t, stamps, walked, now);
      && outcome == Updated(ToUpdate(LatestOf(old(file.rows)), tickers), |appended|)
      && file.Valid() && file.present && file.header == old(file.header)
      && file.rows == old(file.rows) + appended
      && events == UpdateLog(Chunked(ToUpdate(LatestOf(old(file.rows)), tickers), cfg.batchSize), t, stamps, now, cfg)
      && Requests(events) == UpdateRequests(t, stamps, walked, now)
      && RunsBounded(events, Slack(cfg.pauseAfter) + (if cfg.batchSize > 0 then cfg.batchSize else 0))
      && Trailing(events) <= Slack(cfg.pauseAfter)
      && PausesLast(events, cfg.pauseSeconds)
      && (cfg.pauseAfter >= 1 ==> PausesFollowCalls(events))
  {
    events := [];
    if !file.present {
      return NoStore, events;
    }
    var latest := LoadLatestPerTicker(file, 100000);
    var todo := if |tickers| > 0 then KnownTickers(tickers, latest.stamps) else latest.order;
    assert todo == ToUpdate(latest, tickers);
    if dryRun {
      return DryRun(todo), events;
    }
    var totalAdded;
    totalAdded, events := UpdateBatches(file, t, latest.stamps, todo, now, cfg, fetch);
    return Updated(todo, totalAdded), events;
  }

  /** Whether the ticker loop of `update_data`, as written, raises: it does
      at the first visited ticker that has a watermark in a store whose
      times carry a UTC offset. */
  function UpdateRaises(t: Target, stamps: map<string, int>, walked: seq<string>, now: int): (r: bool)
    ensures r <==> exists i :: 0 <= i < |walked| && Upper(walked[i]) in stamps &&
                     UpdateWindowAsWritten(t, stamps[Upper(walked[i])], now).Raises?
    decreases |walked|
  {
    if |walked| == 0 then false
    else
      var n := |walked| - 1;
      var x := walked[n];
      assert forall i :: 0 <= i < n ==> walked[..n][i] == walked[i];
      UpdateRaises(t, stamps, walked[..n], now) || (Upper(x) in stamps && UpdateWindowAsWritten(t, stamps[Upper(x)], now).Raises?)
  }

  /** As written, an update of the hourly store raises as soon as it visits
      any ticker, which it does whenever the index offers one; the daily
      store, whose dates are naive, never raises. */
  lemma HourlyUpdateRaises(rows: seq<Row>, tickers: seq<string>, now: int, cfg: Config)
    requires cfg.batchSize > 0
    ensures var l := LatestOf(rows);
            UpdateRaises(HourlyTarget, l.stamps, Walked(ToUpdate(l, tickers), cfg.batchSize), now) <==> ToUpdate(l, tickers) != []
    ensures var l := LatestOf(rows);
            !UpdateRaises(DailyTarget, l.stamps, Walked(ToUpdate(l, tickers), cfg.batchSize), now)
  {
    var l := LatestOf(rows);
    var todo := ToUpdate(l, tickers);
    VisitedAreKnown(rows, tickers);
    if todo != [] {
      assert todo[0] in todo;
      assert Upper(todo[0]) in l.stamps;
    }
  }

  /** An hourly store holding one AAPL bar at 2024-01-02 14:30:00+00:00,
      updated for all its tickers, raises. */
  lemma HourlyUpdateRaisesExample(now: int)
    ensures var rows := [Row("AAPL", "hourly", Value(1704205800), Missing, Missing, Missing, Missing, Missing, 0)];
            UpdateRaises(HourlyTarget, LatestOf(rows).stamps, ToUpdate(LatestOf(rows), []), now)
  {
    var rows := [Row("AAPL", "hourly", Value(1704205800), Missing, Missing, Missing, Missing, Missing, 0)];
    assert rows[..0] == [];
    assert ToUpdate(LatestOf(rows), []) == [Key("AAPL")];
    HourlyUpdateRaises(rows, [], now, DefaultConfig);
  }
}
