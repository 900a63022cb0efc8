/** Window planning and the request-count limiter: the configuration
    constants, the two update targets, the provider requests the engine
    issues and the log of requests and pauses it produces. */
module Planning {
  import opened Bars

  /** The rate-limit and history constants of the configuration file. */
  datatype Config = Config(batchSize: int, pauseAfter: int, pauseSeconds: int, hourlyMaxDays: int)

  /** `BATCH_SIZE`, `PAUSE_AFTER_BATCHES`, `PAUSE_DURATION_SECONDS`,
      `HOURLY_MAX_DAYS` as shipped. */
  const DefaultConfig: Config := Config(50, 500, 60, 730)

  /** `TargetConfig`: the granularity of one store, the step past its
      watermark, the padding added to the current time and whether the
      store's times carry a UTC offset. */
  datatype Target = Target(gran: Granularity, step: int, endPad: int, tzAware: bool)

  const DailyTarget: Target := Target(Daily, Day, Day, false)
  const HourlyTarget: Target := Target(Hourly, Hour, Hour, true)

  /** One call of the provider: symbol, granularity and the half-open time
      range `[start, end)` asked for. */
  datatype Request = Request(ticker: string, gran: Granularity, start: int, end: int)

  /** `download_ticker_data(ticker, start, end, interval)`: the provider is
      asked for one day more than `end`. */
  function DownloadRequest(ticker: string, g: Granularity, start: int, end: int): (r: Request)
    ensures r.ticker == ticker && r.gran == g && r.start == start
    ensures r.end - Day == end
  {
    Request(ticker, g, start, end + Day)
  }

  /** `max(start, end - timedelta(days=HOURLY_MAX_DAYS))`. */
  function HourlyStart(start: int, end: int, maxDays: int): (s: int)
    ensures s >= start && s >= end - maxDays * Day
    ensures s == start || s == end - maxDays * Day
  {
    if start >= end - maxDays * Day then start else end - maxDays * Day
  }

  /** The hourly history of an initial download never reaches further back
      than `HOURLY_MAX_DAYS` before its end, and starts at the configured
      start when that is recent enough. */
  lemma HourlyStartClamps(start: int, end: int, maxDays: int)
    ensures end - HourlyStart(start, end, maxDays) <= maxDays * Day || HourlyStart(start, end, maxDays) == start
    ensures start >= end - maxDays * Day ==> HourlyStart(start, end, maxDays) == start
    ensures start < end - maxDays * Day ==> end - HourlyStart(start, end, maxDays) == maxDays * Day
  {
  }

  /** The incremental window `[last + step, now + end_pad)` of a ticker whose
      watermark is `last`, or None when the ticker is already up to date. */
  function UpdateWindow(t: Target, last: int, now: int): (w: Option<(int, int)>)
    ensures w.Some? <==> last + t.step < now + t.endPad
    ensures w.Some? ==> w.value.0 == last + t.step && w.value.1 == now + t.endPad
  {
    var start := last + t.step;
    var end := now + t.endPad;
    if start >= end then None else Some((start, end))
  }

  /** The outcome of the window check `start >= end_time` as written. */
  datatype WindowCheck = Checked(window: Option<(int, int)>) | Raises

  /** The window check as written: the watermark is parsed from the store,
      so for a store whose times carry a UTC offset it is zone-aware, while
      `end_time = datetime.now() + end_pad` is naive; comparing the two
      raises `TypeError`. A naive watermark gives the window above. */
  function UpdateWindowAsWritten(t: Target, last: int, now: int): (c: WindowCheck)
    ensures c.Raises? <==> t.tzAware
    ensures c.Checked? ==> c.window == UpdateWindow(t, last, now)
  {
    if t.tzAware then Raises else Checked(UpdateWindow(t, last, now))
  }

  /** With a positive step the window starts strictly after the watermark,
      by exactly one day for the daily store and one hour for the hourly
      store. */
  lemma UpdateWindowExcludesWatermark(t: Target, last: int, now: int)
    requires t == DailyTarget || t == HourlyTarget
    ensures UpdateWindow(t, last, now).Some? ==> UpdateWindow(t, last, now).value.0 > last
    ensures t == DailyTarget && UpdateWindow(t, last, now).Some? ==> UpdateWindow(t, last, now).value.0 == last + Day
    ensures t == HourlyTarget && UpdateWindow(t, last, now).Some? ==> UpdateWindow(t, last, now).value.0 == last + Hour
    ensures t == DailyTarget ==> (UpdateWindow(t, last, now).None? <==> last >= now)
    ensures t == HourlyTarget ==> (UpdateWindow(t, last, now).None? <==> last >= now)
  {
  }

  /** What the engine does that the outside world sees: a provider call or
      a `time.sleep`. */
  datatype Event = Requested(req: Request) | Paused(seconds: int)

  /** The provider calls of a log, in order. */
  function Requests(es: seq<Event>): (rs: seq<Request>)
    ensures |rs| <= |es|
    decreases |es|
  {
    if |es| == 0 then []
    else match es[|es| - 1]
      case Requested(r) => Requests(es[..|es| - 1]) + [r]
      case Paused(_) => Requests(es[..|es| - 1])
  }

  /** The provider calls made since the last pause. */
  function Trailing(es: seq<Event>): (n: nat)
    ensures n <= |es|
    decreases |es|
  {
    if |es| == 0 then 0
    else if es[|es| - 1].Paused? then 0
    else Trailing(es[..|es| - 1]) + 1
  }

  /** At no point of the log were more than `k` calls made without a pause
      between them. */
  ghost predicate RunsBounded(es: seq<Event>, k: int) {
    forall i :: 0 <= i <= |es| ==> Trailing(es[..i]) <= k
  }

  /** Every pause of the log lasts `seconds`. */
  ghost predicate PausesLast(es: seq<Event>, seconds: int) {
    forall i :: 0 <= i < |es| && es[i].Paused? ==> es[i].seconds == seconds
  }

  /** The most calls the counter can hold after a check: one less than the
      threshold, and none at all for a threshold below one. */
  function Slack(pauseAfter: int): (s: nat)
    ensures pauseAfter >= 1 ==> s == pauseAfter - 1
    ensures pauseAfter < 1 ==> s == 0
  {
    if pauseAfter >= 1 then pauseAfter - 1 else 0
  }

  /** A counter that has reached the threshold is reset, so after every check
      it holds at most the slack. */
  lemma CheckLeavesSlack(count: int, pauseAfter: int)
    requires 0 <= count
    ensures (if count >= pauseAfter then 0 else count) <= Slack(pauseAfter)
  {
  }

  /** Extending a log by one event: the calls since the last pause either
      restart from zero or grow by one. */
  lemma {:induction false} LogSnoc(es: seq<Event>, e: Event, k: int)
    requires RunsBounded(es, k) && Trailing(es + [e]) <= k
    ensures RunsBounded(es + [e], k)
    ensures Requests(es + [e]) == if e.Requested? then Requests(es) + [e.req] else Requests(es)
    ensures Trailing(es + [e]) == if e.Paused? then 0 else Trailing(es) + 1
  {
    var es' := es + [e];
    assert es'[..|es'| - 1] == es;
    forall i | 0 <= i <= |es'| ensures Trailing(es'[..i]) <= k {
      if i <= |es| {
        assert es'[..i] == es[..i];
      } else {
        assert es'[..i] == es';
      }
    }
  }

  /** The events of a run of calls made without a pause between them. */
  function Calls(rs: seq<Request>): (es: seq<Event>)
    ensures |es| == |rs|
    ensures forall i :: 0 <= i < |rs| ==> es[i] == Requested(rs[i])
  {
    seq(|rs|, i requires 0 <= i < |rs| => Requested(rs[i]))
  }

  /** Extending a log by a run of calls: they are its last calls and the
      calls since the last pause grow by their number. */
  lemma {:induction false} LogCalls(es: seq<Event>, rs: seq<Request>, k: int)
    requires RunsBounded(es, k) && Trailing(es) + |rs| <= k
    ensures RunsBounded(es + Calls(rs), k)
    ensures Requests(es + Calls(rs)) == Requests(es) + rs
    ensures Trailing(es + Calls(rs)) == Trailing(es) + |rs|
    decreases |rs|
  {
    if |rs| == 0 {
      assert es + Calls(rs) == es;
    } else {
      var n := |rs| - 1;
      var front := es + Calls(rs[..n]);
      LogCalls(es, rs[..n], k);
      assert Calls(rs) == Calls(rs[..n]) + [Requested(rs[n])];
      assert es + Calls(rs) == front + [Requested(rs[n])];
      assert rs == rs[..n] + [rs[n]];
      LogSnoc(front, Requested(rs[n]), k);
    }
  }

  /** A run of calls appended to any log: they are its last calls, and the
      calls since the last pause grow by their number. */
  lemma {:induction false} TrailingCalls(es: seq<Event>, rs: seq<Request>)
    ensures Requests(es + Calls(rs)) == Requests(es) + rs
    ensures Trailing(es + Calls(rs)) == Trailing(es) + |rs|
    decreases |rs|
  {
    if |rs| == 0 {
      assert es + Calls(rs) == es;
    } else {
      var n := |rs| - 1;
      var front := es + Calls(rs[..n]);
      TrailingCalls(es, rs[..n]);
      assert Calls(rs) == Calls(rs[..n]) + [Requested(rs[n])];
      assert es + Calls(rs) == front + [Requested(rs[n])];
      assert (front + [Requested(rs[n])])[..|front|] == front;
      assert rs == rs[..n] + [rs[n]];
    }
  }

  /** A pause appended to any log adds no call and resets the counter. */
  lemma PauseSnoc(es: seq<Event>, seconds: int)
    ensures Requests(es + [Paused(seconds)]) == Requests(es)
    ensures Trailing(es + [Paused(seconds)]) == 0
  {
    assert (es + [Paused(seconds)])[..|es|] == es;
  }

  /** One step of the limiter: the calls `rs` are made, the counter grows by
      their number, and once it has reached `pauseAfter` the engine sleeps
      for `pauseSeconds` and the counter restarts. */
  function Throttled(es: seq<Event>, rs: seq<Request>, cfg: Config): (es': seq<Event>)
    ensures |es| <= |es'| && es'[..|es|] == es
    ensures Requests(es') == Requests(es) + rs
    ensures Trailing(es') == if Trailing(es) + |rs| >= cfg.pauseAfter then 0 else Trailing(es) + |rs|
  {
    TrailingCalls(es, rs);
    var es1 := es + Calls(rs);
    if Trailing(es) + |rs| >= cfg.pauseAfter then
      PauseSnoc(es1, cfg.pauseSeconds);
      var es2 := es1 + [Paused(cfg.pauseSeconds)];
      assert es2[..|es|] == es;
      es2
    else
      assert es1[..|es|] == es;
      es1
  }

  /** A log whose every pause comes right after a provider call: the engine
      never sleeps twice in a row nor before its first call. */
  ghost predicate PausesFollowCalls(es: seq<Event>) {
    forall i :: 0 <= i < |es| && es[i].Paused? ==> 0 < i && es[i - 1].Requested?
  }

  /** A run of calls adds no pause. */
  lemma CallsAddNoPause(es: seq<Event>, rs: seq<Request>, seconds: int)
    requires PausesLast(es, seconds)
    ensures PausesLast(es + Calls(rs), seconds)
  {
    var es' := es + Calls(rs);
    assert forall i :: |es| <= i < |es'| ==> es'[i] == Calls(rs)[i - |es|];
  }

  /** A log without pauses: every event is a call, and they all count. */
  lemma {:induction false} NoPauseAllRequests(es: seq<Event>)
    requires forall i :: 0 <= i < |es| ==> es[i].Requested?
    ensures Trailing(es) == |Requests(es)| == |es|
    decreases |es|
  {
    if |es| > 0 {
      var n := |es| - 1;
      assert forall i :: 0 <= i < n ==> es[..n][i] == es[i];
      NoPauseAllRequests(es[..n]);
    }
  }

  /** Under a threshold of at least one, a log whose trailing run is within
      the slack but which holds at least `pauseAfter` calls has paused. */
  lemma ManyRequestsMeanAPause(es: seq<Event>, pauseAfter: int)
    requires pauseAfter >= 1
    requires Trailing(es) <= Slack(pauseAfter) && |Requests(es)| >= pauseAfter
    ensures exists i :: 0 <= i < |es| && es[i].Paused?
  {
    if forall i :: 0 <= i < |es| ==> es[i].Requested? {
      NoPauseAllRequests(es);
      assert false;
    }
  }

  /** The limiter step keeps the log's limits: the counter stays within the
      slack, no run of calls exceeds `k` and every pause lasts
      `pauseSeconds`. */
  lemma ThrottledKeepsLimits(es: seq<Event>, rs: seq<Request>, cfg: Config, k: int)
    requires Trailing(es) <= Slack(cfg.pauseAfter) && Slack(cfg.pauseAfter) + |rs| <= k
    requires RunsBounded(es, k) && PausesLast(es, cfg.pauseSeconds)
    ensures Trailing(Throttled(es, rs, cfg)) <= Slack(cfg.pauseAfter)
    ensures RunsBounded(Throttled(es, rs, cfg), k)
    ensures PausesLast(Throttled(es, rs, cfg), cfg.pauseSeconds)
  {
    var es1 := es + Calls(rs);
    LogCalls(es, rs, k);
    CallsAddNoPause(es, rs, cfg.pauseSeconds);
    if Trailing(es) + |rs| >= cfg.pauseAfter {
      var p := Paused(cfg.pauseSeconds);
      assert Throttled(es, rs, cfg) == es1 + [p];
      LogSnoc(es1, p, k);
      assert forall i :: 0 <= i < |es1| ==> (es1 + [p])[i] == es1[i];
    } else {
      assert Throttled(es, rs, cfg) == es1;
    }
  }

  /** Under a threshold of at least one, a limiter step that starts with the
      counter within the slack pauses only after a call it has just made. */
  lemma ThrottledPausesFollowCalls(es: seq<Event>, rs: seq<Request>, cfg: Config)
    requires cfg.pauseAfter >= 1 && Trailing(es) <= Slack(cfg.pauseAfter)
    requires PausesFollowCalls(es)
    ensures PausesFollowCalls(Throttled(es, rs, cfg))
  {
    var es1 := es + Calls(rs);
    assert forall i :: 0 <= i < |es| ==> es1[i] == es[i];
    assert forall i :: |es| <= i < |es1| ==> es1[i] == Requested(rs[i - |es|]);
    if Trailing(es) + |rs| >= cfg.pauseAfter {
      var p := Paused(cfg.pauseSeconds);
      assert Throttled(es, rs, cfg) == es1 + [p];
      assert |rs| > 0;
      assert forall i :: 0 <= i < |es1| ==> (es1 + [p])[i] == es1[i];
    } else {
      assert Throttled(es, rs, cfg) == es1;
    }
  }
}
