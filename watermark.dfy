/** The watermark index (`load_latest_per_ticker`): for every normalised
    symbol of a store, the latest timestamp stored for it, read chunk by
    chunk. */
module Watermark {
  import opened Text
  import opened Bars
  import opened Chunks
  import opened Store

  /** `str(ticker).strip().upper()`: the key a symbol is indexed under. */
  function Key(t: string): string {
    Upper(Strip(t))
  }

  /** Keys are already stripped and upper-cased, so normalising a key again,
      or only upper-casing it (as `update_data` does before a lookup), gives
      the key back. */
  lemma KeyNormalised(t: string)
    ensures Strip(Key(t)) == Key(t) && Upper(Key(t)) == Key(t) && Key(Key(t)) == Key(t)
  {
    StripUpper(Strip(t));
    StripIdempotent(t);
    UpperIdempotent(Strip(t));
  }

  /** `latest_by_ticker`: the latest timestamp per key, and the keys in the
      order they were first inserted (the dict's iteration order). */
  datatype Latest = Latest(stamps: map<string, int>, order: seq<string>)

  const NoStamps: Latest := Latest(map[], [])

  predicate Distinct(s: seq<string>) {
    forall i, j :: 0 <= i < j < |s| ==> s[i] != s[j]
  }

  /** The insertion order lists every key exactly once. */
  ghost predicate WellFormed(l: Latest) {
    Distinct(l.order) && forall k :: k in l.stamps <==> k in l.order
  }

  /** One stored row seen by the fold: a row whose time is present raises
      its key's watermark when the key is new or the time is later. */
  function Observe(l: Latest, r: Row): Latest {
    match r.time
    case Missing => l
    case Value(t) =>
      var k := Key(r.ticker);
      if k !in l.stamps then Latest(l.stamps[k := t], l.order + [k])
      else if t > l.stamps[k] then Latest(l.stamps[k := t], l.order)
      else l
  }

  /** The rows seen one after the other, starting from `l`. */
  function Fold(l: Latest, rows: seq<Row>): Latest
    decreases |rows|
  {
    if |rows| == 0 then l else Observe(Fold(l, rows[..|rows| - 1]), rows[|rows| - 1])
  }

  /** The watermark index of a store holding `rows`. */
  function LatestOf(rows: seq<Row>): Latest {
    Fold(NoStamps, rows)
  }

  /** Some row of `rows` carries key `k` and a present time. */
  predicate HasStamp(rows: seq<Row>, k: string) {
    exists i :: 0 <= i < |rows| && rows[i].time.Value? && Key(rows[i].ticker) == k
  }

  /** A key has a stamp in a longer stretch of rows when it has one in the
      shorter stretch or the added row carries it. */
  lemma HasStampSnoc(rows: seq<Row>, k: string)
    requires |rows| > 0
    ensures HasStamp(rows, k) <==>
      HasStamp(rows[..|rows| - 1], k) || (rows[|rows| - 1].time.Value? && Key(rows[|rows| - 1].ticker) == k)
  {
    var n := |rows| - 1;
    var p := rows[..n];
    if HasStamp(rows, k) {
      var i :| 0 <= i < |rows| && rows[i].time.Value? && Key(rows[i].ticker) == k;
      if i < n {
        assert p[i] == rows[i];
      }
    }
    if HasStamp(p, k) {
      var i :| 0 <= i < n && p[i].time.Value? && Key(p[i].ticker) == k;
      assert rows[i] == p[i];
    }
  }

  /** The index holds exactly the keys of rows with a present time. */
  lemma {:induction false} LatestOfKeys(rows: seq<Row>)
    ensures forall k :: k in LatestOf(rows).stamps <==> HasStamp(rows, k)
    decreases |rows|
  {
    if |rows| > 0 {
      var n := |rows| - 1;
      LatestOfKeys(rows[..n]);
      forall k ensures k in LatestOf(rows).stamps <==> HasStamp(rows, k) {
        HasStampSnoc(rows, k);
      }
    }
  }

  /** The insertion order lists each key of the index exactly once. */
  lemma {:induction false} LatestOfWellFormed(rows: seq<Row>)
    ensures WellFormed(LatestOf(rows))
    decreases |rows|
  {
    if |rows| > 0 {
      var n := |rows| - 1;
      LatestOfWellFormed(rows[..n]);
      var l := LatestOf(rows[..n]);
      var r := rows[n];
      if r.time.Value? && Key(r.ticker) !in l.stamps {
        var o := l.order + [Key(r.ticker)];
        assert forall i :: 0 <= i < |l.order| ==> o[i] == l.order[i];
      }
    }
  }

  /** Each key's watermark is at least the time of every row with that key. */
  lemma {:induction false} LatestOfBounds(rows: seq<Row>)
    ensures forall k, i ::
              k in LatestOf(rows).stamps && 0 <= i < |rows| && rows[i].time.Value? && Key(rows[i].ticker) == k
              ==> rows[i].time.v <= LatestOf(rows).stamps[k]
    decreases |rows|
  {
    if |rows| > 0 {
      var n := |rows| - 1;
      var p := rows[..n];
      LatestOfBounds(p);
      LatestOfKeys(p);
      forall k, i |
        k in LatestOf(rows).stamps && 0 <= i < |rows| && rows[i].time.Value? && Key(rows[i].ticker) == k
        ensures rows[i].time.v <= LatestOf(rows).stamps[k]
      {
        if i < n {
          assert p[i] == rows[i];
          assert HasStamp(p, k);
        }
      }
    }
  }

  /** Each key's watermark is the time of one of its rows. */
  lemma {:induction false} LatestOfAttained(rows: seq<Row>)
    ensures forall k :: k in LatestOf(rows).stamps ==>
              exists i :: 0 <= i < |rows| && Key(rows[i].ticker) == k && rows[i].time == Value(LatestOf(rows).stamps[k])
    decreases |rows|
  {
    if |rows| > 0 {
      var n := |rows| - 1;
      var p := rows[..n];
      LatestOfAttained(p);
      var l := LatestOf(p);
      forall k | k in LatestOf(rows).stamps
        ensures exists i :: 0 <= i < |rows| && Key(rows[i].ticker) == k && rows[i].time == Value(LatestOf(rows).stamps[k])
      {
        if k in l.stamps && LatestOf(rows).stamps[k] == l.stamps[k] {
          var i :| 0 <= i < n && Key(p[i].ticker) == k && p[i].time == Value(l.stamps[k]);
          assert rows[i] == p[i];
        } else {
          assert rows[n].time == Value(LatestOf(rows).stamps[k]);
        }
      }
    }
  }

  /** The index holds exactly the keys of rows with a present time, in
      first-seen order; each key's value is the maximum time over its rows,
      and is the time of one of them. */
  lemma LatestOfIsMax(rows: seq<Row>)
    ensures WellFormed(LatestOf(rows))
    ensures forall k :: k in LatestOf(rows).stamps <==> HasStamp(rows, k)
    ensures forall k, i ::
              k in LatestOf(rows).stamps && 0 <= i < |rows| && rows[i].time.Value? && Key(rows[i].ticker) == k
              ==> rows[i].time.v <= LatestOf(rows).stamps[k]
    ensures forall k :: k in LatestOf(rows).stamps ==>
              exists i :: 0 <= i < |rows| && Key(rows[i].ticker) == k && rows[i].time == Value(LatestOf(rows).stamps[k])
  {
    LatestOfKeys(rows);
    LatestOfWellFormed(rows);
    LatestOfBounds(rows);
    LatestOfAttained(rows);
  }

  /** Every key of the index is stripped and upper-cased. */
  lemma LatestKeysNormalised(rows: seq<Row>)
    ensures forall k :: k in LatestOf(rows).stamps ==> Strip(k) == k && Upper(k) == k
  {
    LatestOfKeys(rows);
    forall k | k in LatestOf(rows).stamps ensures Strip(k) == k && Upper(k) == k {
      var i :| 0 <= i < |rows| && rows[i].time.Value? && Key(rows[i].ticker) == k;
      KeyNormalised(rows[i].ticker);
    }
  }

  /** Folding two stretches of rows one after the other is folding their
      concatenation. */
  lemma {:induction false} FoldConcat(l: Latest, a: seq<Row>, b: seq<Row>)
    ensures Fold(l, a + b) == Fold(Fold(l, a), b)
    decreases |b|
  {
    if |b| == 0 {
      assert a + b == a;
    } else {
      assert (a + b)[..|a + b| - 1] == a + b[..|b| - 1];
      FoldConcat(l, a, b[..|b| - 1]);
    }
  }

  /** The fold over the chunks of a store, one chunk after the other. */
  function FoldChunks(l: Latest, chunks: seq<seq<Row>>): Latest
    decreases |chunks|
  {
    if |chunks| == 0 then l else FoldChunks(Fold(l, chunks[0]), chunks[1..])
  }

  lemma {:induction false} FoldChunksFlatten(l: Latest, chunks: seq<seq<Row>>)
    ensures FoldChunks(l, chunks) == Fold(l, Flatten(chunks))
    decreases |chunks|
  {
    if |chunks| > 0 {
      FoldChunksFlatten(Fold(l, chunks[0]), chunks[1..]);
      FoldConcat(l, chunks[0], Flatten(chunks[1..]));
    }
  }

  /** Reading the store in chunks of any positive size gives the same index
      as reading it whole. */
  lemma ChunkedReadIsWholeRead(rows: seq<Row>, size: int)
    requires size > 0
    ensures FoldChunks(NoStamps, Chunked(rows, size)) == LatestOf(rows)
  {
    FoldChunksFlatten(NoStamps, Chunked(rows, size));
    ChunkedFlatten(rows, size);
  }

  /** One stored row updates the index in place: a row whose time is
      present raises its key's watermark when the key is new or the time is
      later. */
  method ObserveRow(latest: Latest, row: Row) returns (latest': Latest)
    ensures latest' == Observe(latest, row)
  {
    latest' := latest;
    if row.time.Value? {
      var ticker := Key(row.ticker);
      var ts := row.time.v;
      if ticker !in latest.stamps {
        latest' := Latest(latest.stamps[ticker := ts], latest.order + [ticker]);
      } else if ts > latest.stamps[ticker] {
        latest' := Latest(latest.stamps[ticker := ts], latest.order);
      }
    }
  }

  /** The rows of one chunk update the index one after the other. */
  method ReadChunk(latest: Latest, chunk: seq<Row>) returns (latest': Latest)
    ensures latest' == Fold(latest, chunk)
  {
    latest' := latest;
    var j := 0;
    while j < |chunk|
      invariant 0 <= j <= |chunk|
      invariant latest' == Fold(latest, chunk[..j])
    {
      latest' := ObserveRow(latest', chunk[j]);
      assert chunk[..j + 1][..j] == chunk[..j];
      j := j + 1;
    }
    assert chunk[..|chunk|] == chunk;
  }

  /** `load_latest_per_ticker`: a missing file gives the empty index;
      otherwise the chunks of `chunkSize` rows are read in turn and every
      stored row updates the index in place. */
  method LoadLatestPerTicker(file: CsvFile, chunkSize: int) returns (latest: Latest)
    requires chunkSize > 0
    ensures latest == (if file.present then LatestOf(file.rows) else NoStamps)
  {
    latest := NoStamps;
    if !file.present {
      return;
    }
    var chunks := Chunked(file.rows, chunkSize);
    var i := 0;
    while i < |chunks|
      invariant 0 <= i <= |chunks|
      invariant latest == Fold(NoStamps, Flatten(chunks[..i]))
    {
      latest := ReadChunk(latest, chunks[i]);
      FoldConcat(NoStamps, Flatten(chunks[..i]), chunks[i]);
      FlattenSnoc(chunks, i);
      i := i + 1;
    }
    assert chunks[..|chunks|] == chunks;
    ChunkedFlatten(file.rows, chunkSize);
  }
}
