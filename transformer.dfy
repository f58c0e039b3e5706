/**
 * `DataTransformer.transform_data`: for every configured symbol in turn, fetch the raw rows newer
 * than the symbol's watermark, downsample them and insert the aggregates with conflict skipping.
 * A failure for one symbol is logged and the loop goes on with the next one.
 */
module Transformer {
  import opened Common
  import opened Numeric
  import opened AggregateStore
  import opened RawStore
  import opened Resample

  /** What the loop logs for one symbol. */
  datatype LogEntry =
    | Transformed(symbol: Symbol)                 // aggregates inserted
    | NoNewData(symbol: Symbol)                   // nothing newer than the watermark
    | TransformError(symbol: Symbol, error: Error) // the fetch, the downsample or the insert raised

  /** The aggregate table after handling one symbol, and the entry logged for it. */
  datatype Handled = Handled(agg: seq<AggRecord>, entry: LogEntry)

  /** The aggregate table after a whole pass, and the entries logged, one per configured symbol. */
  datatype Pass = Pass(agg: seq<AggRecord>, log: seq<LogEntry>)

  /** One iteration of the loop, for symbol `s`; `faulty` says whether the insert's commit fails. */
  function TransformSymbol(raw: seq<RawRow>, agg: seq<AggRecord>, width: int, s: Symbol, faulty: bool): Handled
    requires width > 0
  {
    match FetchUnprocessed(raw, agg, s)
    case Err(e) => Handled(agg, TransformError(s, e))
    case Ok(rows) =>
      if rows == [] then Handled(agg, NoNewData(s))
      else
        match Downsample(rows, width)
        case Err(e) => Handled(agg, TransformError(s, e))
        case Ok(batch) =>
          if faulty then Handled(agg, TransformError(s, StorageFault))
          else Handled(InsertIfAbsent(agg, batch), Transformed(s))
  }

  /** The loop over `symbols`; the insert of symbol `s` fails exactly when `s` is in `faults`. */
  function Run(raw: seq<RawRow>, agg: seq<AggRecord>, width: int, symbols: seq<Symbol>, faults: set<Symbol>): Pass
    requires width > 0
    decreases |symbols|
  {
    if symbols == [] then Pass(agg, [])
    else
      var first := TransformSymbol(raw, agg, width, symbols[0], symbols[0] in faults);
      var rest := Run(raw, first.agg, width, symbols[1..], faults);
      Pass(rest.agg, [first.entry] + rest.log)
  }

  /** The first step of a pass over a non-empty list of symbols. */
  lemma RunUnfold(raw: seq<RawRow>, agg: seq<AggRecord>, width: int, symbols: seq<Symbol>, faults: set<Symbol>)
    requires width > 0 && symbols != []
    ensures var first := TransformSymbol(raw, agg, width, symbols[0], symbols[0] in faults);
      var rest := Run(raw, first.agg, width, symbols[1..], faults);
      Run(raw, agg, width, symbols, faults) == Pass(rest.agg, [first.entry] + rest.log)
  {
  }

  /**
   * How the iteration for `s` ends, in terms of the raw table: nothing newer than the watermark,
   * a non-numeric price among the newer rows, no numeric price among them, a failed commit, or
   * success. Only success changes the aggregate table.
   */
  lemma TransformSymbolOutcome(raw: seq<RawRow>, agg: seq<AggRecord>, width: int, s: Symbol, faulty: bool)
    requires width > 0
    ensures var h := TransformSymbol(raw, agg, width, s, faulty);
      var u := Unprocessed(raw, agg, s);
      var fetched := FetchUnprocessed(raw, agg, s);
      var nonNumeric := exists i :: 0 <= i < |u| && NonNumericText(u[i].data.price);
      && h.entry.symbol == s
      && (h.entry == NoNewData(s) <==> u == [])
      && (h.entry == TransformError(s, NotNumeric) <==> nonNumeric)
      && (h.entry == TransformError(s, EmptyFrame) <==> u != [] && !nonNumeric && Survivors(fetched.value) == [])
      && (h.entry == TransformError(s, StorageFault) <==> u != [] && !nonNumeric && Survivors(fetched.value) != [] && faulty)
      && (h.entry == Transformed(s) <==> u != [] && !nonNumeric && Survivors(fetched.value) != [] && !faulty)
      && (!h.entry.Transformed? ==> h.agg == agg)
  {
    FetchFailsIff(raw, agg, s);
    if FetchUnprocessed(raw, agg, s).Ok? {
      FetchRows(raw, agg, s);
    }
  }

  /** `agg'` keeps `agg` as its prefix and adds records of `s` only. */
  ghost predicate AddsOnly(agg: seq<AggRecord>, agg': seq<AggRecord>, s: Symbol) {
    agg <= agg' && forall i :: |agg| <= i < |agg'| ==> agg'[i].symbol == s
  }

  /** Every aggregate of a successful downsample of `s`'s fetched rows carries `s`. */
  lemma BatchSymbol(raw: seq<RawRow>, agg: seq<AggRecord>, width: int, s: Symbol)
    requires width > 0 && FetchUnprocessed(raw, agg, s).Ok?
    requires Survivors(FetchUnprocessed(raw, agg, s).value) != []
    ensures var batch := Downsample(FetchUnprocessed(raw, agg, s).value, width).value;
      forall k :: 0 <= k < |batch| ==> batch[k].symbol == s
  {
    var rows := FetchUnprocessed(raw, agg, s).value;
    FetchRows(raw, agg, s);
    SurvivorsSpec(rows);
    DownsampleSpec(rows, width);
    var S := Survivors(rows);
    assert S[0] in S;
  }

  /**
   * The iteration for `s` keeps what is stored, adds aggregates of `s` only, and keeps the
   * primary-key constraint; on success every aggregate of the batch is stored under its key, and
   * every batch record whose key was new is stored as it is.
   */
  lemma TransformSymbolStores(raw: seq<RawRow>, agg: seq<AggRecord>, width: int, s: Symbol, faulty: bool)
    requires width > 0
    ensures var h := TransformSymbol(raw, agg, width, s, faulty);
      && AddsOnly(agg, h.agg, s)
      && (UniqueKeys(agg) ==> UniqueKeys(h.agg))
      && (h.entry.Transformed? ==>
            var batch := Downsample(FetchUnprocessed(raw, agg, s).value, width).value;
            && (forall k :: 0 <= k < |batch| ==> HasKey(h.agg, batch[k].Key()))
            && (forall k :: 0 <= k < |batch| && !HasKey(agg, batch[k].Key()) ==> batch[k] in h.agg))
  {
    var h := TransformSymbol(raw, agg, width, s, faulty);
    if h.entry.Transformed? {
      var rows := FetchUnprocessed(raw, agg, s).value;
      var batch := Downsample(rows, width).value;
      BatchSymbol(raw, agg, width, s);
      InsertIfAbsentExtends(agg, batch);
      if UniqueKeys(agg) {
        InsertIfAbsentUnique(agg, batch);
      }
      DownsampleDistinctKeys(rows, width);
      forall k | 0 <= k < |batch| ensures HasKey(h.agg, batch[k].Key()) {
        InsertIfAbsentKeys(agg, batch, batch[k].Key());
      }
      forall k | 0 <= k < |batch| && !HasKey(agg, batch[k].Key()) ensures batch[k] in h.agg {
        InsertIfAbsentStoresNew(agg, batch, k);
      }
    }
  }

  /** Adding records of `s` only leaves the watermark of every other symbol as it was. */
  lemma WatermarkUnaffected(agg: seq<AggRecord>, agg': seq<AggRecord>, s: Symbol, t: Symbol)
    requires AddsOnly(agg, agg', s) && t != s
    ensures Watermark(agg', t) == Watermark(agg, t)
  {
    WatermarkSpec(agg, t);
    WatermarkSpec(agg', t);
    if exists i :: 0 <= i < |agg'| && agg'[i].symbol == t {
      var i :| 0 <= i < |agg'| && agg'[i].symbol == t && agg'[i].timestamp == Watermark(agg', t);
      assert i < |agg| && agg[i] == agg'[i];
      var j :| 0 <= j < |agg| && agg[j].symbol == t && agg[j].timestamp == Watermark(agg, t);
      assert agg'[j] == agg[j];
    }
  }

  /**
   * Symbols are processed in isolation: the iteration for `s` changes neither the watermark nor the
   * fetched rows of any other symbol, hence not what the iteration for that symbol would do.
   */
  lemma TransformSymbolIsolated(raw: seq<RawRow>, agg: seq<AggRecord>, width: int, s: Symbol, faulty: bool, t: Symbol)
    requires width > 0 && t != s
    ensures var agg' := TransformSymbol(raw, agg, width, s, faulty).agg;
      && Watermark(agg', t) == Watermark(agg, t)
      && FetchUnprocessed(raw, agg', t) == FetchUnprocessed(raw, agg, t)
  {
    TransformSymbolStores(raw, agg, width, s, faulty);
    WatermarkUnaffected(agg, TransformSymbol(raw, agg, width, s, faulty).agg, s, t);
  }

  /** A symbol is stuck when a row newer than its watermark holds a non-empty price text that is not numeric. */
  ghost predicate Stuck(raw: seq<RawRow>, agg: seq<AggRecord>, s: Symbol) {
    exists r :: (r in raw && r.symbol == s && r.timestamp > Watermark(agg, s)
      && NonNumericText(r.data.price))
  }

  /**
   * A stuck symbol fails its fetch on every iteration and never gets a new aggregate, and no
   * iteration, of it or of any other symbol, unsticks it.
   */
  lemma StuckStaysStuck(raw: seq<RawRow>, agg: seq<AggRecord>, width: int, s: Symbol, t: Symbol, faulty: bool)
    requires width > 0 && UniqueRawKeys(raw) && Stuck(raw, agg, s)
    ensures TransformSymbol(raw, agg, width, s, faulty) == Handled(agg, TransformError(s, NotNumeric))
    ensures Stuck(raw, TransformSymbol(raw, agg, width, t, faulty).agg, s)
  {
    var r :| r in raw && r.symbol == s && r.timestamp > Watermark(agg, s)
      && NonNumericText(r.data.price);
    UnprocessedSpec(raw, agg, s);
    var u := Unprocessed(raw, agg, s);
    var i :| 0 <= i < |u| && u[i] == r;
    FetchFailsIff(raw, agg, s);
    if t != s {
      TransformSymbolIsolated(raw, agg, width, t, faulty, s);
    }
  }

  /** The iteration for `s` would change nothing more. */
  ghost predicate Settled(raw: seq<RawRow>, agg: seq<AggRecord>, width: int, s: Symbol, faulty: bool)
    requires width > 0
  {
    TransformSymbol(raw, agg, width, s, faulty).agg == agg
  }

  lemma FloorNonNegative(t: int, w: int)
    requires w > 0 && t >= 0
    ensures (t / w) * w >= 0
  {
    DivMod(t, w);
    MulSign(t / w, w);
  }

  /** A fetched row that holds a non-empty price text contributes a surviving sample. */
  lemma FetchedRowSurvives(raw: seq<RawRow>, agg: seq<AggRecord>, s: Symbol, r: RawRow)
    requires FetchUnprocessed(raw, agg, s).Ok? && r in Unprocessed(raw, agg, s)
    requires r.data.price.Some? && r.data.price.value != ""
    ensures ParseDecimal(r.data.price.value).Some?
    ensures Sample(r.timestamp, ParseDecimal(r.data.price.value).value, s) in Survivors(FetchUnprocessed(raw, agg, s).value)
  {
    var u := Unprocessed(raw, agg, s);
    var rows := FetchUnprocessed(raw, agg, s).value;
    FetchFailsIff(raw, agg, s);
    FetchRows(raw, agg, s);
    var i :| 0 <= i < |u| && u[i] == r;
    SurvivorsSpec(rows);
    assert Coerce(rows[i].price) == ParseDecimal(r.data.price.value);
  }

  /** Every surviving sample comes from a fetched row of `s` that holds a numeric price text. */
  lemma SurvivorFromFetchedRow(raw: seq<RawRow>, agg: seq<AggRecord>, s: Symbol, x: Sample)
    requires FetchUnprocessed(raw, agg, s).Ok? && x in Survivors(FetchUnprocessed(raw, agg, s).value)
    ensures exists r :: (r in Unprocessed(raw, agg, s) && r.data.price.Some?
      && ParseDecimal(r.data.price.value) == Some(x.price) && r.timestamp == x.timestamp && x.symbol == s)
  {
    var u := Unprocessed(raw, agg, s);
    var rows := FetchUnprocessed(raw, agg, s).value;
    FetchRows(raw, agg, s);
    SurvivorsSpec(rows);
    var j :| 0 <= j < |rows| && Coerce(rows[j].price) == Some(x.price)
      && rows[j].timestamp == x.timestamp && rows[j].symbol == x.symbol;
    var r := u[j];
    assert r in u;
    assert r.data.price.Some? && ParseDecimal(r.data.price.value) == Some(x.price);
  }

  /**
   * With buckets aligned to the epoch, every surviving sample's bucket `(s, (t / w) * w)` is a key
   * of the downsampled batch.
   */
  lemma SurvivorBucketInBatch(raw: seq<RawRow>, agg: seq<AggRecord>, width: int, s: Symbol, x: Sample)
    requires width > 0 && SecondsPerDay % width == 0
    requires FetchUnprocessed(raw, agg, s).Ok? && x in Survivors(FetchUnprocessed(raw, agg, s).value)
    ensures var batch := Downsample(FetchUnprocessed(raw, agg, s).value, width).value;
      HasKey(batch, AggKey(s, (x.timestamp / width) * width))
  {
    var rows := FetchUnprocessed(raw, agg, s).value;
    var S := Survivors(rows);
    var batch := Downsample(rows, width).value;
    DownsampleSpec(rows, width);
    BatchSymbol(raw, agg, width, s);
    var i :| 0 <= i < |S| && S[i] == x;
    var k :| 0 <= k < |batch| && batch[k].timestamp == BucketStart(S[i].timestamp, Origin(S), width);
    BucketStartEpochAligned(x.timestamp, MinTime(S), width);
    assert batch[k].Key() == AggKey(s, (x.timestamp / width) * width);
  }

  /** With buckets aligned to the epoch, an iteration never lowers the watermark of its symbol. */
  lemma WatermarkRises(raw: seq<RawRow>, agg: seq<AggRecord>, width: int, s: Symbol, faulty: bool)
    requires width > 0 && SecondsPerDay % width == 0 && UniqueRawKeys(raw)
    ensures Watermark(TransformSymbol(raw, agg, width, s, faulty).agg, s) >= Watermark(agg, s)
  {
    var h := TransformSymbol(raw, agg, width, s, faulty);
    TransformSymbolStores(raw, agg, width, s, faulty);
    WatermarkSpec(agg, s);
    WatermarkSpec(h.agg, s);
    if exists i :: 0 <= i < |agg| && agg[i].symbol == s {
      var i :| 0 <= i < |agg| && agg[i].symbol == s && agg[i].timestamp == Watermark(agg, s);
      assert h.agg[i] == agg[i];
    } else if exists i :: 0 <= i < |h.agg| && h.agg[i].symbol == s {
      var i :| 0 <= i < |h.agg| && h.agg[i].symbol == s && h.agg[i].timestamp == Watermark(h.agg, s);
      NewAggregateAfterEpoch(raw, agg, width, s, faulty, i);
    }
  }

  /** A record an iteration adds, for a symbol without aggregates, is the bucket of a row newer than the epoch. */
  lemma NewAggregateAfterEpoch(raw: seq<RawRow>, agg: seq<AggRecord>, width: int, s: Symbol, faulty: bool, i: nat)
    requires width > 0 && SecondsPerDay % width == 0 && UniqueRawKeys(raw)
    requires forall j :: 0 <= j < |agg| ==> agg[j].symbol != s
    requires |agg| <= i < |TransformSymbol(raw, agg, width, s, faulty).agg|
    ensures TransformSymbol(raw, agg, width, s, faulty).agg[i].timestamp >= Epoch
  {
    var h := TransformSymbol(raw, agg, width, s, faulty);
    TransformSymbolOutcome(raw, agg, width, s, faulty);
    assert h.entry.Transformed?;
    var rows := FetchUnprocessed(raw, agg, s).value;
    var batch := Downsample(rows, width).value;
    InsertIfAbsentExtends(agg, batch);
    DownsampleSpec(rows, width);
    var S := Survivors(rows);
    assert h.agg[i] in batch;
    var k :| 0 <= k < |batch| && batch[k] == h.agg[i];
    var j :| 0 <= j < |S| && BucketStart(S[j].timestamp, Origin(S), width) == batch[k].timestamp;
    assert S[j] in S;
    SurvivorFromFetchedRow(raw, agg, s, S[j]);
    UnprocessedSpec(raw, agg, s);
    WatermarkSpec(agg, s);
    BucketStartEpochAligned(S[j].timestamp, MinTime(S), width);
    FloorNonNegative(S[j].timestamp, width);
  }

  /**
   * After a successful iteration for `s`, the bucket of every sample a second fetch would yield is
   * already stored: the second fetch only returns rows the first one returned.
   */
  lemma RefetchedBucketStored(raw: seq<RawRow>, agg: seq<AggRecord>, width: int, s: Symbol, faulty: bool, x: Sample)
    requires width > 0 && SecondsPerDay % width == 0 && UniqueRawKeys(raw)
    requires TransformSymbol(raw, agg, width, s, faulty).entry.Transformed?
    requires var agg1 := TransformSymbol(raw, agg, width, s, faulty).agg;
      FetchUnprocessed(raw, agg1, s).Ok? && x in Survivors(FetchUnprocessed(raw, agg1, s).value)
    ensures HasKey(TransformSymbol(raw, agg, width, s, faulty).agg, AggKey(s, (x.timestamp / width) * width))
  {
    var agg1 := TransformSymbol(raw, agg, width, s, faulty).agg;
    var batch1 := Downsample(FetchUnprocessed(raw, agg, s).value, width).value;
    WatermarkRises(raw, agg, width, s, faulty);
    SurvivorFromFetchedRow(raw, agg1, s, x);
    var r :| r in Unprocessed(raw, agg1, s) && r.data.price.Some?
      && ParseDecimal(r.data.price.value) == Some(x.price) && r.timestamp == x.timestamp && x.symbol == s;
    UnprocessedSpec(raw, agg1, s);
    UnprocessedSpec(raw, agg, s);
    assert r in Unprocessed(raw, agg, s);
    FetchedRowSurvives(raw, agg, s, r);
    SurvivorBucketInBatch(raw, agg, width, s, Sample(r.timestamp, x.price, s));
    var key := AggKey(s, (x.timestamp / width) * width);
    InsertIfAbsentKeys(agg, batch1, key);
  }

  /**
   * Re-running the iteration for `s` right after it changes nothing: whatever the second fetch
   * returns lies in buckets the first one already stored, so the conflict skipping drops it.
   */
  lemma TransformSymbolSettles(raw: seq<RawRow>, agg: seq<AggRecord>, width: int, s: Symbol, faulty: bool)
    requires width > 0 && SecondsPerDay % width == 0 && UniqueRawKeys(raw)
    ensures Settled(raw, TransformSymbol(raw, agg, width, s, faulty).agg, width, s, faulty)
  {
    var h := TransformSymbol(raw, agg, width, s, faulty);
    if h.entry.Transformed? {
      var agg1 := h.agg;
      var fetched := FetchUnprocessed(raw, agg1, s);
      if fetched.Ok? && fetched.value != [] && Survivors(fetched.value) != [] && !faulty {
        var rows2 := fetched.value;
        var S2 := Survivors(rows2);
        var batch2 := Downsample(rows2, width).value;
        DownsampleSpec(rows2, width);
        BatchSymbol(raw, agg1, width, s);
        forall k | 0 <= k < |batch2| ensures HasKey(agg1, batch2[k].Key()) {
          var i :| 0 <= i < |S2| && BucketStart(S2[i].timestamp, Origin(S2), width) == batch2[k].timestamp;
          assert S2[i] in S2;
          BucketStartEpochAligned(S2[i].timestamp, MinTime(S2), width);
          RefetchedBucketStored(raw, agg, width, s, faulty, S2[i]);
          assert batch2[k].Key() == AggKey(s, (S2[i].timestamp / width) * width);
        }
        InsertIfAbsentAllPresent(agg1, batch2);
      }
    }
  }

  /** An iteration of any symbol keeps every settled symbol settled. */
  lemma SettledPreserved(raw: seq<RawRow>, agg: seq<AggRecord>, width: int, s: Symbol, fs: bool, t: Symbol, ft: bool)
    requires width > 0 && Settled(raw, agg, width, t, ft)
    requires s == t ==> fs == ft
    ensures Settled(raw, TransformSymbol(raw, agg, width, s, fs).agg, width, t, ft)
  {
    var agg' := TransformSymbol(raw, agg, width, s, fs).agg;
    if s != t {
      TransformSymbolIsolated(raw, agg, width, s, fs, t);
      var h := TransformSymbol(raw, agg, width, t, ft);
      if h.entry.Transformed? {
        var batch := Downsample(FetchUnprocessed(raw, agg, t).value, width).value;
        TransformSymbolStores(raw, agg, width, t, ft);
        TransformSymbolStores(raw, agg, width, s, fs);
        forall k | 0 <= k < |batch| ensures HasKey(agg', batch[k].Key()) {
          var i :| 0 <= i < |agg| && agg[i].Key() == batch[k].Key();
          assert agg'[i] == agg[i];
        }
        InsertIfAbsentAllPresent(agg', batch);
      }
    }
  }

  /** A pass leaves every symbol already settled settled. */
  lemma {:induction false} RunKeepsSettled(raw: seq<RawRow>, agg: seq<AggRecord>, width: int, symbols: seq<Symbol>,
                                           faults: set<Symbol>, t: Symbol)
    requires width > 0 && Settled(raw, agg, width, t, t in faults)
    ensures Settled(raw, Run(raw, agg, width, symbols, faults).agg, width, t, t in faults)
    decreases |symbols|
  {
    if symbols != [] {
      SettledPreserved(raw, agg, width, symbols[0], symbols[0] in faults, t, t in faults);
      RunKeepsSettled(raw, TransformSymbol(raw, agg, width, symbols[0], symbols[0] in faults).agg,
                      width, symbols[1..], faults, t);
    }
  }

  /** After a pass every configured symbol is settled. */
  lemma {:induction false} RunSettles(raw: seq<RawRow>, agg: seq<AggRecord>, width: int, symbols: seq<Symbol>,
                                      faults: set<Symbol>)
    requires width > 0 && SecondsPerDay % width == 0 && UniqueRawKeys(raw)
    ensures forall t :: t in symbols ==> Settled(raw, Run(raw, agg, width, symbols, faults).agg, width, t, t in faults)
    decreases |symbols|
  {
    if symbols != [] {
      var s := symbols[0];
      var agg1 := TransformSymbol(raw, agg, width, s, s in faults).agg;
      TransformSymbolSettles(raw, agg, width, s, s in faults);
      RunKeepsSettled(raw, agg1, width, symbols[1..], faults, s);
      RunSettles(raw, agg1, width, symbols[1..], faults);
      forall t | t in symbols ensures Settled(raw, Run(raw, agg, width, symbols, faults).agg, width, t, t in faults) {
        if t != s {
          assert t in symbols[1..];
        }
      }
    }
  }

  /** A pass over settled symbols changes nothing. */
  lemma {:induction false} RunOverSettled(raw: seq<RawRow>, agg: seq<AggRecord>, width: int, symbols: seq<Symbol>,
                                          faults: set<Symbol>)
    requires width > 0
    requires forall t :: t in symbols ==> Settled(raw, agg, width, t, t in faults)
    ensures Run(raw, agg, width, symbols, faults).agg == agg
    decreases |symbols|
  {
    if symbols != [] {
      assert symbols[0] in symbols;
      RunOverSettled(raw, agg, width, symbols[1..], faults);
    }
  }

  /**
   * Re-running the transformation is harmless: with the same raw table, the same configuration
   * and the same failing commits, a second pass leaves the aggregate table exactly as the first
   * left it. It holds for bucket widths that divide a day, such as the configured minute, which
   * make pandas' day-based bucket grid the same for every batch.
   */
  lemma RunIdempotent(raw: seq<RawRow>, agg: seq<AggRecord>, width: int, symbols: seq<Symbol>, faults: set<Symbol>)
    requires width > 0 && SecondsPerDay % width == 0 && UniqueRawKeys(raw)
    ensures var once := Run(raw, agg, width, symbols, faults).agg;
      Run(raw, once, width, symbols, faults).agg == once
  {
    RunSettles(raw, agg, width, symbols, faults);
    RunOverSettled(raw, Run(raw, agg, width, symbols, faults).agg, width, symbols, faults);
  }

  /** The entry logged for a symbol names that symbol. */
  lemma TransformSymbolLogs(raw: seq<RawRow>, agg: seq<AggRecord>, width: int, s: Symbol, faulty: bool)
    requires width > 0
    ensures TransformSymbol(raw, agg, width, s, faulty).entry.symbol == s
  {
    var fetched := FetchUnprocessed(raw, agg, s);
    if fetched.Ok? && fetched.value != [] {
      var d := Downsample(fetched.value, width);
    }
  }

  /** A pass attempts every configured symbol in order, one log entry each, whatever fails. */
  lemma {:induction false} RunAttemptsAll(raw: seq<RawRow>, agg: seq<AggRecord>, width: int, symbols: seq<Symbol>,
                                          faults: set<Symbol>)
    requires width > 0
    ensures var p := Run(raw, agg, width, symbols, faults);
      |p.log| == |symbols| && forall i :: 0 <= i < |symbols| ==> p.log[i].symbol == symbols[i]
    decreases |symbols|
  {
    if symbols != [] {
      var first := TransformSymbol(raw, agg, width, symbols[0], symbols[0] in faults);
      TransformSymbolLogs(raw, agg, width, symbols[0], symbols[0] in faults);
      RunUnfold(raw, agg, width, symbols, faults);
      RunAttemptsAll(raw, first.agg, width, symbols[1..], faults);
      LogCons(first.entry, Run(raw, first.agg, width, symbols[1..], faults).log, symbols);
    }
  }

  /** An entry for the first symbol in front of one entry per remaining symbol, in order. */
  lemma LogCons(e: LogEntry, rest: seq<LogEntry>, symbols: seq<Symbol>)
    requires symbols != [] && e.symbol == symbols[0] && |rest| == |symbols| - 1
    requires forall i :: 0 <= i < |rest| ==> rest[i].symbol == symbols[1..][i]
    ensures |[e] + rest| == |symbols| && forall i :: 0 <= i < |symbols| ==> ([e] + rest)[i].symbol == symbols[i]
  {
    forall i | 1 <= i < |symbols| ensures ([e] + rest)[i].symbol == symbols[i] {
      assert ([e] + rest)[i] == rest[i - 1] && symbols[1..][i - 1] == symbols[i];
    }
  }

  /** A pass keeps what is stored, adds records of configured symbols only, and keeps the primary-key constraint. */
  lemma {:induction false} RunStores(raw: seq<RawRow>, agg: seq<AggRecord>, width: int, symbols: seq<Symbol>,
                                     faults: set<Symbol>)
    requires width > 0
    ensures var p := Run(raw, agg, width, symbols, faults);
      && agg <= p.agg
      && (forall i :: |agg| <= i < |p.agg| ==> p.agg[i].symbol in symbols)
      && (UniqueKeys(agg) ==> UniqueKeys(p.agg))
    decreases |symbols|
  {
    if symbols != [] {
      var first := TransformSymbol(raw, agg, width, symbols[0], symbols[0] in faults);
      TransformSymbolStores(raw, agg, width, symbols[0], symbols[0] in faults);
      RunStores(raw, first.agg, width, symbols[1..], faults);
      var p := Run(raw, agg, width, symbols, faults);
      assert p.agg == Run(raw, first.agg, width, symbols[1..], faults).agg;
      forall i | |agg| <= i < |p.agg| ensures p.agg[i].symbol in symbols {
        if i >= |first.agg| {
          assert p.agg[i].symbol in symbols[1..];
        } else {
          assert p.agg[i] == first.agg[i];
        }
      }
    }
  }

  /** What remains of a pass over `symbols`, after the entries already logged in `log`. */
  function PassFrom(raw: seq<RawRow>, agg: seq<AggRecord>, width: int, symbols: seq<Symbol>, faults: set<Symbol>,
                    log: seq<LogEntry>): Pass
    requires width > 0
  {
    var rest := Run(raw, agg, width, symbols, faults);
    Pass(rest.agg, log + rest.log)
  }

  /** Handling the `i`-th symbol moves one entry from the rest of the pass into the log. */
  lemma RunStep(raw: seq<RawRow>, agg: seq<AggRecord>, width: int, symbols: seq<Symbol>, i: nat,
                faults: set<Symbol>, log: seq<LogEntry>)
    requires width > 0 && i < |symbols|
    ensures var h := TransformSymbol(raw, agg, width, symbols[i], symbols[i] in faults);
      PassFrom(raw, agg, width, symbols[i..], faults, log)
        == PassFrom(raw, h.agg, width, symbols[i + 1..], faults, log + [h.entry])
  {
    var rest := symbols[i..];
    assert rest != [] && rest[0] == symbols[i] && rest[1..] == symbols[i + 1..];
    RunUnfold(raw, agg, width, rest, faults);
    var h := TransformSymbol(raw, agg, width, symbols[i], symbols[i] in faults);
    var tail := Run(raw, h.agg, width, symbols[i + 1..], faults);
    assert log + ([h.entry] + tail.log) == (log + [h.entry]) + tail.log;
  }

  /** `DataTransformer` over the raw and the aggregate repositories. */
  class DataTransformer {
    const symbols: seq<Symbol>
    /** `resample_frequency`, in seconds. */
    const width: int
    const rawRepo: RawDataRepository
    const downsampledRepo: DownsampledDataRepository

    ghost predicate Valid()
      reads this, rawRepo, downsampledRepo
    {
      width > 0 && rawRepo.Valid() && downsampledRepo.Valid()
    }

    constructor (symbols: seq<Symbol>, width: int)
      requires width > 0
      ensures Valid() && fresh(rawRepo) && fresh(downsampledRepo)
      ensures this.symbols == symbols && this.width == width
      ensures rawRepo.rows == [] && downsampledRepo.rows == []
    {
      this.symbols := symbols;
      this.width := width;
      rawRepo := new RawDataRepository();
      downsampledRepo := new DownsampledDataRepository();
    }

    /** The body of the loop's `try` for symbol `s`: the entry it logs, and the aggregate table it leaves. */
    method TransformSymbolData(s: Symbol, faults: set<Symbol>) returns (entry: LogEntry)
      requires Valid()
      modifies downsampledRepo
      ensures Valid()
      ensures Handled(downsampledRepo.rows, entry)
        == TransformSymbol(rawRepo.rows, old(downsampledRepo.rows), width, s, s in faults)
    {
      match FetchUnprocessed(rawRepo.rows, downsampledRepo.rows, s) {
        case Err(e) =>
          entry := TransformError(s, e);
        case Ok(rows) =>
          if rows == [] {
            entry := NoNewData(s);
          } else {
            match Downsample(rows, width) {
              case Err(e) =>
                entry := TransformError(s, e);
              case Ok(batch) =>
                var outcome := downsampledRepo.InsertDownsampledData(batch, s in faults);
                entry := if outcome.Failed? then TransformError(s, outcome.error) else Transformed(s);
            }
          }
      }
    }

    /** `transform_data`: the entries logged, and the aggregate table the pass leaves. */
    method TransformData(faults: set<Symbol>) returns (log: seq<LogEntry>)
      requires Valid()
      modifies downsampledRepo
      ensures Valid()
      ensures Pass(downsampledRepo.rows, log) == Run(rawRepo.rows, old(downsampledRepo.rows), width, symbols, faults)
    {
      ghost var raw := rawRepo.rows;
      ghost var total := Run(raw, downsampledRepo.rows, width, symbols, faults);
      log := [];
      var i := 0;
      while i < |symbols|
        invariant 0 <= i <= |symbols|
        invariant Valid() && rawRepo.rows == raw
        invariant Pass(total.agg, total.log) == PassFrom(raw, downsampledRepo.rows, width, symbols[i..], faults, log)
      {
        ghost var before := downsampledRepo.rows;
        RunStep(raw, before, width, symbols, i, faults, log);
        var entry := TransformSymbolData(symbols[i], faults);
        log := log + [entry];
        i := i + 1;
      }
      assert symbols[i..] == [];
    }
  }
}
