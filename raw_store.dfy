/**
 * The raw-sample table `raw_data`, keyed on (symbol, timestamp), and the watermark query the
 * resampler reads it through.
 */
module RawStore {
  import opened Common
  import opened Numeric
  import opened AggregateStore

  /** The JSON payload of a raw sample; `data->>'price'` reads its `price` member as text, NULL when absent. */
  datatype Payload = Payload(price: Option<string>)

  datatype RawKey = RawKey(symbol: Symbol, timestamp: Timestamp)

  datatype RawRow = RawRow(symbol: Symbol, data: Payload, timestamp: Timestamp)
  {
    function Key(): RawKey {
      RawKey(symbol, timestamp)
    }
  }

  predicate HasRawKey(table: seq<RawRow>, k: RawKey) {
    exists i | 0 <= i < |table| :: table[i].Key() == k
  }

  /** The primary-key constraint of the table. */
  predicate UniqueRawKeys(table: seq<RawRow>) {
    forall i, j | 0 <= i < j < |table| :: table[i].Key() != table[j].Key()
  }

  /** `MAX(timestamp)` over the aggregates of `s`; `None` when there is none (SQL NULL). */
  function MaxStamp(agg: seq<AggRecord>, s: Symbol): (r: Option<Timestamp>)
    ensures r.None? <==> forall i :: 0 <= i < |agg| ==> agg[i].symbol != s
    ensures r.Some? ==> exists i :: 0 <= i < |agg| && agg[i].symbol == s && agg[i].timestamp == r.value
    ensures r.Some? ==> forall i :: 0 <= i < |agg| && agg[i].symbol == s ==> agg[i].timestamp <= r.value
  {
    if agg == [] then None
    else
      var rest := MaxStamp(agg[1..], s);
      assert forall i :: 1 <= i < |agg| ==> agg[i] == agg[1..][i - 1];
      if agg[0].symbol != s then rest
      else match rest
        case None => Some(agg[0].timestamp)
        case Some(m) => Some(if agg[0].timestamp >= m then agg[0].timestamp else m)
  }

  /** The watermark of `s`: its latest aggregated bucket start, or the epoch when it has none (`COALESCE`). */
  function Watermark(agg: seq<AggRecord>, s: Symbol): Timestamp {
    match MaxStamp(agg, s)
    case None => Epoch
    case Some(m) => m
  }

  /** The rows of `s` strictly newer than `wm`, in table order (the `WHERE` clause). */
  function Select(table: seq<RawRow>, s: Symbol, wm: Timestamp): (r: seq<RawRow>)
    ensures forall x :: x in r <==> x in table && x.symbol == s && x.timestamp > wm
  {
    if table == [] then []
    else
      var rest := Select(table[1..], s, wm);
      assert forall x :: x in table <==> x == table[0] || x in table[1..];
      if table[0].symbol == s && table[0].timestamp > wm then [table[0]] + rest else rest
  }

  predicate Ascending(rows: seq<RawRow>) {
    forall i, j :: 0 <= i < j < |rows| ==> rows[i].timestamp <= rows[j].timestamp
  }

  predicate StrictlyAscending(rows: seq<RawRow>) {
    forall i, j :: 0 <= i < j < |rows| ==> rows[i].timestamp < rows[j].timestamp
  }

  predicate DistinctTimes(rows: seq<RawRow>) {
    forall i, j :: 0 <= i < j < |rows| ==> rows[i].timestamp != rows[j].timestamp
  }

  function InsertByTime(x: RawRow, rows: seq<RawRow>): (r: seq<RawRow>)
    ensures multiset(r) == multiset(rows) + multiset{x}
  {
    if rows == [] || x.timestamp <= rows[0].timestamp then [x] + rows
    else
      assert rows == [rows[0]] + rows[1..];
      [rows[0]] + InsertByTime(x, rows[1..])
  }

  /** `ORDER BY timestamp ASC` (insertion sort). */
  function SortByTime(rows: seq<RawRow>): (r: seq<RawRow>)
    ensures multiset(r) == multiset(rows)
  {
    if rows == [] then []
    else
      assert rows == [rows[0]] + rows[1..];
      InsertByTime(rows[0], SortByTime(rows[1..]))
  }

  lemma InsertByTimeMembers(x: RawRow, rows: seq<RawRow>)
    ensures forall y :: y in InsertByTime(x, rows) <==> y == x || y in rows
  {
    var r := InsertByTime(x, rows);
    forall y ensures y in r <==> y == x || y in rows {
      assert y in r <==> y in multiset(r);
      assert y in rows <==> y in multiset(rows);
    }
  }

  lemma {:induction false} InsertByTimeAscending(x: RawRow, rows: seq<RawRow>)
    requires Ascending(rows)
    ensures Ascending(InsertByTime(x, rows))
  {
    if rows != [] && x.timestamp > rows[0].timestamp {
      var t := InsertByTime(x, rows[1..]);
      InsertByTimeAscending(x, rows[1..]);
      InsertByTimeMembers(x, rows[1..]);
      forall j | 0 <= j < |t| ensures rows[0].timestamp <= t[j].timestamp {
        if t[j] != x {
          assert t[j] in rows[1..];
          var k :| 0 <= k < |rows[1..]| && rows[1..][k] == t[j];
          assert rows[k + 1] == t[j];
        }
      }
      var r := [rows[0]] + t;
      forall i, j | 0 <= i < j < |r| ensures r[i].timestamp <= r[j].timestamp {
        assert r[j] == t[j - 1];
        if i > 0 { assert r[i] == t[i - 1]; }
      }
    }
  }

  lemma {:induction false} InsertByTimeStrict(x: RawRow, rows: seq<RawRow>)
    requires StrictlyAscending(rows)
    requires forall k :: 0 <= k < |rows| ==> rows[k].timestamp != x.timestamp
    ensures StrictlyAscending(InsertByTime(x, rows))
  {
    if rows != [] && x.timestamp > rows[0].timestamp {
      var t := InsertByTime(x, rows[1..]);
      assert forall k :: 0 <= k < |rows[1..]| ==> rows[1..][k] == rows[k + 1];
      InsertByTimeStrict(x, rows[1..]);
      InsertByTimeMembers(x, rows[1..]);
      forall j | 0 <= j < |t| ensures rows[0].timestamp < t[j].timestamp {
        if t[j] != x {
          assert t[j] in rows[1..];
          var k :| 0 <= k < |rows[1..]| && rows[1..][k] == t[j];
          assert rows[k + 1] == t[j];
        }
      }
      var r := [rows[0]] + t;
      forall i, j | 0 <= i < j < |r| ensures r[i].timestamp < r[j].timestamp {
        assert r[j] == t[j - 1];
        if i > 0 { assert r[i] == t[i - 1]; }
      }
    }
  }

  lemma {:induction false} SortByTimeOrdered(rows: seq<RawRow>)
    ensures Ascending(SortByTime(rows))
    ensures DistinctTimes(rows) ==> StrictlyAscending(SortByTime(rows))
  {
    if rows != [] {
      var t := SortByTime(rows[1..]);
      assert rows == [rows[0]] + rows[1..];
      assert DistinctTimes(rows) ==> DistinctTimes(rows[1..]) by {
        assert forall k :: 0 <= k < |rows[1..]| ==> rows[1..][k] == rows[k + 1];
      }
      SortByTimeOrdered(rows[1..]);
      if DistinctTimes(rows) {
        forall k | 0 <= k < |t| ensures t[k].timestamp != rows[0].timestamp {
          assert t[k] in multiset(t);
          var m :| 0 <= m < |rows[1..]| && rows[1..][m] == t[k];
          assert rows[m + 1] == t[k];
        }
      }
      InsertByTimeAscending(rows[0], t);
      if DistinctTimes(rows) {
        InsertByTimeStrict(rows[0], t);
      }
    }
  }

  /** The rows the watermark query returns, before their prices are parsed. */
  function Unprocessed(table: seq<RawRow>, agg: seq<AggRecord>, s: Symbol): seq<RawRow> {
    SortByTime(Select(table, s, Watermark(agg, s)))
  }

  /**
   * `pd.to_numeric` without coercion on one price text: NULL and the empty text become missing
   * (NaN), a non-numeric text raises.
   */
  function StrictPrice(p: Option<string>): Option<Cell> {
    match p
    case None => Some(Missing)
    case Some(t) =>
      if t == "" then Some(Missing)
      else
        match ParseDecimal(t)
        case None => None
        case Some(v) => Some(Number(v))
  }

  /** A price text that the strict parse raises on: present, non-empty and not a numeral. */
  predicate NonNumericText(p: Option<string>) {
    p.Some? && p.value != "" && ParseDecimal(p.value).None?
  }

  /** The strict parse reads an empty price text as missing rather than raising. */
  lemma EmptyTextIsMissing()
    ensures StrictPrice(Some("")) == Some(Missing) && !NonNumericText(Some(""))
  {
  }

  /** The `(timestamp, price, symbol)` frame of the selected rows, with prices parsed strictly. */
  function ParseRows(rows: seq<RawRow>): (r: Result<seq<Row>>)
    ensures r.Ok? <==> forall i :: 0 <= i < |rows| ==> StrictPrice(rows[i].data.price).Some?
    ensures r.Err? ==> r.error == NotNumeric
    ensures r.Ok? ==> |r.value| == |rows| && forall i :: 0 <= i < |rows| ==>
      r.value[i] == Row(rows[i].timestamp, StrictPrice(rows[i].data.price).value, rows[i].symbol)
  {
    if rows == [] then Ok([])
    else
      assert forall i :: 1 <= i < |rows| ==> rows[i] == rows[1..][i - 1];
      match StrictPrice(rows[0].data.price)
      case None => Err(NotNumeric)
      case Some(c) =>
        match ParseRows(rows[1..])
        case Err(e) => Err(e)
        case Ok(rest) => Ok([Row(rows[0].timestamp, c, rows[0].symbol)] + rest)
  }

  /** `fetch_unprocessed_data(s)`: an empty result is returned as it is, otherwise prices are parsed strictly. */
  function FetchUnprocessed(table: seq<RawRow>, agg: seq<AggRecord>, s: Symbol): Result<seq<Row>> {
    var u := Unprocessed(table, agg, s);
    if u == [] then Ok([]) else ParseRows(u)
  }

  lemma {:induction false} SelectDistinct(table: seq<RawRow>, s: Symbol, wm: Timestamp)
    requires UniqueRawKeys(table)
    ensures DistinctTimes(Select(table, s, wm))
  {
    if table != [] {
      var rest := Select(table[1..], s, wm);
      assert UniqueRawKeys(table[1..]) by {
        assert forall k :: 0 <= k < |table[1..]| ==> table[1..][k] == table[k + 1];
      }
      SelectDistinct(table[1..], s, wm);
      if table[0].symbol == s && table[0].timestamp > wm {
        forall x | x in rest ensures x.timestamp != table[0].timestamp {
          var m :| 0 <= m < |table[1..]| && table[1..][m] == x;
          assert table[0].Key() != table[m + 1].Key();
        }
        ConsDistinct(table[0], rest);
      }
    }
  }

  /** A row whose timestamp none of `rest` has, in front of rows with distinct timestamps. */
  lemma ConsDistinct(x: RawRow, rest: seq<RawRow>)
    requires DistinctTimes(rest) && forall y | y in rest :: y.timestamp != x.timestamp
    ensures DistinctTimes([x] + rest)
  {
    var r := [x] + rest;
    forall i, j | 0 <= i < j < |r| ensures r[i].timestamp != r[j].timestamp {
      assert r[j] == rest[j - 1];
      if i > 0 { assert r[i] == rest[i - 1]; }
    }
  }

  /**
   * The watermark query returns exactly the rows of `s` strictly newer than the watermark, in
   * strictly ascending timestamp order.
   */
  lemma UnprocessedSpec(table: seq<RawRow>, agg: seq<AggRecord>, s: Symbol)
    requires UniqueRawKeys(table)
    ensures forall x :: (x in Unprocessed(table, agg, s)
                         <==> x in table && x.symbol == s && x.timestamp > Watermark(agg, s))
    ensures StrictlyAscending(Unprocessed(table, agg, s))
  {
    var sel := Select(table, s, Watermark(agg, s));
    SelectDistinct(table, s, Watermark(agg, s));
    SortByTimeOrdered(sel);
    var u := SortByTime(sel);
    forall x ensures x in u <==> x in sel {
      assert x in u <==> x in multiset(u);
    }
  }

  /** The watermark is the latest aggregate timestamp of `s`, or the epoch when `s` has no aggregate. */
  lemma WatermarkSpec(agg: seq<AggRecord>, s: Symbol)
    ensures (forall i :: 0 <= i < |agg| ==> agg[i].symbol != s) ==> Watermark(agg, s) == Epoch
    ensures forall i :: 0 <= i < |agg| && agg[i].symbol == s ==> agg[i].timestamp <= Watermark(agg, s)
    ensures (exists i :: 0 <= i < |agg| && agg[i].symbol == s)
        ==> exists i :: 0 <= i < |agg| && agg[i].symbol == s && agg[i].timestamp == Watermark(agg, s)
  {
  }

  /** Every row the watermark query selects belongs to the requested symbol. */
  lemma UnprocessedSymbol(table: seq<RawRow>, agg: seq<AggRecord>, s: Symbol)
    ensures forall i :: 0 <= i < |Unprocessed(table, agg, s)| ==> Unprocessed(table, agg, s)[i].symbol == s
  {
    var u := Unprocessed(table, agg, s);
    var sel := Select(table, s, Watermark(agg, s));
    forall i | 0 <= i < |u| ensures u[i].symbol == s {
      assert u[i] in multiset(u);
      assert u[i] in sel;
    }
  }

  /** The fetch fails exactly when a selected row holds a price text that is not numeric. */
  lemma FetchFailsIff(table: seq<RawRow>, agg: seq<AggRecord>, s: Symbol)
    ensures var u := Unprocessed(table, agg, s);
      (FetchUnprocessed(table, agg, s).Err? <==>
         exists i :: 0 <= i < |u| && NonNumericText(u[i].data.price))
    ensures FetchUnprocessed(table, agg, s).Err? ==> FetchUnprocessed(table, agg, s).error == NotNumeric
  {
  }

  /**
   * A successful fetch returns one row per selected row, in order, carrying its timestamp, the
   * requested symbol and the parsed price (missing when the payload has none or an empty one).
   */
  lemma FetchRows(table: seq<RawRow>, agg: seq<AggRecord>, s: Symbol)
    requires FetchUnprocessed(table, agg, s).Ok?
    ensures var u := Unprocessed(table, agg, s);
      var rows := FetchUnprocessed(table, agg, s).value;
      |rows| == |u| && forall i :: 0 <= i < |u| ==>
        rows[i].timestamp == u[i].timestamp && rows[i].symbol == s &&
        rows[i].price == (if u[i].data.price.None? || u[i].data.price.value == "" then Missing
                          else Number(ParseDecimal(u[i].data.price.value).value))
  {
    UnprocessedSymbol(table, agg, s);
  }

  /** After the table is emptied, the watermark query returns no row for any symbol, whatever is aggregated. */
  lemma EmptyTableFetchesNothing(agg: seq<AggRecord>, s: Symbol)
    ensures Unprocessed([], agg, s) == [] && FetchUnprocessed([], agg, s) == Ok([])
  {
  }

  /** The number of stored rows of `s`. */
  function CountOf(table: seq<RawRow>, s: Symbol): nat {
    if table == [] then 0 else CountOf(table[..|table| - 1], s) + (if table[|table| - 1].symbol == s then 1 else 0)
  }

  /** The table after inserting `row`, or the primary-key violation the insert raises. */
  function InsertRaw(table: seq<RawRow>, row: RawRow): Result<seq<RawRow>> {
    if HasRawKey(table, row.Key()) then Err(DuplicateKey) else Ok(table + [row])
  }

  /**
   * An insert fails exactly on a stored key; otherwise it keeps the primary-key constraint, adds one
   * row of the row's symbol and no row of any other symbol.
   */
  lemma InsertRawSpec(table: seq<RawRow>, row: RawRow)
    requires UniqueRawKeys(table)
    ensures InsertRaw(table, row).Err? <==> HasRawKey(table, row.Key())
    ensures InsertRaw(table, row).Ok? ==>
      var t := InsertRaw(table, row).value;
      UniqueRawKeys(t) && row in t
      && CountOf(t, row.symbol) == CountOf(table, row.symbol) + 1
      && forall s :: s != row.symbol ==> CountOf(t, s) == CountOf(table, s)
  {
    if !HasRawKey(table, row.Key()) {
      var t := table + [row];
      assert t[..|t| - 1] == table;
    }
  }

  /**
   * After an insert, the unprocessed rows of every other symbol are as they were, and the new row is
   * an unprocessed row of its symbol exactly when it is newer than that symbol's watermark.
   */
  lemma InsertRawUnprocessed(table: seq<RawRow>, agg: seq<AggRecord>, row: RawRow)
    requires UniqueRawKeys(table) && InsertRaw(table, row).Ok?
    ensures var t := InsertRaw(table, row).value;
      (forall s :: s != row.symbol ==> Unprocessed(t, agg, s) == Unprocessed(table, agg, s))
      && (row in Unprocessed(t, agg, row.symbol) <==> row.timestamp > Watermark(agg, row.symbol))
  {
    var t := table + [row];
    InsertRawSpec(table, row);
    forall s | s != row.symbol ensures Unprocessed(t, agg, s) == Unprocessed(table, agg, s) {
      SelectAppendOther(table, row, s, Watermark(agg, s));
    }
    UnprocessedSpec(t, agg, row.symbol);
  }

  lemma {:induction false} SelectAppendOther(table: seq<RawRow>, row: RawRow, s: Symbol, wm: Timestamp)
    requires row.symbol != s
    ensures Select(table + [row], s, wm) == Select(table, s, wm)
    decreases |table|
  {
    if table == [] {
      assert [row][1..] == [];
    } else {
      assert (table + [row])[1..] == table[1..] + [row];
      SelectAppendOther(table[1..], row, s, wm);
    }
  }

  /** The repository over `raw_data`. */
  class RawDataRepository {
    var rows: seq<RawRow>

    ghost predicate Valid()
      reads this
    {
      UniqueRawKeys(rows)
    }

    constructor ()
      ensures Valid() && rows == []
    {
      rows := [];
    }

    /**
     * `insert_raw_data`: adds exactly the row `(symbol, data, timestamp)`; a duplicate key or a failed
     * commit rolls back, leaving the table as it was, and the error propagates.
     */
    method InsertRawData(symbol: Symbol, data: Payload, timestamp: Timestamp, commitFails: bool)
      returns (outcome: Outcome)
      requires Valid()
      modifies this
      ensures Valid()
      ensures InsertRaw(old(rows), RawRow(symbol, data, timestamp)).Err?
        ==> outcome == Failed(InsertRaw(old(rows), RawRow(symbol, data, timestamp)).error) && rows == old(rows)
      ensures InsertRaw(old(rows), RawRow(symbol, data, timestamp)).Ok? && commitFails
        ==> outcome == Failed(StorageFault) && rows == old(rows)
      ensures InsertRaw(old(rows), RawRow(symbol, data, timestamp)).Ok? && !commitFails
        ==> outcome == Done && rows == InsertRaw(old(rows), RawRow(symbol, data, timestamp)).value
    {
      var row := RawRow(symbol, data, timestamp);
      if HasRawKey(rows, row.Key()) {
        outcome := Failed(DuplicateKey);
      } else if commitFails {
        outcome := Failed(StorageFault);
      } else {
        rows := rows + [row];
        outcome := Done;
      }
    }

    /** `delete_all_raw_data`: empties the table, or on a failed commit leaves it as it was. */
    method DeleteAllRawData(commitFails: bool) returns (outcome: Outcome)
      requires Valid()
      modifies this
      ensures Valid()
      ensures commitFails ==> outcome == Failed(StorageFault) && rows == old(rows)
      ensures !commitFails ==> outcome == Done && rows == []
    {
      if commitFails {
        outcome := Failed(StorageFault);
      } else {
        rows := [];
        outcome := Done;
      }
    }
  }
}
