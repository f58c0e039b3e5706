/**
 * `DataTransformer._downsample_data`: coerce prices to numbers, drop the rows that do not coerce,
 * group the rest into fixed-width, left-closed time buckets, and compute the mean and the median of
 * each non-empty bucket, stamping every aggregate with the symbol of the first surviving row.
 *
 * Time buckets follow pandas' `resample` with its default origin: buckets are laid out from
 * midnight (UTC) of the day of the earliest sample, `width` seconds apart.
 */
module Resample {
  import opened Common
  import opened Numeric
  import opened Stats
  import opened AggregateStore

  /** `pd.to_numeric(errors='coerce')` on one cell: `None` is the NaN that `dropna` removes. */
  function Coerce(c: Cell): Option<real> {
    match c
    case Missing => None
    case Number(v) => Some(v)
    case Text(t) => ParseDecimal(t)
  }

  /** A row whose price survived coercion. */
  datatype Sample = Sample(timestamp: Timestamp, price: real, symbol: Symbol)

  /** The rows left after `dropna(subset=['price'])`, in their original order. */
  function Survivors(rows: seq<Row>): (r: seq<Sample>)
    ensures |r| <= |rows|
  {
    if rows == [] then []
    else
      match Coerce(rows[0].price)
      case None => Survivors(rows[1..])
      case Some(v) => [Sample(rows[0].timestamp, v, rows[0].symbol)] + Survivors(rows[1..])
  }

  /** The number of rows whose price does not coerce to a number. */
  function NonNumericCount(rows: seq<Row>): nat {
    if rows == [] then 0
    else (if Coerce(rows[0].price).None? then 1 else 0) + NonNumericCount(rows[1..])
  }

  /** The logged `dropped_count` (input length minus surviving length) counts exactly the non-numeric rows. */
  lemma {:induction false} DroppedCountIsNonNumeric(rows: seq<Row>)
    ensures |rows| - |Survivors(rows)| == NonNumericCount(rows)
  {
    if rows != [] {
      DroppedCountIsNonNumeric(rows[1..]);
    }
  }

  /**
   * A sample survives exactly when some input row with the same timestamp and symbol has a price
   * that coerces to the sample's price.
   */
  lemma {:induction false} SurvivorsSpec(rows: seq<Row>)
    ensures forall j :: 0 <= j < |rows| && Coerce(rows[j].price).Some? ==>
      Sample(rows[j].timestamp, Coerce(rows[j].price).value, rows[j].symbol) in Survivors(rows)
    ensures forall x :: x in Survivors(rows) ==> exists j :: (0 <= j < |rows| &&
      Coerce(rows[j].price) == Some(x.price) && rows[j].timestamp == x.timestamp && rows[j].symbol == x.symbol)
  {
    if rows != [] {
      SurvivorsSpec(rows[1..]);
      assert forall j :: 1 <= j < |rows| ==> rows[j] == rows[1..][j - 1];
      var r := Survivors(rows);
      forall x | x in r ensures exists j :: (0 <= j < |rows| &&
        Coerce(rows[j].price) == Some(x.price) && rows[j].timestamp == x.timestamp && rows[j].symbol == x.symbol)
      {
        if x !in Survivors(rows[1..]) {
          assert Coerce(rows[0].price) == Some(x.price);
        } else {
          var j :| 0 <= j < |rows[1..]| && Coerce(rows[1..][j].price) == Some(x.price)
            && rows[1..][j].timestamp == x.timestamp && rows[1..][j].symbol == x.symbol;
          assert rows[j + 1] == rows[1..][j];
        }
      }
    }
  }

  /** `dropna` keeps the order of the rows: the survivors of a concatenation are concatenated. */
  lemma {:induction false} SurvivorsAppend(a: seq<Row>, b: seq<Row>)
    ensures Survivors(a + b) == Survivors(a) + Survivors(b)
    decreases |a|
  {
    if a == [] {
      assert a + b == b;
    } else {
      assert (a + b)[0] == a[0] && (a + b)[1..] == a[1..] + b;
      SurvivorsAppend(a[1..], b);
      var x, y, z := Survivors([a[0]]), Survivors(a[1..]), Survivors(b);
      SurvivorsCons(a, x);
      SurvivorsCons(a + b, x);
      assert x + (y + z) == (x + y) + z;
    }
  }

  /** The survivors of a non-empty sequence: those of its first row, then those of the rest. */
  lemma SurvivorsCons(rows: seq<Row>, first: seq<Sample>)
    requires rows != [] && first == Survivors([rows[0]])
    ensures Survivors(rows) == first + Survivors(rows[1..])
  {
    assert [rows[0]][1..] == [];
  }

  /** One row survives as its own sample exactly when its price coerces to a number. */
  lemma SurvivorsOfOne(row: Row)
    ensures Survivors([row]) ==
      if Coerce(row.price).None? then [] else [Sample(row.timestamp, Coerce(row.price).value, row.symbol)]
  {
    assert [row][1..] == [];
  }

  /** Rows none of whose prices coerce leave no survivor. */
  lemma {:induction false} NoSurvivors(rows: seq<Row>)
    requires forall i :: 0 <= i < |rows| ==> Coerce(rows[i].price).None?
    ensures Survivors(rows) == []
  {
    if rows != [] {
      assert forall i :: 0 <= i < |rows[1..]| ==> rows[1..][i] == rows[i + 1];
      NoSurvivors(rows[1..]);
    }
  }

  /**
   * The first survivor, whose symbol stamps every aggregate, is the sample of the first row whose
   * price coerces to a number.
   */
  lemma FirstSurvivor(rows: seq<Row>, j: nat)
    requires j < |rows| && Coerce(rows[j].price).Some?
    requires forall i :: 0 <= i < j ==> Coerce(rows[i].price).None?
    ensures Survivors(rows) != []
    ensures Survivors(rows)[0] == Sample(rows[j].timestamp, Coerce(rows[j].price).value, rows[j].symbol)
  {
    assert rows == rows[..j] + rows[j..];
    assert forall i :: 0 <= i < |rows[..j]| ==> rows[..j][i] == rows[i];
    NoSurvivors(rows[..j]);
    SurvivorsAppend(rows[..j], rows[j..]);
    assert rows[j..][0] == rows[j];
  }

  const SecondsPerDay: int := 86400

  /** Midnight (UTC) of the day holding `t`. */
  function DayStart(t: Timestamp): Timestamp {
    (t / SecondsPerDay) * SecondsPerDay
  }

  lemma DivMod(x: int, w: int)
    requires w > 0
    ensures x == (x / w) * w + x % w && 0 <= x % w < w
  {
  }

  lemma MulMod(q: int, w: int)
    requires w > 0
    ensures (q * w) % w == 0 && (q * w) / w == q
  {
    DivMod(q * w, w);
    DivUnique(q * w, w, q, 0);
  }

  lemma DivUnique(x: int, w: int, q: int, r: int)
    requires w > 0 && 0 <= r < w && x == q * w + r
    ensures x / w == q && x % w == r
  {
    DivMod(x, w);
    MulSign(q - x / w, w);
  }

  lemma MulSign(d: int, w: int)
    requires w > 0
    ensures d >= 1 ==> d * w >= w
    ensures d <= -1 ==> d * w <= -w
    decreases if d >= 0 then d else -d
  {
    if d > 1 {
      MulSign(d - 1, w);
    } else if d < -1 {
      MulSign(d + 1, w);
    }
  }

  /** The start of the left-closed bucket of width `width`, laid out from `origin`, that holds `t`. */
  function BucketStart(t: Timestamp, origin: Timestamp, width: int): (b: Timestamp)
    requires width > 0
    ensures b <= t < b + width
    ensures (b - origin) % width == 0
  {
    DivMod(t - origin, width);
    MulMod((t - origin) / width, width);
    origin + ((t - origin) / width) * width
  }

  /** A timestamp falls in the bucket starting at `b` exactly when `b <= t < b + width`. */
  lemma BucketStartIff(t: Timestamp, origin: Timestamp, width: int, b: Timestamp)
    requires width > 0 && (b - origin) % width == 0
    ensures BucketStart(t, origin, width) == b <==> b <= t < b + width
  {
    if b <= t < b + width {
      DivMod(b - origin, width);
      var k := (b - origin) / width;
      DivUnique(t - origin, width, k, t - b);
    }
  }

  /** When the width divides a day, buckets laid out from any midnight are the epoch-aligned `(t / w) * w`. */
  lemma BucketStartEpochAligned(t: Timestamp, m: Timestamp, width: int)
    requires width > 0 && SecondsPerDay % width == 0
    ensures BucketStart(t, DayStart(m), width) == (t / width) * width
  {
    var d := m / SecondsPerDay;
    var perDay := SecondsPerDay / width;
    DivMod(SecondsPerDay, width);
    assert SecondsPerDay == perDay * width;
    assert DayStart(m) == (d * perDay) * width;
    var k := d * perDay;
    DivMod(t, width);
    var q, r := t / width, t % width;
    DivUnique(t - k * width, width, q - k, r);
  }

  /** The earliest timestamp among the samples. */
  function MinTime(S: seq<Sample>): (m: Timestamp)
    requires S != []
    ensures forall i :: 0 <= i < |S| ==> m <= S[i].timestamp
  {
    if |S| == 1 then S[0].timestamp
    else
      var m := MinTime(S[1..]);
      assert forall i :: 1 <= i < |S| ==> S[i] == S[1..][i - 1];
      if S[0].timestamp <= m then S[0].timestamp else m
  }

  /** The earliest timestamp is the timestamp of some sample, so the origin is the midnight of a sample's day. */
  lemma {:induction false} MinTimeAttained(S: seq<Sample>)
    requires S != []
    ensures exists i :: 0 <= i < |S| && S[i].timestamp == MinTime(S)
    decreases |S|
  {
    if |S| > 1 && S[0].timestamp > MinTime(S[1..]) {
      MinTimeAttained(S[1..]);
      var k :| 0 <= k < |S[1..]| && S[1..][k].timestamp == MinTime(S[1..]);
      assert S[k + 1].timestamp == MinTime(S);
    } else {
      assert S[0].timestamp == MinTime(S);
    }
  }

  /** Where pandas lays out the buckets: midnight of the earliest sample's day. */
  function Origin(S: seq<Sample>): Timestamp
    requires S != []
  {
    DayStart(MinTime(S))
  }

  /** `b` is the start of the bucket of some sample. */
  ghost predicate NonEmptyBucket(S: seq<Sample>, origin: Timestamp, width: int, b: Timestamp)
    requires width > 0
  {
    exists i :: 0 <= i < |S| && BucketStart(S[i].timestamp, origin, width) == b
  }

  predicate Increasing(s: seq<Timestamp>) {
    forall i, j :: 0 <= i < j < |s| ==> s[i] < s[j]
  }

  function InsertStart(b: Timestamp, s: seq<Timestamp>): (r: seq<Timestamp>)
    requires Increasing(s)
    ensures Increasing(r)
    ensures forall y :: y in r <==> y == b || y in s
  {
    if s == [] || b < s[0] then [b] + s
    else if b == s[0] then s
    else
      var t := InsertStart(b, s[1..]);
      assert forall y :: y in s <==> y == s[0] || y in s[1..];
      forall j | 0 <= j < |t| ensures s[0] < t[j] {
        assert t[j] in t;
        if t[j] != b {
          var k :| 0 <= k < |s[1..]| && s[1..][k] == t[j];
          assert s[k + 1] == t[j];
        }
      }
      [s[0]] + t
  }

  /** The starts of the non-empty buckets, ascending and without repetition. */
  function BucketStarts(S: seq<Sample>, origin: Timestamp, width: int): (r: seq<Timestamp>)
    requires width > 0
    ensures Increasing(r)
    ensures forall y :: y in r <==> NonEmptyBucket(S, origin, width, y)
  {
    if S == [] then []
    else
      var rest := BucketStarts(S[1..], origin, width);
      assert forall i :: 1 <= i < |S| ==> S[i] == S[1..][i - 1];
      assert forall y :: NonEmptyBucket(S, origin, width, y) <==>
        y == BucketStart(S[0].timestamp, origin, width) || NonEmptyBucket(S[1..], origin, width, y) by {
        forall y | NonEmptyBucket(S, origin, width, y)
          ensures y == BucketStart(S[0].timestamp, origin, width) || NonEmptyBucket(S[1..], origin, width, y)
        {
          var i :| 0 <= i < |S| && BucketStart(S[i].timestamp, origin, width) == y;
          if i > 0 { assert S[1..][i - 1] == S[i]; }
        }
        forall y | NonEmptyBucket(S[1..], origin, width, y) ensures NonEmptyBucket(S, origin, width, y) {
          var i :| 0 <= i < |S[1..]| && BucketStart(S[1..][i].timestamp, origin, width) == y;
          assert S[i + 1] == S[1..][i];
        }
      }
      InsertStart(BucketStart(S[0].timestamp, origin, width), rest)
  }

  /** The prices of the samples in the bucket starting at `b`, in sample order. */
  function PricesIn(S: seq<Sample>, origin: Timestamp, width: int, b: Timestamp): (r: seq<real>)
    requires width > 0
    ensures NonEmptyBucket(S, origin, width, b) ==> r != []
  {
    if S == [] then []
    else
      var rest := PricesIn(S[1..], origin, width, b);
      assert NonEmptyBucket(S, origin, width, b) && BucketStart(S[0].timestamp, origin, width) != b
        ==> NonEmptyBucket(S[1..], origin, width, b) by {
        if NonEmptyBucket(S, origin, width, b) && BucketStart(S[0].timestamp, origin, width) != b {
          var i :| 0 <= i < |S| && BucketStart(S[i].timestamp, origin, width) == b;
          assert S[1..][i - 1] == S[i];
        }
      }
      if BucketStart(S[0].timestamp, origin, width) == b then [S[0].price] + rest else rest
  }

  /** A price is in the bucket starting at `b` exactly when some sample in that bucket has it. */
  lemma {:induction false} PricesInMembers(S: seq<Sample>, origin: Timestamp, width: int, b: Timestamp)
    requires width > 0
    ensures forall p :: p in PricesIn(S, origin, width, b) <==>
      exists i :: 0 <= i < |S| && S[i].price == p && BucketStart(S[i].timestamp, origin, width) == b
  {
    if S != [] {
      PricesInMembers(S[1..], origin, width, b);
      forall p ensures p in PricesIn(S, origin, width, b) <==>
        exists i :: 0 <= i < |S| && S[i].price == p && BucketStart(S[i].timestamp, origin, width) == b
      {
        if exists i :: 0 <= i < |S| && S[i].price == p && BucketStart(S[i].timestamp, origin, width) == b {
          var i :| 0 <= i < |S| && S[i].price == p && BucketStart(S[i].timestamp, origin, width) == b;
          if i > 0 { assert S[1..][i - 1] == S[i]; }
        }
        if p in PricesIn(S[1..], origin, width, b) {
          var i :| 0 <= i < |S[1..]| && S[1..][i].price == p && BucketStart(S[1..][i].timestamp, origin, width) == b;
          assert S[i + 1] == S[1..][i];
        }
      }
    }
  }

  /** The bucket's prices of a concatenation are those of each part, in order. */
  lemma {:induction false} PricesInAppend(A: seq<Sample>, B: seq<Sample>, origin: Timestamp, width: int, b: Timestamp)
    requires width > 0
    ensures PricesIn(A + B, origin, width, b) == PricesIn(A, origin, width, b) + PricesIn(B, origin, width, b)
    decreases |A|
  {
    if A == [] {
      assert A + B == B;
    } else {
      assert (A + B)[1..] == A[1..] + B;
      PricesInAppend(A[1..], B, origin, width, b);
    }
  }

  /** The samples among the first `n` that lie in the bucket starting at `b` and have price `p`. */
  ghost function SamplesWith(S: seq<Sample>, origin: Timestamp, width: int, b: Timestamp, p: real, n: nat): set<nat>
    requires width > 0
  {
    set i: nat | i < n && i < |S| && S[i].price == p && BucketStart(S[i].timestamp, origin, width) == b
  }

  /** Taking one more sample adds its price to the bucket's list exactly when it lies in the bucket. */
  lemma PricesInSnoc(S: seq<Sample>, origin: Timestamp, width: int, b: Timestamp, n: nat)
    requires width > 0 && 0 < n <= |S|
    ensures PricesIn(S[..n], origin, width, b) == PricesIn(S[..n - 1], origin, width, b)
      + (if BucketStart(S[n - 1].timestamp, origin, width) == b then [S[n - 1].price] else [])
  {
    assert S[..n] == S[..n - 1] + [S[n - 1]];
    PricesInAppend(S[..n - 1], [S[n - 1]], origin, width, b);
    assert [S[n - 1]][1..] == [];
  }

  /** Taking one more sample adds its index exactly when it lies in the bucket with price `p`. */
  lemma SamplesWithSnoc(S: seq<Sample>, origin: Timestamp, width: int, b: Timestamp, p: real, n: nat)
    requires width > 0 && 0 < n <= |S|
    ensures |SamplesWith(S, origin, width, b, p, n)| == |SamplesWith(S, origin, width, b, p, n - 1)|
      + (if S[n - 1].price == p && BucketStart(S[n - 1].timestamp, origin, width) == b then 1 else 0)
  {
    var before := SamplesWith(S, origin, width, b, p, n - 1);
    if S[n - 1].price == p && BucketStart(S[n - 1].timestamp, origin, width) == b {
      assert SamplesWith(S, origin, width, b, p, n) == before + {n - 1};
    } else {
      assert SamplesWith(S, origin, width, b, p, n) == before;
    }
  }

  /** Among the first `n` samples, each price occurs in the bucket's list as often as samples in the bucket have it. */
  lemma {:induction false} PricesInCount(S: seq<Sample>, origin: Timestamp, width: int, b: Timestamp, p: real, n: nat)
    requires width > 0 && n <= |S|
    ensures multiset(PricesIn(S[..n], origin, width, b))[p] == |SamplesWith(S, origin, width, b, p, n)|
    decreases n
  {
    if n == 0 {
      assert SamplesWith(S, origin, width, b, p, 0) == {};
    } else {
      PricesInCount(S, origin, width, b, p, n - 1);
      PricesInSnoc(S, origin, width, b, n);
      SamplesWithSnoc(S, origin, width, b, p, n);
    }
  }

  /**
   * The prices of the bucket starting at `b` are exactly those of the samples in that bucket, each
   * as often as it occurs among them, so the mean and the median see every repeated price.
   */
  lemma PricesInSpec(S: seq<Sample>, origin: Timestamp, width: int, b: Timestamp)
    requires width > 0
    ensures forall p :: p in PricesIn(S, origin, width, b) <==>
      exists i :: 0 <= i < |S| && S[i].price == p && BucketStart(S[i].timestamp, origin, width) == b
    ensures forall p :: multiset(PricesIn(S, origin, width, b))[p]
                       == |set i: nat | i < |S| && S[i].price == p && BucketStart(S[i].timestamp, origin, width) == b|
  {
    PricesInMembers(S, origin, width, b);
    assert S[..|S|] == S;
    forall p ensures multiset(PricesIn(S, origin, width, b))[p] ==
      |set i: nat | i < |S| && S[i].price == p && BucketStart(S[i].timestamp, origin, width) == b|
    {
      PricesInCount(S, origin, width, b, p, |S|);
      assert SamplesWith(S, origin, width, b, p, |S|) ==
        set i: nat | i < |S| && S[i].price == p && BucketStart(S[i].timestamp, origin, width) == b;
    }
  }

  /** One aggregate per listed bucket start, stamped with `symbol`. */
  function Aggregate(S: seq<Sample>, origin: Timestamp, width: int, symbol: Symbol, starts: seq<Timestamp>)
    : (r: seq<AggRecord>)
    requires width > 0
    requires forall b :: b in starts ==> NonEmptyBucket(S, origin, width, b)
    ensures |r| == |starts|
    ensures forall k :: 0 <= k < |r| ==> r[k] == AggRecord(symbol, starts[k],
      Mean(PricesIn(S, origin, width, starts[k])), Median(PricesIn(S, origin, width, starts[k])))
  {
    if starts == [] then []
    else
      var prices := PricesIn(S, origin, width, starts[0]);
      [AggRecord(symbol, starts[0], Mean(prices), Median(prices))]
        + Aggregate(S, origin, width, symbol, starts[1..])
  }

  /**
   * `_downsample_data` over a table of rows and a bucket width in seconds. With no numeric price
   * left, reading the first row's symbol fails.
   */
  function Downsample(rows: seq<Row>, width: int): (r: Result<seq<AggRecord>>)
    requires width > 0
    ensures r.Err? <==> Survivors(rows) == []
    ensures r.Err? ==> r.error == EmptyFrame
  {
    var S := Survivors(rows);
    if S == [] then Err(EmptyFrame)
    else
      var origin := Origin(S);
      Ok(Aggregate(S, origin, width, S[0].symbol, BucketStarts(S, origin, width)))
  }

  /**
   * What a successful downsample returns: one aggregate per non-empty bucket, in strictly ascending
   * bucket order, each holding the mean and the median of exactly its bucket's prices and the symbol
   * of the first surviving row.
   */
  lemma DownsampleSpec(rows: seq<Row>, width: int)
    requires width > 0 && Survivors(rows) != []
    ensures var S := Survivors(rows);
      var origin := Origin(S);
      var recs := Downsample(rows, width).value;
      && (forall k, l :: 0 <= k < l < |recs| ==> recs[k].timestamp < recs[l].timestamp)
      && (forall k :: 0 <= k < |recs| ==> recs[k].symbol == S[0].symbol)
      && (forall k :: 0 <= k < |recs| ==> NonEmptyBucket(S, origin, width, recs[k].timestamp))
      && (forall i :: 0 <= i < |S| ==> exists k :: (0 <= k < |recs| &&
            recs[k].timestamp == BucketStart(S[i].timestamp, origin, width)))
      && (forall k :: 0 <= k < |recs| ==>
            && recs[k].avgPrice == Mean(PricesIn(S, origin, width, recs[k].timestamp))
            && recs[k].medianPrice == Median(PricesIn(S, origin, width, recs[k].timestamp)))
  {
    var S := Survivors(rows);
    var origin := Origin(S);
    var starts := BucketStarts(S, origin, width);
    var recs := Downsample(rows, width).value;
    forall i | 0 <= i < |S| ensures exists k :: (0 <= k < |recs| &&
      recs[k].timestamp == BucketStart(S[i].timestamp, origin, width))
    {
      var b := BucketStart(S[i].timestamp, origin, width);
      assert NonEmptyBucket(S, origin, width, b);
      var k :| 0 <= k < |starts| && starts[k] == b;
      assert recs[k].timestamp == b;
    }
  }

  /** The aggregates of a downsample have distinct keys. */
  lemma DownsampleDistinctKeys(rows: seq<Row>, width: int)
    requires width > 0 && Survivors(rows) != []
    ensures DistinctKeys(Downsample(rows, width).value)
  {
    DownsampleSpec(rows, width);
  }

  /** Both statistics of every aggregate lie between the smallest and the largest price of its bucket. */
  lemma DownsampleBounds(rows: seq<Row>, width: int, k: nat)
    requires width > 0 && Survivors(rows) != [] && k < |Downsample(rows, width).value|
    ensures var S := Survivors(rows);
      var rec := Downsample(rows, width).value[k];
      var prices := PricesIn(S, Origin(S), width, rec.timestamp);
      prices != [] && Min(prices) <= rec.avgPrice <= Max(prices) && Min(prices) <= rec.medianPrice <= Max(prices)
  {
    DownsampleSpec(rows, width);
    var S := Survivors(rows);
    var rec := Downsample(rows, width).value[k];
    var prices := PricesIn(S, Origin(S), width, rec.timestamp);
    MeanBounds(prices);
    MedianBounds(prices);
  }
}
