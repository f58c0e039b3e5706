/**
 * The expected outputs of the resampler's unit tests (tests/test_transformer.py), proved of the
 * model with a one-minute bucket width. The tests' naive timestamps are read as UTC seconds.
 */
module TransformerCases {
  import opened Common
  import opened Numeric
  import opened Stats
  import opened AggregateStore
  import opened Resample

  /** 2024-10-12 09:00:00, nine hours after the midnight that pandas lays the buckets out from. */
  const T0: Timestamp := 1728723600

  /** A three-digit price text parses to its value. */
  lemma ParseThreeDigits(s: string, n: nat)
    requires |s| == 3 && AllDigits(s)
    requires n == DigitValue(s[0]) * 100 + DigitValue(s[1]) * 10 + DigitValue(s[2])
    ensures ParseDecimal(s) == Some(n as real)
  {
    var two, one := s[..2], s[..1];
    assert two[..1] == one && one[..0] == [];
    assert DigitsValue(one) == DigitValue(s[0]);
    assert DigitsValue(two) == DigitValue(s[0]) * 10 + DigitValue(s[1]);
    assert DigitsValue(s) == n;
  }

  /** Two samples in each of two minutes. */
  const DupRows: seq<Row> := [Row(T0, Text("100"), "AAPL"), Row(T0, Text("110"), "AAPL"),
                              Row(T0 + 60, Text("101"), "AAPL"), Row(T0 + 60, Text("111"), "AAPL")]
  const DupSamples: seq<Sample> := [Sample(T0, 100.0, "AAPL"), Sample(T0, 110.0, "AAPL"),
                                    Sample(T0 + 60, 101.0, "AAPL"), Sample(T0 + 60, 111.0, "AAPL")]

  lemma DupSurvivors()
    ensures Survivors(DupRows) == DupSamples
  {
    ParseThreeDigits("100", 100);
    ParseThreeDigits("110", 110);
    ParseThreeDigits("101", 101);
    ParseThreeDigits("111", 111);
    var rows, S := DupRows, DupSamples;
    assert Survivors(rows[3..]) == S[3..];
    assert Survivors(rows[2..]) == S[2..];
    assert Survivors(rows[1..]) == S[1..];
  }

  lemma DupOrigin()
    ensures Origin(DupSamples) == T0 - 32400
  {
    var S := DupSamples;
    assert MinTime(S[3..]) == T0 + 60;
    assert MinTime(S[2..]) == T0 + 60;
    assert MinTime(S[1..]) == T0;
    assert MinTime(S) == T0;
  }

  lemma DupBuckets()
    ensures BucketStarts(DupSamples, T0 - 32400, 60) == [T0, T0 + 60]
  {
    var S, o := DupSamples, T0 - 32400;
    BucketStartIff(T0, o, 60, T0);
    BucketStartIff(T0 + 60, o, 60, T0 + 60);
    assert BucketStarts(S[3..], o, 60) == [T0 + 60];
    assert BucketStarts(S[2..], o, 60) == [T0 + 60];
    assert BucketStarts(S[1..], o, 60) == [T0, T0 + 60];
  }

  lemma DupPrices()
    ensures PricesIn(DupSamples, T0 - 32400, 60, T0) == [100.0, 110.0]
    ensures PricesIn(DupSamples, T0 - 32400, 60, T0 + 60) == [101.0, 111.0]
  {
    var S, o := DupSamples, T0 - 32400;
    BucketStartIff(T0, o, 60, T0);
    BucketStartIff(T0 + 60, o, 60, T0 + 60);
    BucketStartIff(T0, o, 60, T0 + 60);
    BucketStartIff(T0 + 60, o, 60, T0);
    assert PricesIn(S[3..], o, 60, T0) == [];
    assert PricesIn(S[2..], o, 60, T0) == [];
    assert PricesIn(S[1..], o, 60, T0) == [110.0];
    assert PricesIn(S[3..], o, 60, T0 + 60) == [111.0];
    assert PricesIn(S[2..], o, 60, T0 + 60) == [101.0, 111.0];
    assert PricesIn(S[1..], o, 60, T0 + 60) == [101.0, 111.0];
  }

  /** A downsample is the aggregation of its surviving samples. */
  lemma DownsampleOf(rows: seq<Row>, width: int, S: seq<Sample>, origin: Timestamp, starts: seq<Timestamp>)
    requires width > 0 && S != [] && Survivors(rows) == S
    requires origin == Origin(S) && starts == BucketStarts(S, origin, width)
    ensures Downsample(rows, width) == Ok(Aggregate(S, origin, width, S[0].symbol, starts))
  {
  }

  /**
   * Two samples per minute: each minute's mean and median are the midpoint of its two prices
   * (100 and 110 give 105, 101 and 111 give 106).
   */
  lemma DuplicateTimestamps()
    ensures Downsample(DupRows, 60)
         == Ok([AggRecord("AAPL", T0, 105.0, 105.0), AggRecord("AAPL", T0 + 60, 106.0, 106.0)])
  {
    DupSurvivors();
    DupOrigin();
    DupAggregate();
    DownsampleOf(DupRows, 60, DupSamples, T0 - 32400, BucketStarts(DupSamples, T0 - 32400, 60));
  }

  lemma DupAggregate()
    ensures Aggregate(DupSamples, T0 - 32400, 60, "AAPL", BucketStarts(DupSamples, T0 - 32400, 60))
         == [AggRecord("AAPL", T0, 105.0, 105.0), AggRecord("AAPL", T0 + 60, 106.0, 106.0)]
  {
    DupBuckets();
    DupPrices();
    PairStats(100.0, 110.0);
    PairStats(101.0, 111.0);
  }

  /** Samples five minutes apart. */
  const GapRows: seq<Row> := [Row(T0, Text("100"), "AAPL"), Row(T0 + 300, Text("105"), "AAPL"),
                              Row(T0 + 600, Text("110"), "AAPL")]
  const GapSamples: seq<Sample> := [Sample(T0, 100.0, "AAPL"), Sample(T0 + 300, 105.0, "AAPL"),
                                    Sample(T0 + 600, 110.0, "AAPL")]

  lemma GapSurvivors()
    ensures Survivors(GapRows) == GapSamples
  {
    ParseThreeDigits("100", 100);
    ParseThreeDigits("105", 105);
    ParseThreeDigits("110", 110);
    var rows, S := GapRows, GapSamples;
    assert Survivors(rows[2..]) == S[2..];
    assert Survivors(rows[1..]) == S[1..];
  }

  lemma GapOrigin()
    ensures Origin(GapSamples) == T0 - 32400
  {
    var S := GapSamples;
    assert MinTime(S[2..]) == T0 + 600;
    assert MinTime(S[1..]) == T0 + 300;
    assert MinTime(S) == T0;
  }

  lemma GapBuckets()
    ensures BucketStarts(GapSamples, T0 - 32400, 60) == [T0, T0 + 300, T0 + 600]
  {
    var S, o := GapSamples, T0 - 32400;
    BucketStartIff(T0, o, 60, T0);
    BucketStartIff(T0 + 300, o, 60, T0 + 300);
    BucketStartIff(T0 + 600, o, 60, T0 + 600);
    assert BucketStarts(S[2..], o, 60) == [T0 + 600];
    assert BucketStarts(S[1..], o, 60) == [T0 + 300, T0 + 600];
  }

  lemma GapPrices()
    ensures PricesIn(GapSamples, T0 - 32400, 60, T0) == [100.0]
    ensures PricesIn(GapSamples, T0 - 32400, 60, T0 + 300) == [105.0]
    ensures PricesIn(GapSamples, T0 - 32400, 60, T0 + 600) == [110.0]
  {
    var S, o := GapSamples, T0 - 32400;
    BucketStartIff(T0, o, 60, T0);
    BucketStartIff(T0 + 300, o, 60, T0 + 300);
    BucketStartIff(T0 + 600, o, 60, T0 + 600);
    BucketStartIff(T0, o, 60, T0 + 300);
    BucketStartIff(T0, o, 60, T0 + 600);
    BucketStartIff(T0 + 300, o, 60, T0);
    BucketStartIff(T0 + 300, o, 60, T0 + 600);
    BucketStartIff(T0 + 600, o, 60, T0);
    BucketStartIff(T0 + 600, o, 60, T0 + 300);
    assert S[2..][1..] == [] && S[1..][1..] == S[2..];
    assert PricesIn(S[2..], o, 60, T0) == [];
    assert PricesIn(S[1..], o, 60, T0) == [];
    assert PricesIn(S[2..], o, 60, T0 + 300) == [];
    assert PricesIn(S[1..], o, 60, T0 + 300) == [105.0];
    assert PricesIn(S[2..], o, 60, T0 + 600) == [110.0];
    assert PricesIn(S[1..], o, 60, T0 + 600) == [110.0];
  }

  lemma GapAggregate()
    ensures Aggregate(GapSamples, T0 - 32400, 60, "AAPL", BucketStarts(GapSamples, T0 - 32400, 60))
         == [AggRecord("AAPL", T0, 100.0, 100.0), AggRecord("AAPL", T0 + 300, 105.0, 105.0),
             AggRecord("AAPL", T0 + 600, 110.0, 110.0)]
  {
    GapBuckets();
    GapPrices();
    SingletonStats(100.0);
    SingletonStats(105.0);
    SingletonStats(110.0);
  }

  /** Samples five minutes apart give one aggregate each; the empty minutes in between give none. */
  lemma NonUniformTimestamps()
    ensures Downsample(GapRows, 60)
         == Ok([AggRecord("AAPL", T0, 100.0, 100.0), AggRecord("AAPL", T0 + 300, 105.0, 105.0),
                AggRecord("AAPL", T0 + 600, 110.0, 110.0)])
  {
    GapSurvivors();
    GapOrigin();
    GapAggregate();
    DownsampleOf(GapRows, 60, GapSamples, T0 - 32400, BucketStarts(GapSamples, T0 - 32400, 60));
  }

  /** A non-numeric price between two numeric ones. */
  const BadRows: seq<Row> := [Row(T0, Text("100"), "AAPL"), Row(T0 + 60, Text("ABC"), "AAPL"),
                              Row(T0 + 120, Text("102"), "AAPL")]
  const BadSamples: seq<Sample> := [Sample(T0, 100.0, "AAPL"), Sample(T0 + 120, 102.0, "AAPL")]

  lemma BadSurvivors()
    ensures Survivors(BadRows) == BadSamples && NonNumericCount(BadRows) == 1
  {
    ParseThreeDigits("100", 100);
    ParseRejectsNonNumeral("ABC", 0);
    ParseThreeDigits("102", 102);
    var rows, S := BadRows, BadSamples;
    assert Survivors(rows[2..]) == S[1..];
    assert Survivors(rows[1..]) == S[1..];
    DroppedCountIsNonNumeric(rows);
  }

  lemma BadOrigin()
    ensures Origin(BadSamples) == T0 - 32400
  {
    var S := BadSamples;
    assert MinTime(S[1..]) == T0 + 120;
    assert MinTime(S) == T0;
  }

  lemma BadBuckets()
    ensures BucketStarts(BadSamples, T0 - 32400, 60) == [T0, T0 + 120]
    ensures PricesIn(BadSamples, T0 - 32400, 60, T0) == [100.0]
    ensures PricesIn(BadSamples, T0 - 32400, 60, T0 + 120) == [102.0]
  {
    var S, o := BadSamples, T0 - 32400;
    BucketStartIff(T0, o, 60, T0);
    BucketStartIff(T0 + 120, o, 60, T0 + 120);
    BucketStartIff(T0, o, 60, T0 + 120);
    BucketStartIff(T0 + 120, o, 60, T0);
    assert S[1..][1..] == [];
    assert BucketStarts(S[1..], o, 60) == [T0 + 120];
    assert PricesIn(S[1..], o, 60, T0) == [];
    assert PricesIn(S[1..], o, 60, T0 + 120) == [102.0];
  }

  lemma BadAggregate()
    ensures Aggregate(BadSamples, T0 - 32400, 60, "AAPL", BucketStarts(BadSamples, T0 - 32400, 60))
         == [AggRecord("AAPL", T0, 100.0, 100.0), AggRecord("AAPL", T0 + 120, 102.0, 102.0)]
  {
    BadBuckets();
    SingletonStats(100.0);
    SingletonStats(102.0);
  }

  /**
   * A non-numeric price is dropped, counted once, and raises nothing: the other two samples give
   * their own one-sample aggregates, and the minute of the dropped row gives none.
   */
  lemma InvalidPriceDropped()
    ensures |BadRows| - |Survivors(BadRows)| == 1
    ensures Downsample(BadRows, 60)
         == Ok([AggRecord("AAPL", T0, 100.0, 100.0), AggRecord("AAPL", T0 + 120, 102.0, 102.0)])
  {
    BadSurvivors();
    BadOrigin();
    BadAggregate();
    DownsampleOf(BadRows, 60, BadSamples, T0 - 32400, BucketStarts(BadSamples, T0 - 32400, 60));
  }

  /** One sample per minute, the third naming another symbol. */
  const MixedRows: seq<Row> := [Row(T0, Text("100"), "AAPL"), Row(T0 + 60, Text("101"), "AAPL"),
                                Row(T0 + 120, Text("102"), "GOOG"), Row(T0 + 180, Text("103"), "AAPL")]
  const MixedSamples: seq<Sample> := [Sample(T0, 100.0, "AAPL"), Sample(T0 + 60, 101.0, "AAPL"),
                                      Sample(T0 + 120, 102.0, "GOOG"), Sample(T0 + 180, 103.0, "AAPL")]

  lemma MixedSurvivors()
    ensures Survivors(MixedRows) == MixedSamples
  {
    ParseThreeDigits("100", 100);
    ParseThreeDigits("101", 101);
    ParseThreeDigits("102", 102);
    ParseThreeDigits("103", 103);
    var rows, S := MixedRows, MixedSamples;
    assert Survivors(rows[3..]) == S[3..];
    assert Survivors(rows[2..]) == S[2..];
    assert Survivors(rows[1..]) == S[1..];
  }

  lemma MixedOrigin()
    ensures Origin(MixedSamples) == T0 - 32400
  {
    var S := MixedSamples;
    assert MinTime(S[3..]) == T0 + 180;
    assert MinTime(S[2..]) == T0 + 120;
    assert MinTime(S[1..]) == T0 + 60;
    assert MinTime(S) == T0;
  }

  lemma MixedBuckets()
    ensures BucketStarts(MixedSamples, T0 - 32400, 60) == [T0, T0 + 60, T0 + 120, T0 + 180]
  {
    var S, o := MixedSamples, T0 - 32400;
    BucketStartIff(T0, o, 60, T0);
    BucketStartIff(T0 + 60, o, 60, T0 + 60);
    BucketStartIff(T0 + 120, o, 60, T0 + 120);
    BucketStartIff(T0 + 180, o, 60, T0 + 180);
    assert BucketStarts(S[3..], o, 60) == [T0 + 180];
    assert BucketStarts(S[2..], o, 60) == [T0 + 120, T0 + 180];
    assert BucketStarts(S[1..], o, 60) == [T0 + 60, T0 + 120, T0 + 180];
  }

  /** The minute starting at `b` holds the price `p` of the sample at position `i` only. */
  lemma MixedPricesAt(i: nat, b: Timestamp, p: real)
    requires i < 4 && b == T0 + 60 * i && p == MixedSamples[i].price
    ensures PricesIn(MixedSamples, T0 - 32400, 60, b) == [p]
  {
    var S, o := MixedSamples, T0 - 32400;
    forall j | 0 <= j < 4
      ensures BucketStart(S[j].timestamp, o, 60) == b <==> j == i
    {
      BucketStartIff(S[j].timestamp, o, 60, b);
    }
    assert S[3..][1..] == [] && S[2..][1..] == S[3..] && S[1..][1..] == S[2..];
    assert PricesIn(S[3..], o, 60, b) == if i == 3 then [S[3].price] else [];
    assert PricesIn(S[2..], o, 60, b) == if i >= 2 then [S[i].price] else [];
    assert PricesIn(S[1..], o, 60, b) == if i >= 1 then [S[i].price] else [];
  }

  lemma MixedAggregate()
    ensures Aggregate(MixedSamples, T0 - 32400, 60, "AAPL", BucketStarts(MixedSamples, T0 - 32400, 60))
         == [AggRecord("AAPL", T0, 100.0, 100.0), AggRecord("AAPL", T0 + 60, 101.0, 101.0),
             AggRecord("AAPL", T0 + 120, 102.0, 102.0), AggRecord("AAPL", T0 + 180, 103.0, 103.0)]
  {
    MixedBuckets();
    MixedPricesAt(0, T0, 100.0);
    MixedPricesAt(1, T0 + 60, 101.0);
    MixedPricesAt(2, T0 + 120, 102.0);
    MixedPricesAt(3, T0 + 180, 103.0);
    SingletonStats(100.0);
    SingletonStats(101.0);
    SingletonStats(102.0);
    SingletonStats(103.0);
  }

  /**
   * A row naming another symbol is aggregated like the others, and every aggregate carries the
   * symbol of the first row.
   */
  lemma MultipleSymbolsStampedWithFirst()
    ensures Downsample(MixedRows, 60)
         == Ok([AggRecord("AAPL", T0, 100.0, 100.0), AggRecord("AAPL", T0 + 60, 101.0, 101.0),
                AggRecord("AAPL", T0 + 120, 102.0, 102.0), AggRecord("AAPL", T0 + 180, 103.0, 103.0)])
  {
    MixedSurvivors();
    MixedOrigin();
    MixedAggregate();
    DownsampleOf(MixedRows, 60, MixedSamples, T0 - 32400, BucketStarts(MixedSamples, T0 - 32400, 60));
  }
}
