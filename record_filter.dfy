/**
 * The row filter of `create_point_layer`: the payload test, the projection
 * onto the seven map columns with `dropna`, and the type and range test.
 */
module RecordFilter {
  import opened Wrappers
  import opened Seqs
  import opened Rows
  import Payload

  const LAT_MIN: real := -90.0
  const LAT_MAX: real := 90.0
  const LONG_MIN: real := -180.0
  const LONG_MAX: real := 180.0

  /** `str.contains(r"seq \d+", na=False)`: text that matches; an empty or non-text cell never does. */
  predicate PayloadTest(r: Row)
  {
    r.payload.Str? && Payload.ContainsSeqNumber(r.payload.s)
  }

  /** `dropna` over the seven columns: none of them is empty. */
  predicate Complete(p: Point)
  {
    && !p.rxLat.Missing? && !p.rxLong.Missing? && !p.rxSnr.Missing?
    && !p.senderName.Missing? && !p.rxElevation.Missing?
    && !p.senderLat.Missing? && !p.senderLong.Missing?
  }

  /** `Series.between(lo, hi)` on a numeric cell: both bounds inclusive. */
  predicate Between(v: Value, lo: real, hi: real)
  {
    v.Num? && lo <= v.n <= hi
  }

  /** Receiver position numeric and on the globe. */
  predicate TypeRangeOk(p: Point)
  {
    && p.rxLat.Num? && p.rxLong.Num?
    && Between(p.rxLat, LAT_MIN, LAT_MAX)
    && Between(p.rxLong, LONG_MIN, LONG_MAX)
  }

  /** Stage 1: rows whose payload carries a sequence number. */
  function PayloadStage(rows: seq<Row>): (r: seq<Row>)
    ensures |r| <= |rows|
    ensures forall j :: 0 <= j < |r| ==> PayloadTest(r[j]) && r[j] in rows
  {
    Filter(PayloadTest, rows)
  }

  /** Stage 2: the seven columns of each row, rows with an empty one dropped. */
  function CompletenessStage(rows: seq<Row>): (r: seq<Point>)
    ensures |r| <= |rows|
    ensures forall j :: 0 <= j < |r| ==> Complete(r[j])
  {
    Filter(Complete, Map(Project, rows))
  }

  /** Stage 3: points whose receiver latitude and longitude are numbers in range. */
  function TypeRangeStage(points: seq<Point>): (r: seq<Point>)
    ensures |r| <= |points|
    ensures forall j :: 0 <= j < |r| ==> TypeRangeOk(r[j]) && r[j] in points
  {
    Filter(TypeRangeOk, points)
  }

  /** The three stages in the order the source applies them. */
  function FilterRows(rows: seq<Row>): (r: seq<Point>)
    ensures |r| <= |rows|
    ensures forall j :: 0 <= j < |r| ==> Complete(r[j]) && TypeRangeOk(r[j])
  {
    TypeRangeStage(CompletenessStage(PayloadStage(rows)))
  }

  /**
   * The reference condition for one row: a `seq \d+` match in a text payload,
   * all seven columns present, receiver latitude and longitude numeric,
   * latitude in [-90, 90] and longitude in [-180, 180].
   */
  ghost predicate Kept(r: Row)
  {
    && r.payload.Str? && Payload.Matches(r.payload.s)
    && !r.rxLat.Missing? && !r.rxLong.Missing? && !r.rxSnr.Missing?
    && !r.senderName.Missing? && !r.rxElevation.Missing?
    && !r.senderLat.Missing? && !r.senderLong.Missing?
    && r.rxLat.Num? && r.rxLong.Num?
    && -90.0 <= r.rxLat.n <= 90.0
    && -180.0 <= r.rxLong.n <= 180.0
  }

  predicate CompleteRow(r: Row)
  {
    Complete(Project(r))
  }

  predicate TypeRangeOkRow(r: Row)
  {
    TypeRangeOk(Project(r))
  }

  predicate PayloadAndComplete(r: Row)
  {
    PayloadTest(r) && CompleteRow(r)
  }

  lemma KeptIsThreeTests(r: Row)
    ensures Kept(r) == (PayloadAndComplete(r) && TypeRangeOkRow(r))
  {
    if r.payload.Str? {
      Payload.ContainsSeqNumberIsSearch(r.payload.s);
    }
  }

  /** The three stages together select exactly the kept rows, projected and otherwise unchanged. */
  lemma StagesSelectKeptRows(rows: seq<Row>)
    ensures FilterRows(rows) == Map(Project, Filter(Kept, rows))
  {
    var s1 := Filter(PayloadTest, rows);
    FilterOfMap(Project, Complete, CompleteRow, s1);
    FilterThenFilter(PayloadTest, CompleteRow, PayloadAndComplete, rows);
    var s2 := Filter(PayloadAndComplete, rows);
    FilterOfMap(Project, TypeRangeOk, TypeRangeOkRow, s2);
    forall r ensures Kept(r) == (PayloadAndComplete(r) && TypeRangeOkRow(r)) {
      KeptIsThreeTests(r);
    }
    FilterThenFilter(PayloadAndComplete, TypeRangeOkRow, Kept, rows);
  }

  /**
   * The output is the kept rows in input order: position `j` of the output is
   * the projection of the `j`-th kept row, and the kept positions are exactly
   * the rows meeting the reference condition.
   */
  lemma KeptRowsInOrder(rows: seq<Row>)
    ensures |FilterRows(rows)| == |Positions(Kept, rows)|
    ensures forall j :: 0 <= j < |FilterRows(rows)| ==>
      Positions(Kept, rows)[j] < |rows| && FilterRows(rows)[j] == Project(rows[Positions(Kept, rows)[j]])
    ensures forall i, j :: 0 <= i < j < |Positions(Kept, rows)| ==> Positions(Kept, rows)[i] < Positions(Kept, rows)[j]
    ensures forall k :: 0 <= k < |rows| ==> (Kept(rows[k]) <==> k in Positions(Kept, rows))
  {
    StagesSelectKeptRows(rows);
    FilterAtPositions(Kept, rows);
    PositionsIncreasing(Kept, rows);
    PositionsComplete(Kept, rows);
  }

  /** The output is non-empty exactly when some row is kept, and then it starts with the first kept row. */
  lemma FirstSurvivor(rows: seq<Row>, k: int)
    requires 0 <= k < |rows| && Kept(rows[k])
    requires forall i :: 0 <= i < k ==> !Kept(rows[i])
    ensures FilterRows(rows) != [] && FilterRows(rows)[0] == Project(rows[k])
  {
    KeptRowsInOrder(rows);
    var ks := Positions(Kept, rows);
    assert k in ks;
    assert Kept(rows[ks[0]]);
  }

  lemma NothingKept(rows: seq<Row>)
    ensures FilterRows(rows) == [] <==> forall k :: 0 <= k < |rows| ==> !Kept(rows[k])
  {
    KeptRowsInOrder(rows);
    var ks := Positions(Kept, rows);
    if FilterRows(rows) == [] {
      assert |ks| == 0;
    } else {
      assert Kept(rows[ks[0]]);
    }
  }

  /** Running the completeness, type and range tests again over the output removes nothing. */
  lemma {:induction false} RefilterRemovesNothing(rows: seq<Row>)
    ensures Filter(Complete, FilterRows(rows)) == FilterRows(rows)
    ensures TypeRangeStage(Filter(Complete, FilterRows(rows))) == FilterRows(rows)
  {
    var out := FilterRows(rows);
    var mid := Map(Project, Filter(PayloadTest, rows));
    assert forall i :: 0 <= i < |out| ==> out[i] in Filter(Complete, mid);
    FilterAll(Complete, out);
    FilterAll(TypeRangeOk, out);
  }

  /** `isinstance(x, (int, float))`: a number, or an empty cell, which pandas holds as the float NaN. */
  predicate IsInstanceNumber(v: Value)
  {
    v.Num? || v.Missing?
  }

  predicate WrittenMask(p: Point)
  {
    && IsInstanceNumber(p.rxLat) && IsInstanceNumber(p.rxLong)
    && Between(p.rxLat, LAT_MIN, LAT_MAX) && Between(p.rxLong, LONG_MIN, LONG_MAX)
  }

  /**
   * Stage 3 as written: the four masks are built over the whole column before
   * they are combined, and `between` on a text cell raises instead of
   * yielding `False`, so the `isinstance` guard never gets to drop the row.
   */
  function TypeRangeStageAsWritten(points: seq<Point>): (r: Result<seq<Point>, Failure>)
    ensures r.Ok? ==> forall j :: 0 <= j < |r.value| ==> TypeRangeOk(r.value[j])
  {
    if exists i :: 0 <= i < |points| && points[i].rxLat.Str? then Err(TypeError("rx lat"))
    else if exists i :: 0 <= i < |points| && points[i].rxLong.Str? then Err(TypeError("rx long"))
    else Ok(Filter(WrittenMask, points))
  }

  /** As written, stage 3 raises exactly when a latitude or longitude is text, and otherwise agrees with the intended filter. */
  lemma AsWrittenRaisesOnText(points: seq<Point>)
    ensures TypeRangeStageAsWritten(points).Err? <==>
      exists i :: 0 <= i < |points| && (points[i].rxLat.Str? || points[i].rxLong.Str?)
    ensures TypeRangeStageAsWritten(points).Ok? ==> TypeRangeStageAsWritten(points).value == TypeRangeStage(points)
  {
    if TypeRangeStageAsWritten(points).Ok? {
      FilterAgrees(WrittenMask, TypeRangeOk, points);
    }
  }

  /** A complete row with the text `"52.1"` as latitude: the intended filter drops it, the code raises. */
  lemma TextLatitudeCounterexample()
    ensures var p := Point(Str("52.1"), Num(13.0), Num(5.0), Str("node"), Num(40.0), Num(52.0), Num(13.0));
      && Complete(p)
      && TypeRangeStage([p]) == []
      && TypeRangeStageAsWritten([p]) == Err(TypeError("rx lat"))
  {
    var p := Point(Str("52.1"), Num(13.0), Num(5.0), Str("node"), Num(40.0), Num(52.0), Num(13.0));
    assert [p][0].rxLat.Str?;
  }
}
