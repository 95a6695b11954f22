/**
 * `create_point_layer`: filter one log, give up with `None` when nothing
 * survives, colour every surviving point, and name the first one the origin.
 */
module PointLayers {
  import opened Wrappers
  import opened Seqs
  import opened Rows
  import opened RecordFilter
  import opened SnrColour

  /** One circle marker: the surviving point and its colour (drawn at its rx lat/long). */
  datatype ColouredPoint = ColouredPoint(point: Point, colour: Colour)

  /** The feature group of one log and the row `df_filtered.iloc[0]` returned beside it. */
  datatype PointLayer = PointLayer(name: string, points: seq<ColouredPoint>, origin: Point)

  function ColourPoint(p: Point): ColouredPoint
    requires p.rxSnr.Num?
  {
    ColouredPoint(p, ColourFor(p.rxSnr.n))
  }

  /** `x - (-21)` succeeds for every SNR cell: none is text. */
  predicate SnrNumeric(points: seq<Point>)
  {
    forall i :: 0 <= i < |points| ==> !points[i].rxSnr.Str?
  }

  /**
   * What `create_point_layer(csv_file)` returns for a log with base name
   * `name`: `None` when no row survives the filter, the `TypeError` of the
   * normalisation when a surviving SNR is text, and otherwise the layer of
   * coloured points with the first surviving row as origin.
   */
  function PointLayerOf(name: string, rows: seq<Row>): (r: Result<Option<PointLayer>, Failure>)
    ensures r == Ok(None) <==> FilterRows(rows) == []
    ensures r.Ok? && r.value.Some? ==>
      && r.value.value.name == name
      && |r.value.value.points| == |FilterRows(rows)| > 0
      && r.value.value.origin == FilterRows(rows)[0]
  {
    var kept := FilterRows(rows);
    if kept == [] then Ok(None)
    else if !SnrNumeric(kept) then Err(TypeError("rx snr"))
    else
      assert forall i :: 0 <= i < |kept| ==> Complete(kept[i]);
      Ok(Some(PointLayer(name, seq(|kept|, i requires 0 <= i < |kept| => ColourPoint(kept[i])), kept[0])))
  }

  /**
   * The marker loop: one coloured point per surviving row, in row order,
   * grey above 15 dB and the colour map at the normalised SNR otherwise.
   */
  method ColourPoints(points: seq<Point>) returns (coloured: seq<ColouredPoint>)
    requires forall i :: 0 <= i < |points| ==> points[i].rxSnr.Num?
    ensures |coloured| == |points|
    ensures forall i :: 0 <= i < |points| ==> coloured[i] == ColourPoint(points[i])
  {
    coloured := [];
    for i := 0 to |points|
      invariant |coloured| == i
      invariant forall j :: 0 <= j < i ==> coloured[j] == ColourPoint(points[j])
    {
      var row := points[i];
      var normalized := Normalize(row.rxSnr.n);
      var colour := if row.rxSnr.n > GREY_ABOVE then Hex(GREY_HEX) else Gradient(normalized);
      coloured := coloured + [ColouredPoint(row, colour)];
    }
  }

  method CreatePointLayer(name: string, rows: seq<Row>) returns (r: Result<Option<PointLayer>, Failure>)
    ensures r == PointLayerOf(name, rows)
  {
    var kept := FilterRows(rows);
    if kept == [] {
      return Ok(None);
    }
    if !SnrNumeric(kept) {
      return Err(TypeError("rx snr"));
    }
    assert forall i :: 0 <= i < |kept| ==> Complete(kept[i]);
    var coloured := ColourPoints(kept);
    assert coloured == seq(|kept|, i requires 0 <= i < |kept| => ColourPoint(kept[i]));
    r := Ok(Some(PointLayer(name, coloured, kept[0])));
  }

  /** `None` exactly when no row of the log meets the reference condition: nothing to draw, no origin. */
  lemma NoneIffNothingKept(name: string, rows: seq<Row>)
    ensures PointLayerOf(name, rows) == Ok(None) <==> forall k :: 0 <= k < |rows| ==> !Kept(rows[k])
  {
    NothingKept(rows);
  }

  /** The layer fails exactly when some kept row has a text SNR. */
  lemma FailsIffKeptTextSnr(name: string, rows: seq<Row>)
    ensures PointLayerOf(name, rows).Err? <==> exists k :: 0 <= k < |rows| && Kept(rows[k]) && rows[k].rxSnr.Str?
  {
    var kept := FilterRows(rows);
    assert PointLayerOf(name, rows).Err? <==> kept != [] && !SnrNumeric(kept);
    KeptRowsInOrder(rows);
    var ks := Positions(Kept, rows);
    if !SnrNumeric(kept) {
      var j :| 0 <= j < |kept| && kept[j].rxSnr.Str?;
      assert kept[j] == Project(rows[ks[j]]);
      assert Kept(rows[ks[j]]) && rows[ks[j]].rxSnr.Str?;
    }
    if exists k :: 0 <= k < |rows| && Kept(rows[k]) && rows[k].rxSnr.Str? {
      var k :| 0 <= k < |rows| && Kept(rows[k]) && rows[k].rxSnr.Str?;
      var j :| 0 <= j < |ks| && ks[j] == k;
      assert kept[j] == Project(rows[k]);
      assert !SnrNumeric(kept);
    }
  }

  lemma LayerShape(name: string, rows: seq<Row>, layer: PointLayer)
    requires PointLayerOf(name, rows) == Ok(Some(layer))
    ensures FilterRows(rows) != [] && SnrNumeric(FilterRows(rows))
    ensures layer.name == name && layer.origin == FilterRows(rows)[0]
    ensures |layer.points| == |FilterRows(rows)|
    ensures forall j :: 0 <= j < |layer.points| ==>
      FilterRows(rows)[j].rxSnr.Num? && layer.points[j] == ColourPoint(FilterRows(rows)[j])
  {
  }

  /** A layer has the log's name and one point per kept row, in row order, coloured by that row's SNR. */
  lemma LayerOfKeptRows(name: string, rows: seq<Row>, layer: PointLayer)
    requires PointLayerOf(name, rows) == Ok(Some(layer))
    ensures layer.name == name
    ensures |layer.points| == |Positions(Kept, rows)|
    ensures forall j :: 0 <= j < |layer.points| ==>
      && layer.points[j].point == Project(rows[Positions(Kept, rows)[j]])
      && rows[Positions(Kept, rows)[j]].rxSnr.Num?
      && layer.points[j].colour == ColourFor(rows[Positions(Kept, rows)[j]].rxSnr.n)
  {
    LayerShape(name, rows, layer);
    KeptRowsInOrder(rows);
  }

  /** The origin of a layer is the first row of the log that passes the filter. */
  lemma OriginIsFirstKeptRow(name: string, rows: seq<Row>, layer: PointLayer)
    requires PointLayerOf(name, rows) == Ok(Some(layer))
    ensures exists k :: (0 <= k < |rows| && Kept(rows[k]) && (forall i :: 0 <= i < k ==> !Kept(rows[i]))
      && layer.origin == Project(rows[k]))
  {
    LayerShape(name, rows, layer);
    KeptRowsInOrder(rows);
    var ks := Positions(Kept, rows);
    var k := ks[0];
    forall i | 0 <= i < k ensures !Kept(rows[i]) {
      if Kept(rows[i]) {
        assert false;
      }
    }
    assert layer.origin == Project(rows[k]);
  }
}
