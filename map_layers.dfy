/**
 * The per-log loop of `create_map_with_layers`: every log that yields a
 * layer adds that layer and a base marker at its origin's sender position to
 * the map, in log order.
 */
module MapLayers {
  import opened Wrappers
  import opened Seqs
  import opened Rows
  import opened RecordFilter
  import opened PointLayers

  /** One input log: its base file name and its rows in file order. */
  datatype Source = Source(name: string, rows: seq<Row>)

  /** What the loop adds to the map: a point layer, or the base marker of a layer's transmitter. */
  datatype MapChild = Layer(layer: PointLayer) | BaseMarker(lat: Value, long: Value)

  /** What `create_point_layer` gives back for one log. */
  type Outcome = Result<Option<PointLayer>, Failure>

  /** The base marker at `start["sender lat"], start["sender long"]`. */
  function BaseOf(layer: PointLayer): MapChild
  {
    BaseMarker(layer.origin.senderLat, layer.origin.senderLong)
  }

  /** `create_point_layer(csv_file)` for one log. */
  function LayerOfSource(src: Source): (o: Outcome)
    ensures o == Ok(None) <==> FilterRows(src.rows) == []
    ensures Drawn(o) ==> o.value.value.name == src.name && o.value.value.origin == FilterRows(src.rows)[0]
  {
    PointLayerOf(src.name, src.rows)
  }

  predicate Raised(o: Outcome)
  {
    o.Err?
  }

  predicate Drawn(o: Outcome)
  {
    o.Ok? && o.value.Some?
  }

  /**
   * The children the loop adds to the map, given what each log yields in
   * turn: a log that yields nothing is skipped, the first exception stops the run.
   */
  function Collect(outcomes: seq<Outcome>): (r: Result<seq<MapChild>, Failure>)
    ensures r.Ok? ==> |r.value| % 2 == 0 && |r.value| <= 2 * |outcomes|
  {
    if outcomes == [] then Ok([])
    else
      match Collect(outcomes[..|outcomes| - 1])
      case Err(e) => Err(e)
      case Ok(children) =>
        match outcomes[|outcomes| - 1]
        case Err(e) => Err(e)
        case Ok(None) => Ok(children)
        case Ok(Some(layer)) => Ok(children + [Layer(layer), BaseOf(layer)])
  }

  /**
   * The loop as written: `layer, start = create_point_layer(csv_file)` unpacks
   * the `None` of an empty log before `if layer` can skip it.
   */
  function CollectAsWritten(outcomes: seq<Outcome>): (r: Result<seq<MapChild>, Failure>)
    ensures r.Ok? ==> |r.value| == 2 * |outcomes|
  {
    if outcomes == [] then Ok([])
    else
      match CollectAsWritten(outcomes[..|outcomes| - 1])
      case Err(e) => Err(e)
      case Ok(children) =>
        match outcomes[|outcomes| - 1]
        case Err(e) => Err(e)
        case Ok(None) => Err(UnpackNone)
        case Ok(Some(layer)) => Ok(children + [Layer(layer), BaseOf(layer)])
  }

  /** The whole per-log loop over the logs in discovery order. */
  function Assemble(sources: seq<Source>): (r: Result<seq<MapChild>, Failure>)
    ensures r.Ok? ==> |r.value| <= 2 * |sources|
  {
    Collect(Map(LayerOfSource, sources))
  }

  /** The loop as written over the logs themselves. */
  function AssembleAsWritten(sources: seq<Source>): (r: Result<seq<MapChild>, Failure>)
    ensures r.Ok? ==> |r.value| == 2 * |sources|
  {
    CollectAsWritten(Map(LayerOfSource, sources))
  }

  /** The loop that mutates the map one log at a time. */
  method CreateMapWithLayers(sources: seq<Source>) returns (r: Result<seq<MapChild>, Failure>)
    ensures r == Assemble(sources)
  {
    var children: seq<MapChild> := [];
    ghost var outcomes: seq<Outcome> := [];
    var i := 0;
    while i < |sources|
      invariant 0 <= i <= |sources|
      invariant outcomes == Map(LayerOfSource, sources[..i])
      invariant Collect(outcomes) == Ok(children)
    {
      var src := sources[i];
      var layer := CreatePointLayer(src.name, src.rows);
      LogStep(sources, i);
      CollectSnoc(outcomes, layer);
      outcomes := outcomes + [layer];
      match layer {
        case Err(e) =>
          RaisedPrefixRaisesRun(sources, i + 1);
          return Err(e);
        case Ok(None) =>
        case Ok(Some(l)) =>
          children := children + [Layer(l), BaseOf(l)];
      }
      i := i + 1;
    }
    assert sources[..i] == sources;
    return Ok(children);
  }

  lemma LogStep(sources: seq<Source>, i: nat)
    requires i < |sources|
    ensures Map(LayerOfSource, sources[..i + 1]) == Map(LayerOfSource, sources[..i]) + [LayerOfSource(sources[i])]
  {
    assert sources[..i + 1] == sources[..i] + [sources[i]];
    MapSnoc(LayerOfSource, sources[..i], sources[i]);
  }

  lemma CollectSnoc(outcomes: seq<Outcome>, o: Outcome)
    ensures Collect(outcomes + [o]) ==
      match Collect(outcomes)
      case Err(e) => Err(e)
      case Ok(children) =>
        match o
        case Err(e) => Err(e)
        case Ok(None) => Ok(children)
        case Ok(Some(layer)) => Ok(children + [Layer(layer), BaseOf(layer)])
  {
    assert (outcomes + [o])[..|outcomes|] == outcomes;
  }

  lemma RaisedPrefixRaisesRun(sources: seq<Source>, n: nat)
    requires n <= |sources| && Collect(Map(LayerOfSource, sources[..n])).Err?
    ensures Assemble(sources) == Collect(Map(LayerOfSource, sources[..n]))
  {
    assert Map(LayerOfSource, sources)[..n] == Map(LayerOfSource, sources[..n]);
    FailureIsFinal(Map(LayerOfSource, sources), n);
  }

  /** Once the logs up to `n` raise, the whole run raises the same exception. */
  lemma {:induction false} FailureIsFinal(outcomes: seq<Outcome>, n: nat)
    requires n <= |outcomes| && Collect(outcomes[..n]).Err?
    ensures Collect(outcomes) == Collect(outcomes[..n])
    decreases |outcomes| - n
  {
    if n < |outcomes| {
      assert outcomes[..n + 1][..n] == outcomes[..n];
      FailureIsFinal(outcomes, n + 1);
    } else {
      assert outcomes[..n] == outcomes;
    }
  }

  /** The run raises exactly when some log raises. */
  lemma {:induction false} CollectFailsIff(outcomes: seq<Outcome>)
    ensures Collect(outcomes).Err? <==> exists k :: 0 <= k < |outcomes| && Raised(outcomes[k])
  {
    if outcomes != [] {
      var n := |outcomes| - 1;
      var init := outcomes[..n];
      CollectFailsIff(init);
      assert forall k :: 0 <= k < n ==> init[k] == outcomes[k];
    }
  }

  /** A run that raises raises the exception of the first log that raises. */
  lemma {:induction false} FirstFailureWins(outcomes: seq<Outcome>)
    requires Collect(outcomes).Err?
    ensures exists k :: (0 <= k < |outcomes| && outcomes[k] == Err(Collect(outcomes).error)
      && forall i :: 0 <= i < k ==> !Raised(outcomes[i]))
  {
    var n := |outcomes| - 1;
    var init := outcomes[..n];
    assert forall k :: 0 <= k < n ==> init[k] == outcomes[k];
    if Collect(init).Err? {
      FirstFailureWins(init);
      var k :| 0 <= k < n && init[k] == Err(Collect(init).error)
        && forall i :: 0 <= i < k ==> !Raised(init[i]);
      assert outcomes[k] == Err(Collect(outcomes).error);
    } else {
      CollectFailsIff(init);
      assert outcomes[n] == Err(Collect(outcomes).error);
    }
  }

  /**
   * A successful run adds, for each drawn log in log order, its layer and
   * then the base marker at that layer's origin: two children per drawn log,
   * nothing for a log that yields `None`.
   */
  lemma {:induction false} CollectLayout(outcomes: seq<Outcome>, children: seq<MapChild>)
    requires Collect(outcomes) == Ok(children)
    ensures |children| == 2 * |Positions(Drawn, outcomes)|
    ensures forall j :: 0 <= j < |Positions(Drawn, outcomes)| ==>
      && children[2 * j] == Layer(outcomes[Positions(Drawn, outcomes)[j]].value.value)
      && children[2 * j + 1] == BaseOf(outcomes[Positions(Drawn, outcomes)[j]].value.value)
  {
    if outcomes != [] {
      var n := |outcomes| - 1;
      var init := outcomes[..n];
      var prev := Collect(init).value;
      CollectLayout(init, prev);
      var ps := Positions(Drawn, init);
      assert forall j :: 0 <= j < |ps| ==> ps[j] < n && init[ps[j]] == outcomes[ps[j]];
      match outcomes[n]
      case Ok(None) =>
      case Ok(Some(layer)) =>
        assert Positions(Drawn, outcomes) == ps + [n];
        assert children == prev + [Layer(layer), BaseOf(layer)];
    }
  }

  /** As written, the loop succeeds only if every log is drawn. */
  lemma {:induction false} AsWrittenNeedsEveryLogDrawn(outcomes: seq<Outcome>)
    ensures CollectAsWritten(outcomes).Ok? <==> forall k :: 0 <= k < |outcomes| ==> Drawn(outcomes[k])
  {
    if outcomes != [] {
      var n := |outcomes| - 1;
      var init := outcomes[..n];
      AsWrittenNeedsEveryLogDrawn(init);
      assert forall k :: 0 <= k < n ==> init[k] == outcomes[k];
    }
  }

  /** Where the loop as written succeeds, it adds what the intended loop adds. */
  lemma {:induction false} AsWrittenAgreesWhenItSucceeds(outcomes: seq<Outcome>)
    requires CollectAsWritten(outcomes).Ok?
    ensures CollectAsWritten(outcomes) == Collect(outcomes)
  {
    if outcomes != [] {
      AsWrittenAgreesWhenItSucceeds(outcomes[..|outcomes| - 1]);
    }
  }

  /** A log that does not raise is drawn exactly when one of its rows passes the filter. */
  lemma DrawnIffSomeRowKept(src: Source)
    requires !Raised(LayerOfSource(src))
    ensures Drawn(LayerOfSource(src)) <==> exists k :: 0 <= k < |src.rows| && Kept(src.rows[k])
  {
    NoneIffNothingKept(src.name, src.rows);
  }

  /** When no row of any log passes the filter, the run adds nothing to the base map. */
  lemma NothingKeptDrawsNothing(sources: seq<Source>)
    requires forall s, k :: 0 <= s < |sources| && 0 <= k < |sources[s].rows| ==> !Kept(sources[s].rows[k])
    ensures Assemble(sources) == Ok([])
  {
    var outcomes := Map(LayerOfSource, sources);
    forall s | 0 <= s < |sources| ensures outcomes[s] == Ok(None) {
      NoneIffNothingKept(sources[s].name, sources[s].rows);
    }
    AllSkippedCollectsNothing(outcomes);
  }

  lemma {:induction false} AllSkippedCollectsNothing(outcomes: seq<Outcome>)
    requires forall k :: 0 <= k < |outcomes| ==> outcomes[k] == Ok(None)
    ensures Collect(outcomes) == Ok([])
  {
    if outcomes != [] {
      AllSkippedCollectsNothing(outcomes[..|outcomes| - 1]);
    }
  }

  /**
   * A log whose one row has no sequence number in its payload: skipped by the
   * intended loop, an exception in the loop as written. Its receiver
   * position is numeric, so the map centre computed from it before the loop
   * is a valid location.
   */
  lemma UnmatchedLogCounterexample()
    ensures AssembleAsWritten([Source("a.csv", [Row(Str("hello"), Num(52.0), Num(13.0), Num(5.0), Str("n"), Num(40.0), Num(52.0), Num(13.0))])]) == Err(UnpackNone)
    ensures Assemble([Source("a.csv", [Row(Str("hello"), Num(52.0), Num(13.0), Num(5.0), Str("n"), Num(40.0), Num(52.0), Num(13.0))])]) == Ok([])
  {
    var row := Row(Str("hello"), Num(52.0), Num(13.0), Num(5.0), Str("n"), Num(40.0), Num(52.0), Num(13.0));
    var src := Source("a.csv", [row]);
    var outcomes := Map(LayerOfSource, [src]);
    assert !PayloadTest(row);
    assert PayloadStage([row]) == [];
    assert Map(Project, []) == [];
    assert FilterRows([row]) == [];
    assert LayerOfSource(src) == Ok(None);
    assert outcomes == [Ok(None)];
    assert outcomes[..0] == [];
    assert Collect(outcomes) == Ok([]);
    assert CollectAsWritten(outcomes) == Err(UnpackNone);
  }
}
