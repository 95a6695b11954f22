# Range-test map pipeline

A Dafny model of the core of `rtmap.py`, a tool that turns radio range-test
logs into a multi-layer map. The core is the per-log
pipeline of `create_point_layer` and the per-log loop of
`create_map_with_layers`:

- **Row filter** (`RecordFilter`, `Payload`, `Seqs`): keep the rows whose
  payload contains `seq \d+`, project them onto the seven map columns
  (`rx lat`, `rx long`, `rx snr`, `sender name`, `rx elevation`,
  `sender lat`, `sender long`), drop rows with an empty cell, and keep the
  rows whose receiver latitude and longitude are numbers in [-90, 90] and
  [-180, 180]. Each cell is a `Value`: `Num(real)`, `Str(string)` or
  `Missing` (NaN/None), standing in for what the CSV reader infers.
- **Colour rule** (`SnrColour`): a reading above 15 dB is the grey
  `#808080`; any other reading is the red-yellow-green colour map at
  `(snr + 21) / 33`. The colour map is kept abstract: `Gradient(t)` is "the
  colour map's colour at `t`".
- **Point layer** (`PointLayers`): `None` when no row survives, otherwise
  one coloured point per surviving row and the first surviving row as the
  origin. `ColourPoints` is the marker loop, proved against `ColourPoint`
  (the colour rule applied to one point); `CreatePointLayer` is the whole
  function, proved against the specification function `PointLayerOf`.
- **Layer assembly** (`MapLayers`): for each log in order, a drawn log adds
  its layer and then a base marker at its origin's sender position.
  `CreateMapWithLayers` is the loop, proved against `Assemble`.

Exceptions the Python code raises are modelled as `Err` results
(`Rows.Failure`): a `TypeError` from a text cell in `rx snr`
(the normalisation at rtmap.py:46-48 subtracts from it) and, in the
as-written members below, the two `TypeError`s listed under Findings.

`create_point_layer` reports a log with no valid rows as "Skipping point
layer creation" and returns `None` (rtmap.py:36-37), and the loop tests
`if layer:` before drawing (rtmap.py:142): both say such a log is meant to be
skipped. The code does not skip it: rtmap.py:141 unpacks `None` and raises.
`MapLayers.CollectAsWritten` models the loop as written and the discrepancy
is a finding; the rest of the model uses the skipping loop `MapLayers.Collect`.

Likewise the type test at rtmap.py:28-29 is meant to drop a row whose
receiver position is text, but as written `between` raises on such a row
first (the other finding). `RecordFilter.FilterRows` uses the dropping stage
`RecordFilter.TypeRangeStage`, and so do `PointLayers.PointLayerOf`,
`PointLayers.CreatePointLayer`, `MapLayers.Assemble` and
`MapLayers.CreateMapWithLayers`, which are built on it. On a text `rx lat` or
`rx long` they drop the row where `create_point_layer` as written raises
`TypeError`, so every statement below about when these members raise
describes the corrected filter.

## Model

| member | source | states |
|---|---|---|
| `Seqs.Filter` | rtmap.py:27-32 | Boolean-mask selection keeps exactly the rows for which the mask holds and never adds any |
| `Seqs.FilterAtPositions` | rtmap.py:27-32 | A mask selection is the rows at the positions where the mask holds, in that order |
| `Seqs.PositionsComplete` | rtmap.py:27-32 | A row's position is listed exactly when the mask holds for it |
| `Seqs.FilterThenFilter` | rtmap.py:15-32 | Applying two masks in turn selects what their conjunction selects |
| `Seqs.FilterOfMap` | rtmap.py:16-26 | Selecting columns and then masking is masking by the projected test and then selecting columns |
| `Payload.ContainsSeqNumber` | rtmap.py:15 | The scanner standing for `str.contains(r"seq \d+")` on a text payload; what it accepts is stated by `Payload.ContainsSeqNumberIsSearch` |
| `Rows.Project` | rtmap.py:16-26 | The selection of the seven map columns, each cell kept as it is; its interaction with the masks is stated by `Seqs.FilterOfMap` and `RecordFilter.KeptRowsInOrder` |
| `RecordFilter.PayloadStage` | rtmap.py:15 | The mask `RecordFilter.PayloadTest` (`str.contains(..., na=False)`): keeps only rows of the input, at most as many, each with a text payload matching `seq \d+` |
| `RecordFilter.CompletenessStage` | rtmap.py:16-26 | The seven-column projection after `dropna`: at most one point per row, none with an empty cell |
| `RecordFilter.TypeRangeStage` | rtmap.py:27-32 | The intended type and range mask `RecordFilter.TypeRangeOk`, with `RecordFilter.Between` as inclusive `between`: keeps only points of the input, each with a numeric receiver latitude in [-90, 90] and longitude in [-180, 180] |
| `RecordFilter.FilterRows` | rtmap.py:15-32 | The three stages in source order: at most one point per row, each complete and in range; exactly which rows survive is stated by `RecordFilter.StagesSelectKeptRows` |
| `RecordFilter.TypeRangeStageAsWritten` | rtmap.py:27-32 | The type and range stage as written, whose mask `RecordFilter.WrittenMask` combines the `isinstance` tests (`RecordFilter.IsInstanceNumber`, which also accepts NaN) with `between`; when it does not raise, every point it keeps is numeric and in range; when it raises is stated by `RecordFilter.AsWrittenRaisesOnText` |
| `Payload.ContainsSeqNumberIsSearch` | rtmap.py:15 | The scanner accepts a payload exactly when a regular-expression search for `seq \d+` succeeds anywhere in it |
| `Payload.PayloadExamples` | rtmap.py:15 | `SEQ 1`, `seq x` and `seq` do not match (case-sensitive, a digit is required); `abc seq 42 def` matches |
| `RecordFilter.StagesSelectKeptRows` | rtmap.py:15-32 | The three stages together give the projections of exactly the rows with a text payload matching `seq \d+`, all seven columns present, numeric receiver position, latitude in [-90, 90] and longitude in [-180, 180], both bounds inclusive |
| `RecordFilter.KeptRowsInOrder` | rtmap.py:15-32 | The output is a subsequence of the input: output `j` is the unmodified projection of the `j`-th kept row, kept positions strictly increase, and a row's position is kept iff the row meets the condition |
| `RecordFilter.NothingKept` | rtmap.py:35-37 | The filter result is empty exactly when no row meets the condition |
| `RecordFilter.FirstSurvivor` | rtmap.py:69 | If row `k` is the first row meeting the condition, the filter result is non-empty and starts with its projection |
| `RecordFilter.RefilterRemovesNothing` | rtmap.py:16-32 | Running the completeness, type and range tests again over the output removes nothing |
| `RecordFilter.AsWrittenRaisesOnText` | rtmap.py:27-32 | As written, the type and range stage raises exactly when a surviving latitude or longitude is text, and otherwise agrees with the intended stage |
| `RecordFilter.TextLatitudeCounterexample` | rtmap.py:27-32 | A complete row with latitude text `"52.1"`: the intended stage drops it, the code as written raises `TypeError` |
| `SnrColour.Normalize` | rtmap.py:46-48 | The normalisation `(x + 21) / 33`; readings in [-21, 12] land in [0, 1]; its landmarks and monotonicity are stated by the lemmas below |
| `SnrColour.ColourFor` | rtmap.py:53-56 | The colour is grey exactly when the SNR is above 15, and a colour-map colour is always taken at the normalised SNR |
| `SnrColour.GreyIffAboveThreshold` | rtmap.py:53-56 | The colour is `#808080` exactly when the SNR is strictly above 15; otherwise it is the colour map at the normalised SNR |
| `SnrColour.ThresholdBoundary` | rtmap.py:53-56 | 15 dB uses the colour map, 16 dB is grey |
| `SnrColour.NormalizeLandmarks` | rtmap.py:46-48 | Normalisation sends -21 to 0 (red end), 12 to 1 (green end) and -4.5 to 0.5 (yellow midpoint) |
| `SnrColour.NormalizeStrictlyIncreasing` | rtmap.py:46-48 | Normalisation is strictly increasing in the SNR |
| `SnrColour.GradientPositionRange` | rtmap.py:46-56 | Readings in [-21, 12] fall in [0, 1]; readings in (12, 15] and below -21 reach the colour map outside [0, 1], unclamped |
| `PointLayers.PointLayerOf` | rtmap.py:10-71 | What `create_point_layer` returns: `None` exactly when the filter keeps nothing; a layer carries the log's name, one point per kept row and the first kept row as origin; the remaining promises are in the lemmas below |
| `PointLayers.ColourPoints` | rtmap.py:51-67 | The marker loop yields one coloured point per surviving row, in order, each coloured by the colour rule |
| `PointLayers.CreatePointLayer` | rtmap.py:10-71 | The method computes exactly `PointLayerOf`: filter, `None` if empty, `TypeError` on a text SNR, else the coloured layer and the first surviving row as origin |
| `PointLayers.NoneIffNothingKept` | rtmap.py:35-37 | The function returns `None` exactly when no row of the log meets the filter condition |
| `PointLayers.FailsIffKeptTextSnr` | rtmap.py:46-48 | The function raises exactly when some kept row has a text SNR |
| `PointLayers.LayerOfKeptRows` | rtmap.py:40-67 | A layer carries the log's name and one point per kept row, in row order, each the unmodified row with the colour its SNR gives |
| `PointLayers.OriginIsFirstKeptRow` | rtmap.py:69-71 | The origin returned with a layer is the first row of the log that meets the filter condition |
| `MapLayers.Collect` | rtmap.py:140-155 | The loop with a log that yields `None` skipped, given what each log yields: a successful run adds an even number of children, at most two per log; layout and failure are stated by `MapLayers.CollectLayout` and `MapLayers.FirstFailureWins` |
| `MapLayers.CollectAsWritten` | rtmap.py:140-155 | The loop as written: a successful run adds exactly two children per log, since every log must yield a layer |
| `MapLayers.Assemble` | rtmap.py:140-155 | The loop over the logs themselves: a successful run adds at most two children per log |
| `MapLayers.AssembleAsWritten` | rtmap.py:140-155 | The loop as written over the logs themselves: a successful run adds exactly two children per log; that it succeeds only when every log yields a layer is stated by `MapLayers.AsWrittenNeedsEveryLogDrawn`, and `MapLayers.UnmatchedLogCounterexample` evaluates it on a log that yields `None` |
| `MapLayers.LayerOfSource` | rtmap.py:141 | The call `create_point_layer(csv_file)` for one log: it yields `None` exactly when the filter keeps nothing, and a layer it yields carries the log's name and the first kept row as origin; the rest is stated by the `PointLayers` lemmas |
| `MapLayers.BaseOf` | rtmap.py:144-145 | The base marker at `start["sender lat"], start["sender long"]` of a layer's origin; where it is placed in the map is stated by `MapLayers.CollectLayout` |
| `MapLayers.CreateMapWithLayers` | rtmap.py:140-155 | The loop computes exactly `Assemble` over the logs in order |
| `MapLayers.CollectFailsIff` | rtmap.py:140-141 | The run raises exactly when some log raises |
| `MapLayers.FirstFailureWins` | rtmap.py:140-141 | A run that raises raises the exception of the first log that raises |
| `MapLayers.CollectLayout` | rtmap.py:140-155 | A successful run adds, per drawn log in log order, its layer followed by a base marker at that layer's origin sender lat/long, and nothing for skipped logs |
| `MapLayers.DrawnIffSomeRowKept` | rtmap.py:35-37 | A log that does not raise is drawn exactly when one of its rows passes the filter |
| `MapLayers.NothingKeptDrawsNothing` | rtmap.py:140-155 | When no row of any log passes the filter, the run adds nothing to the base map |
| `MapLayers.AsWrittenNeedsEveryLogDrawn` | rtmap.py:141 | The loop as written succeeds only when every log yields a layer |
| `MapLayers.AsWrittenAgreesWhenItSucceeds` | rtmap.py:141-155 | Where the loop as written succeeds, it adds the same children as the skipping loop |
| `MapLayers.UnmatchedLogCounterexample` | rtmap.py:141 | A single log whose one row has numeric cells but the payload `hello`: the skipping loop adds nothing, the loop as written raises on unpacking `None` |

## Findings

| source | as written | input that shows it | evidently intended | confidence | as-written member | corrected member |
|---|---|---|---|---|---|---|
| rtmap.py:27-32 | the four masks are computed over the whole column before `&` combines them, and `between` on a text cell raises `TypeError`, so the `isinstance` guard never drops a row | one complete row with payload `seq 1` and `rx lat` the text `"52.1"` (`RecordFilter.TextLatitudeCounterexample`); the reader keeps `"52.1"` as text only when some other `rx lat` cell of the same log is not a number, otherwise it parses it as 52.1 | rows with a non-numeric receiver position are dropped | not executed; high (pandas compares object columns element by element with Python's `>=`) | `RecordFilter.TypeRangeStageAsWritten` | `RecordFilter.TypeRangeStage` |
| rtmap.py:141-142 | `layer, start = create_point_layer(csv_file)` unpacks the `None` returned for a log with no valid rows, raising `TypeError` before `if layer:` can skip it | one log whose one row has numeric cells but the payload `hello`, so the map centre at rtmap.py:76-78 is valid and the loop is reached (`MapLayers.UnmatchedLogCounterexample`) | the empty log is skipped and the other logs are still drawn | not executed; high | `MapLayers.CollectAsWritten` | `MapLayers.Collect` |

## Left out

- Reading the CSV files and the reader's type inference (rtmap.py:12, 76): each cell arrives as a `Value`, and a log arrives as a sequence of rows; an unreadable file is not modelled.
- A `payload` column that the reader infers as entirely numeric or entirely empty makes `.str.contains` raise `AttributeError` (rtmap.py:15); this depends on column type inference, which is not modelled. Within a text column a non-text payload never matches, as modelled.
- A missing column (a `KeyError` in rtmap.py:15-32) is not modelled: every row has all eight fields.
- `\d` also matches non-ASCII decimal digits in Python; only `0`-`9` are modelled.
- Floating point: cells are reals, so infinities and rounding in the normalisation are not modelled; NaN is `Missing`.
- The colour map and its hex conversion (rtmap.py:43, 56) are abstract in `Gradient(t)`, including its clamping of positions outside [0, 1].
- All map rendering (rtmap.py:40, 59-67, 78-160): feature groups, circle marker radius, fill and opacity, the base marker's icon, tile layers, measure control, layer control, mini-map, `m.save`; also folium's validation of the base marker's sender coordinates, which are passed through as `Value`s.
- The initial map centre (rtmap.py:76-77): a NaN-skipping float mean over the unfiltered first log.
- The steps before the loop (rtmap.py:76-78) can raise on their own: a first log with no numeric `rx lat` gives a NaN centre that `folium.Map` rejects. The model starts at the loop, so "a run" in `MapLayers.CollectFailsIff` and `MapLayers.FirstFailureWins` means the loop at rtmap.py:140-155 only.
- Popup text (rtmap.py:58), which depends on float formatting.
- The layer name is given; `os.path.basename` is not modelled.
- The "No valid data" message (rtmap.py:36) and the command-line entry point (rtmap.py:163-173): directory scan, messages and exit code.
- RecordFilter.RefilterRemovesNothing: re-applies only the completeness, type and range tests, because the output no longer carries the payload column the payload test reads.
