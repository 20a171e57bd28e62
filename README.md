# Airline fuel optimizer: verified model of the fuel core

This project models the fuel estimator and route comparator of the airline fuel
optimization API (`app/optimizer.py`) in Dafny and proves what they compute.

- **Estimating one route** (`estimate_fuel`). Each segment is flown at cruise
  speed plus wind, but never slower than 100 km/h. Its fuel is flight time ×
  burn rate × (1 + turbulence). The breakdown echoes every segment's inputs
  with its fuel rounded to hundredths. The route total is the unrounded segment
  fuels summed and then rounded once.
- **Comparing routes** (`optimize_routes`). The aircraft type is looked up in
  an aircraft directory. Every requested route file is estimated in request
  order, and a missing file becomes an inline error entry. The first cheapest
  estimated route is the best. Every estimated entry then gets its extra fuel
  over the best written into it.

Both functions are loops in the source. They are Dafny methods
(`Optimizer.EstimateFuel`, `Optimizer.OptimizeRoutes` with
`Optimizer.AnnotateExtraFuel`), proved against specification functions
(`Report`, `RawTotal`, `Optimize`). The lemmas state what those functions mean.

Files:
- `models.dfy`: module `Models`, the records `Aircraft` and `RouteSegment` of `app/models.py`.
- `rounding.dfy`: module `Rounding`, Python's `round(x, 2)` as `Round2`.
  It rounds an exact real to the nearest hundredth, ties to the even
  hundredth. Its proved facts: the result is a whole number of hundredths,
  lies within 0.005 of the input, is monotone, and leaves whole hundredths
  unchanged.
- `optimizer.dfy`: module `Optimizer`, the estimator, the comparator, their
  specification functions and the lemmas.

Inputs that the source reads from files become parameters:
- The aircraft directory is a `map<string, Aircraft>`.
- Route loading is a function `string -> LoadResult` that gives one of three
  results: `NotFound`, `Malformed` (the file exists but its rows cannot be read
  as segments) or `Loaded(route)`.

## Behaviour of note

These are facts about the code that a reader might not expect. The model
reproduces each one.
- A route file that exists but cannot be parsed aborts the whole call.
  `load_route` raises on such a file (app/optimizer.py:13-22), and
  `optimize_routes` calls it at app/optimizer.py:78 without catching the
  exception. The model returns `LoadRaised(file)` for the first such file.
  Only a missing file gives an inline error entry (app/optimizer.py:75-77).
- An unknown aircraft type returns the dictionary
  `{"error": "Aircraft <type> not found"}` (app/optimizer.py:68-69). The model
  returns `AircraftNotFound` with exactly that text.
- The total is rounded once, from the unrounded segment fuels
  (app/optimizer.py:57, 59). `TotalIsNotSumOfReported` gives three segments of
  0.004 kg whose reported figures sum to 0.00 but whose total is 0.01.

## Where the code departs from its evident intent

In each case below the code cannot do what it evidently means to do. The model
follows the evident intent.
- The estimator reads `seg.wind_kmh` (app/optimizer.py:44, 53), but the
  segment record names the field `wind` (app/models.py:11). The model uses the
  segment's wind.
- `load_aircraft_data` is imported from `app.models` (app/optimizer.py:4) but
  is not defined there. The aircraft directory is therefore an input map.

## Model

| member | source | states |
|---|---|---|
| `Rounding.Round2` | app/optimizer.py:55 | `round(x, 2)` yields a whole number of hundredths within 0.005 of `x` |
| `Rounding.Round2Monotone` | app/optimizer.py:94 | rounding preserves order: `x <= y` implies `Round2(x) <= Round2(y)` |
| `Rounding.Round2OfCents` | app/optimizer.py:94 | an amount already in whole hundredths (such as a rounded total, or 0) rounds to itself |
| `Rounding.CentsDifference` | app/optimizer.py:94 | the difference of two rounded totals is again in whole hundredths |
| `Rounding.Round2NonNegative` | app/optimizer.py:94 | a non-negative difference rounds to a non-negative figure |
| `Rounding.Round2TiesToEven` | app/optimizer.py:55 | a tie rounds to the even hundredth, as Python's `round` does (0.125 → 0.12, 0.375 → 0.38) |
| `Optimizer.EffectiveSpeed` | app/optimizer.py:44-46 | the speed used is the larger of cruise speed + wind and 100: at least both, and equal to one of them |
| `Optimizer.EffectiveSpeedClamp` | app/optimizer.py:44-46 | below the floor the speed is exactly 100, otherwise exactly cruise speed + wind |
| `Optimizer.SegmentFuel` | app/optimizer.py:47-49 | a segment's fuel is distance / effective speed × burn rate × (1 + turbulence); it is non-negative whenever distance, burn rate and 1 + turbulence are |
| `Optimizer.Report` | app/optimizer.py:50-56 | a breakdown entry echoes the segment's waypoint, distance, wind and turbulence, and its fuel is a whole number of hundredths within 0.005 of the segment's unrounded fuel |
| `Optimizer.AllNonNegativeInputsEach` | app/optimizer.py:43-49 | the condition under which a route's total is non-negative holds exactly when every segment has a non-negative distance, a non-negative burn rate and 1 + turbulence >= 0 |
| `Optimizer.ReportsAppend` | app/optimizer.py:43-56 | the breakdown of two routes joined is the two breakdowns joined: each entry depends on its own segment only |
| `Optimizer.RawTotal` | app/optimizer.py:41-57 | the accumulated total is the sum of the unrounded segment fuels, and it is non-negative when every segment's inputs are |
| `Optimizer.EstimateFuel` | app/optimizer.py:26-59 | the loop returns one entry per segment in input order; each echoes the segment's waypoint, distance, wind and turbulence and carries `Round2` of distance / speed × burn × (1 + turbulence); the total is `Round2` of the sum of the unrounded segment fuels |
| `Optimizer.FuelNonDecreasingInTurbulence` | app/optimizer.py:47-49 | raising the turbulence factor never lowers a segment's fuel |
| `Optimizer.FuelNonIncreasingInWind` | app/optimizer.py:44-49 | more tailwind never raises a segment's fuel (when 1 + turbulence >= 0) |
| `Optimizer.FuelConstantUnderFloor` | app/optimizer.py:44-49 | while the speed stays at or under the floor, the wind does not change the fuel |
| `Optimizer.RawTotalAppend` | app/optimizer.py:41-57 | the accumulated total of two routes joined is the sum of their totals: each segment adds independently |
| `Optimizer.ReportedSumNearRawTotal` | app/optimizer.py:55-57 | the rounded segment figures sum to within 0.005 per segment of the unrounded total |
| `Optimizer.TotalNearReportedSum` | app/optimizer.py:55-59 | the reported total is within 0.005 × (segments + 1) of the sum of the reported figures |
| `Optimizer.TotalIsNotSumOfReported` | app/optimizer.py:55-59 | for three 0.004 kg segments the figures sum to 0.00 but the total is 0.01 |
| `Optimizer.LevelCruiseExample` | app/optimizer.py:44-59 | 400 km at 800 km/h burning 2500 kg/h with no wind or turbulence: 1250 kg, total 1250 |
| `Optimizer.HeadwindFloorExample` | app/optimizer.py:44-55 | a 750 km/h headwind on an 800 km/h aircraft is clamped to 100 km/h, so 100 km cost 2500 kg |
| `Optimizer.Entry` | app/optimizer.py:72-84 | the entry of one file names that file; it is an error entry "File not found" exactly when the file is missing; otherwise it holds one breakdown entry per segment, a total in whole hundredths and no extra fuel yet |
| `Optimizer.FirstMalformed` | app/optimizer.py:73-78 | the position of the first route file whose load raises, if any, and that no earlier one raises |
| `Optimizer.Numeric` | app/optimizer.py:87 | the filter keeps only estimated entries |
| `Optimizer.NumericMembers` | app/optimizer.py:87 | an entry is kept by the filter exactly when it is in the options and was estimated |
| `Optimizer.MinIndex` | app/optimizer.py:91 | `min` by total fuel returns an entry no dearer than any, and every entry before it is strictly dearer (the first minimum) |
| `Optimizer.NumericMinIsFirstCheapest` | app/optimizer.py:87-91 | filtering and then taking `min` picks the first cheapest estimated entry of the whole option list |
| `Optimizer.Annotated` | app/optimizer.py:93-94 | annotating leaves an error entry unchanged; an estimated entry keeps its file, total and breakdown and gains an extra fuel in whole hundredths |
| `Optimizer.Compare` | app/optimizer.py:86-99 | comparing always gives a comparison for the aircraft with one option per entry, and a best exactly when it gives a best total |
| `Optimizer.Optimize` | app/optimizer.py:61-100 | the call aborts only on a requested file whose load raises; a comparison names the aircraft and has one option per requested file |
| `Optimizer.AnnotateExtraFuel` | app/optimizer.py:93-94 | the in-place loop writes `Round2(total - best)` into every estimated entry and leaves error entries and the order unchanged |
| `Optimizer.OptimizeRoutes` | app/optimizer.py:61-100 | the comparator's loops compute exactly the reference `Optimize` |
| `Optimizer.OptimizeUnknownAircraft` | app/optimizer.py:67-69 | an absent aircraft type gives only the error marker `Aircraft <type> not found`, and a present one never does |
| `Optimizer.OptimizeRaisesOnFirstMalformed` | app/optimizer.py:72-78 | for a known aircraft the call aborts exactly when some file cannot be read, and on the first such file |
| `Optimizer.OptimizeOptionsFollowRequest` | app/optimizer.py:72-84 | one option per requested file, in request order; an error entry "File not found" exactly for a missing file; otherwise that route's rounded total and breakdown |
| `Optimizer.CompareBestIsFirstCheapest` | app/optimizer.py:86-99 | over loaded entries: no best exactly when no entry was estimated (and then the options are the entries unchanged); otherwise the best is the first cheapest option, and `best_total_fuel` is its total |
| `Optimizer.BestBelowEveryEntry` | app/optimizer.py:87-91 | the chosen best is estimated, in whole hundredths, and no dearer than any estimated entry |
| `Optimizer.AnnotateAllExact` | app/optimizer.py:93-94 | against a best no dearer than any entry, every estimated entry's extra fuel is exactly the difference of the totals, never negative |
| `Optimizer.ExtraOverCheaper` | app/optimizer.py:94 | one entry's `round(total - best, 2)` is exactly `total - best` |
| `Optimizer.CompareExtraFuel` | app/optimizer.py:93-94 | over loaded entries: every estimated option's extra fuel is the exact, non-negative difference to the best, and the best's own is 0 |
| `Optimizer.EntriesInCents` | app/optimizer.py:79-82 | every estimated entry's total is a rounded figure |
| `Optimizer.OptimizeBestIsFirstCheapest` | app/optimizer.py:86-99 | `best` is None exactly when every route failed; otherwise it is the option at the first cheapest position, with `best_total_fuel` its total |
| `Optimizer.OptimizeExtraFuel` | app/optimizer.py:93-94 | every successful option's `extra_vs_best_kg` equals its total minus the best total, is >= 0, and is 0 for the best |
| `Optimizer.TwoRoutesLoaded` | app/optimizer.py:72-84 | files A (1250 kg), missing, B (1400 kg) load to two estimates and one error entry in that order |
| `Optimizer.TwoRoutesCompared` | app/optimizer.py:86-99 | of totals 1250 and 1400 the first is best, with extras 0 and 150 |
| `Optimizer.TwoRoutesExample` | app/optimizer.py:61-100 | end to end: best is route A with extra 0, route B has extra 150, the missing file keeps its place as an error entry |

## Left out

- The file-system and parsing side of route loading is not modelled: CSV
  reading, `float(...)` parsing, `os.path.join("data", name)` and the
  `os.path.exists` check (app/optimizer.py:6-24, 74-75). A route file name
  goes to an abstract loader, which reports a missing file, an unreadable file
  or the file's segments.
- `load_aircraft_data` is not part of this model, and it is not defined in
  `app/models.py`. The aircraft directory is an input map, and the
  `aircraft_file` argument is dropped.
- Python floats are not modelled. Quantities are exact reals, and `Round2` is
  exact round-half-to-even on them. On floats, Python rounds the binary value,
  so `round(2.675, 2)` is 2.67. Likewise `extra_vs_best_kg` is exactly
  `total - best` here, whereas on floats it can differ in the last bit before
  rounding.
- Dictionary identity is not modelled. In the source, `best` is the same dict
  object as one entry of `options`, and annotating that entry also annotates
  `best`. The model returns the annotated value and proves that it equals the
  option at the best's position. Identity itself, such as a later mutation
  showing through both references, is not captured.
- When no route succeeds, the source's result dict has no `best_total_fuel`
  key. The model gives `None` for it.
- Exceptions other than a failed route load are not modelled. Division by zero
  cannot happen, because the speed is at least 100. The attribute error from
  `wind_kmh` is replaced by the intended field, as described above.
- `app/main.py` (HTTP endpoints, uploads, directory creation), `app/agent.py`
  (the chat-completion client) and `agent_local.py` (console client) are
  outside the core. They are web, network and console plumbing around these
  two functions.
- Optimizer.FuelNonIncreasingInWind: stated only for `1 + turbulence >= 0`
  with non-negative distance and burn rate, because a negative fuel factor
  reverses the direction. The source promises nothing for such inputs.
