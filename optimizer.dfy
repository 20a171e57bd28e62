/** The fuel estimator and the route comparator.

    `EstimateFuel` walks the segments of one route and reports the fuel of each
    and of the whole route; `OptimizeRoutes` estimates every candidate route of
    one aircraft, keeps failed loads as inline error entries, picks the cheapest
    route and annotates every estimated route with its extra fuel over it. Both
    are loops proved against the functions below, and the lemmas after them
    state what the results mean. */
module Optimizer {
  import opened Models
  import opened Rounding

  datatype Option<T> = None | Some(value: T)

  /** Lowest effective ground speed used in the fuel formula, in km/h. */
  const SpeedFloor: real := 100.0

  /** Error text of an entry whose route file does not exist. */
  const FileNotFoundError: string := "File not found"

  /** Error text returned when the aircraft type is not in the directory. */
  function AircraftNotFoundError(aircraftType: string): string
  {
    "Aircraft " + aircraftType + " not found"
  }

  // ---------------------------------------------------------------------------
  // Estimating one route

  /** One entry of the per-segment breakdown. */
  datatype SegmentReport = SegmentReport(
    waypoint: string,
    distanceKm: real,
    windKmh: real,
    turbulence: real,
    fuelKg: real
  )

  datatype Estimate = Estimate(totalFuel: real, segments: seq<SegmentReport>)

  /** Cruise speed plus wind, but never below the floor: the larger of the two. */
  function EffectiveSpeed(aircraft: Aircraft, seg: RouteSegment): (v: real)
    ensures v >= SpeedFloor && v >= aircraft.cruiseSpeed + seg.wind
    ensures v == SpeedFloor || v == aircraft.cruiseSpeed + seg.wind
  {
    var speed := aircraft.cruiseSpeed + seg.wind;
    if speed < SpeedFloor then SpeedFloor else speed
  }

  /** Fuel burnt on one segment, before rounding: flight time times burn rate,
      scaled by the turbulence penalty. */
  function SegmentFuel(aircraft: Aircraft, seg: RouteSegment): (fuel: real)
    ensures NonNegativeInputs(aircraft, seg) ==> fuel >= 0.0
  {
    seg.distanceKm / EffectiveSpeed(aircraft, seg) * aircraft.fuelBurnPerHour * (1.0 + seg.turbulence)
  }

  /** Distance and burn rate are non-negative and turbulence does not turn the
      fuel factor negative: the inputs for which fuel is a quantity. */
  predicate NonNegativeInputs(aircraft: Aircraft, seg: RouteSegment)
  {
    seg.distanceKm >= 0.0 && aircraft.fuelBurnPerHour >= 0.0 && 1.0 + seg.turbulence >= 0.0
  }

  /** Every segment of the route has inputs for which fuel is a quantity.
      Stated by recursion on the last segment, as `RawTotal` is, rather than
      with a quantifier, which keeps the estimator's loop proof cheap;
      `AllNonNegativeInputsEach` gives the quantified form. */
  predicate AllNonNegativeInputs(aircraft: Aircraft, route: seq<RouteSegment>)
    decreases |route|
  {
    route == [] || (AllNonNegativeInputs(aircraft, route[..|route| - 1]) && NonNegativeInputs(aircraft, route[|route| - 1]))
  }

  /** The recursive predicate holds exactly when every segment has
      non-negative inputs. */
  lemma {:induction false} AllNonNegativeInputsEach(aircraft: Aircraft, route: seq<RouteSegment>)
    ensures AllNonNegativeInputs(aircraft, route)
            <==> forall i :: 0 <= i < |route| ==> NonNegativeInputs(aircraft, route[i])
    decreases |route|
  {
    if route != [] {
      var n := |route| - 1;
      AllNonNegativeInputsEach(aircraft, route[..n]);
      assert forall i :: 0 <= i < n ==> route[..n][i] == route[i];
    }
  }

  /** The breakdown entry of one segment: its inputs echoed, its fuel rounded. */
  function Report(aircraft: Aircraft, seg: RouteSegment): (r: SegmentReport)
    ensures r.waypoint == seg.waypoint && r.distanceKm == seg.distanceKm
    ensures r.windKmh == seg.wind && r.turbulence == seg.turbulence
    ensures IsCents(r.fuelKg)
    ensures SegmentFuel(aircraft, seg) - 0.005 <= r.fuelKg <= SegmentFuel(aircraft, seg) + 0.005
  {
    SegmentReport(seg.waypoint, seg.distanceKm, seg.wind, seg.turbulence, Round2(SegmentFuel(aircraft, seg)))
  }

  /** The breakdown of a whole route, one report per segment. */
  function Reports(aircraft: Aircraft, route: seq<RouteSegment>): seq<SegmentReport>
  {
    seq(|route|, i requires 0 <= i < |route| => Report(aircraft, route[i]))
  }

  /** Sum of the unrounded fuel of every segment of the route. */
  function RawTotal(aircraft: Aircraft, route: seq<RouteSegment>): (total: real)
    ensures AllNonNegativeInputs(aircraft, route) ==> total >= 0.0
    decreases |route|
  {
    if route == [] then 0.0
    else RawTotal(aircraft, route[..|route| - 1]) + SegmentFuel(aircraft, route[|route| - 1])
  }

  /** The breakdown of two routes joined is the two breakdowns joined: each
      segment is reported on its own, whatever precedes it. */
  lemma ReportsAppend(aircraft: Aircraft, first: seq<RouteSegment>, second: seq<RouteSegment>)
    ensures Reports(aircraft, first + second) == Reports(aircraft, first) + Reports(aircraft, second)
  {
  }

  /** Sum of the rounded fuel figures of a breakdown. */
  function ReportedSum(reports: seq<SegmentReport>): real
    decreases |reports|
  {
    if reports == [] then 0.0
    else ReportedSum(reports[..|reports| - 1]) + reports[|reports| - 1].fuelKg
  }

  /** The estimator: one breakdown entry per segment, in route order, and the
      total rounded once from the unrounded segment fuels. */
  method EstimateFuel(aircraft: Aircraft, route: seq<RouteSegment>) returns (e: Estimate)
    ensures |e.segments| == |route|
    ensures forall i :: 0 <= i < |route| ==> e.segments[i] == Report(aircraft, route[i])
    ensures e.totalFuel == Round2(RawTotal(aircraft, route))
  {
    var total := 0.0;
    var breakdown: seq<SegmentReport> := [];
    for i := 0 to |route|
      invariant |breakdown| == i
      invariant forall j :: 0 <= j < i ==> breakdown[j] == Report(aircraft, route[j])
      invariant total == RawTotal(aircraft, route[..i])
    {
      var seg := route[i];
      var effSpeed := aircraft.cruiseSpeed + seg.wind;
      if effSpeed < 100.0 {
        effSpeed := 100.0;
      }
      var hours := seg.distanceKm / effSpeed;
      var base := hours * aircraft.fuelBurnPerHour;
      var fuel := base * (1.0 + seg.turbulence);
      assert effSpeed == EffectiveSpeed(aircraft, seg);
      assert fuel == SegmentFuel(aircraft, seg);
      breakdown := breakdown + [SegmentReport(seg.waypoint, seg.distanceKm, seg.wind, seg.turbulence, Round2(fuel))];
      assert route[..i + 1][..i] == route[..i];
      total := total + fuel;
    }
    assert route[..|route|] == route;
    e := Estimate(Round2(total), breakdown);
  }

  // ---------------------------------------------------------------------------
  // Properties of the per-segment formula

  /** A segment whose headwind pushes the speed under the floor is flown at
      exactly the floor speed; otherwise at cruise speed plus wind. */
  lemma EffectiveSpeedClamp(aircraft: Aircraft, seg: RouteSegment)
    ensures aircraft.cruiseSpeed + seg.wind < SpeedFloor ==> EffectiveSpeed(aircraft, seg) == SpeedFloor
    ensures aircraft.cruiseSpeed + seg.wind >= SpeedFloor ==> EffectiveSpeed(aircraft, seg) == aircraft.cruiseSpeed + seg.wind
  {
  }

  /** More turbulence never lowers the fuel of a segment. */
  lemma FuelNonDecreasingInTurbulence(aircraft: Aircraft, seg: RouteSegment, turbulence: real)
    requires seg.distanceKm >= 0.0 && aircraft.fuelBurnPerHour >= 0.0
    requires seg.turbulence <= turbulence
    ensures SegmentFuel(aircraft, seg) <= SegmentFuel(aircraft, seg.(turbulence := turbulence))
  {
  }

  /** More tailwind never raises the fuel of a segment (for a turbulence factor
      that does not turn fuel negative). */
  lemma FuelNonIncreasingInWind(aircraft: Aircraft, seg: RouteSegment, wind: real)
    requires seg.distanceKm >= 0.0 && aircraft.fuelBurnPerHour >= 0.0 && 1.0 + seg.turbulence >= 0.0
    requires seg.wind <= wind
    ensures SegmentFuel(aircraft, seg.(wind := wind)) <= SegmentFuel(aircraft, seg)
  {
    var faster := seg.(wind := wind);
    var v1, v2 := EffectiveSpeed(aircraft, seg), EffectiveSpeed(aircraft, faster);
    assert v1 <= v2;
    var h1, h2 := seg.distanceKm / v1, seg.distanceKm / v2;
    QuotientAntitone(seg.distanceKm, v1, v2);
    var scale := aircraft.fuelBurnPerHour * (1.0 + seg.turbulence);
    ProductNonNegative(aircraft.fuelBurnPerHour, 1.0 + seg.turbulence);
    assert h2 * scale <= h1 * scale by {
      assert (h1 - h2) * scale >= 0.0;
    }
    assert SegmentFuel(aircraft, faster) == h2 * scale;
    assert SegmentFuel(aircraft, seg) == h1 * scale;
  }

  lemma QuotientAntitone(d: real, v1: real, v2: real)
    requires d >= 0.0 && 0.0 < v1 <= v2
    ensures d / v2 <= d / v1
  {
    assert d / v2 * v2 == d == d / v1 * v1;
  }

  lemma ProductNonNegative(x: real, y: real)
    requires x >= 0.0 && y >= 0.0
    ensures x * y >= 0.0
  {
  }

  /** While both winds keep the speed at or under the floor, the wind does not
      change the fuel of a segment at all. */
  lemma FuelConstantUnderFloor(aircraft: Aircraft, seg: RouteSegment, wind: real)
    requires aircraft.cruiseSpeed + seg.wind <= SpeedFloor && aircraft.cruiseSpeed + wind <= SpeedFloor
    ensures SegmentFuel(aircraft, seg.(wind := wind)) == SegmentFuel(aircraft, seg)
  {
  }

  // ---------------------------------------------------------------------------
  // Properties of the route total

  /** The unrounded total of two routes flown one after the other is the sum of
      their totals: every segment contributes independently of the others. */
  lemma {:induction false} RawTotalAppend(aircraft: Aircraft, first: seq<RouteSegment>, second: seq<RouteSegment>)
    ensures RawTotal(aircraft, first + second) == RawTotal(aircraft, first) + RawTotal(aircraft, second)
    decreases |second|
  {
    if second == [] {
      assert first + second == first;
    } else {
      var n := |second| - 1;
      assert (first + second)[..|first + second| - 1] == first + second[..n];
      RawTotalAppend(aircraft, first, second[..n]);
    }
  }

  /** The rounded segment figures add up to the unrounded total within half a
      hundredth per segment. */
  lemma {:induction false} ReportedSumNearRawTotal(aircraft: Aircraft, route: seq<RouteSegment>)
    ensures RawTotal(aircraft, route) - |route| as real * 0.005
            <= ReportedSum(Reports(aircraft, route))
            <= RawTotal(aircraft, route) + |route| as real * 0.005
    decreases |route|
  {
    if route != [] {
      var n := |route| - 1;
      assert Reports(aircraft, route)[..n] == Reports(aircraft, route[..n]);
      ReportedSumNearRawTotal(aircraft, route[..n]);
    }
  }

  /** The reported total may differ from the sum of the reported segment
      figures, but by no more than half a hundredth per segment plus half a
      hundredth for the total's own rounding. */
  lemma TotalNearReportedSum(aircraft: Aircraft, route: seq<RouteSegment>)
    ensures var gap := Round2(RawTotal(aircraft, route)) - ReportedSum(Reports(aircraft, route));
            -(|route| + 1) as real * 0.005 <= gap <= (|route| + 1) as real * 0.005
  {
    ReportedSumNearRawTotal(aircraft, route);
  }

  /** The total is rounded from the unrounded segment fuels, not summed from
      the rounded figures: three segments of 0.004 kg each report 0.00 kg apiece
      but 0.01 kg in total. No figure lies on a rounding tie. */
  lemma TotalIsNotSumOfReported()
    ensures var aircraft := Aircraft("X", 100.0, 100.0);
            var seg := RouteSegment("W", 0.004, 0.0, 0.0);
            var route := [seg, seg, seg];
            ReportedSum(Reports(aircraft, route)) == 0.0 && Round2(RawTotal(aircraft, route)) == 0.01
  {
    var aircraft := Aircraft("X", 100.0, 100.0);
    var seg := RouteSegment("W", 0.004, 0.0, 0.0);
    var route := [seg, seg, seg];
    assert SegmentFuel(aircraft, seg) == 0.004;
    assert (0.004 * 100.0).Floor == 0;
    assert Round2(0.004) == 0.0;
    assert route[..2] == [seg, seg] && route[..2][..1] == [seg] && route[..2][..1][..0] == [];
    assert RawTotal(aircraft, [seg]) == 0.004;
    assert RawTotal(aircraft, [seg, seg]) == 0.008;
    assert RawTotal(aircraft, route) == 0.012;
    assert (0.012 * 100.0).Floor == 1;
    var reports := Reports(aircraft, route);
    assert reports == [Report(aircraft, seg), Report(aircraft, seg), Report(aircraft, seg)];
    var r := Report(aircraft, seg);
    assert r.fuelKg == 0.0;
    assert [r, r, r][..2] == [r, r] && [r, r][..1] == [r] && [r][..0] == [];
    assert ReportedSum([r]) == 0.0;
    assert ReportedSum([r, r]) == 0.0;
    assert ReportedSum(reports) == 0.0;
  }

  /** Level cruise: 400 km at 800 km/h with no wind and no turbulence is half
      an hour, 1250 kg. */
  lemma LevelCruiseExample()
    ensures var a320 := Aircraft("A320", 800.0, 2500.0);
            var route := [RouteSegment("W1", 400.0, 0.0, 0.0)];
            Reports(a320, route)[0].fuelKg == 1250.0 && Round2(RawTotal(a320, route)) == 1250.0
  {
    var a320 := Aircraft("A320", 800.0, 2500.0);
    var route := [RouteSegment("W1", 400.0, 0.0, 0.0)];
    assert SegmentFuel(a320, route[0]) == 1250.0;
    assert route[..0] == [];
    Round2OfCents(1250.0);
  }

  /** Headwind under the floor: a 750 km/h headwind would leave 50 km/h, which
      the floor raises to 100 km/h, so 100 km take one hour, 2500 kg. */
  lemma HeadwindFloorExample()
    ensures var a320 := Aircraft("A320", 800.0, 2500.0);
            var seg := RouteSegment("W1", 100.0, -750.0, 0.0);
            EffectiveSpeed(a320, seg) == 100.0 && Report(a320, seg).fuelKg == 2500.0
  {
  }

  // ---------------------------------------------------------------------------
  // Comparing routes

  /** What loading a route file gives: the file is missing, it exists but its
      rows cannot be read as segments, or its segments. */
  datatype LoadResult = NotFound | Malformed | Loaded(route: seq<RouteSegment>)

  /** One entry of the comparison: an error entry, or an estimated route whose
      extra fuel over the best route is filled in once the best is known. */
  datatype RouteOption =
    | Failed(routeFile: string, error: string)
    | Estimated(routeFile: string, totalFuel: real, segments: seq<SegmentReport>, extraVsBestKg: Option<real>)

  /** The answer of the comparator: the aircraft is unknown; loading a route
      file raised (the call aborts with that exception); or the options, the
      best of them and its total. */
  datatype Outcome =
    | AircraftNotFound(error: string)
    | LoadRaised(routeFile: string)
    | Compared(aircraft: string, options: seq<RouteOption>, best: Option<RouteOption>, bestTotalFuel: Option<real>)

  /** Position of the first route file whose load raises, if any. */
  function FirstMalformed(routeFiles: seq<string>, load: string -> LoadResult): (k: Option<nat>)
    ensures k.Some? ==> k.value < |routeFiles| && load(routeFiles[k.value]).Malformed?
    ensures k.Some? ==> forall j :: 0 <= j < k.value ==> !load(routeFiles[j]).Malformed?
    ensures k.None? ==> forall j :: 0 <= j < |routeFiles| ==> !load(routeFiles[j]).Malformed?
    decreases |routeFiles|
  {
    if routeFiles == [] then None
    else if load(routeFiles[0]).Malformed? then Some(0)
    else match FirstMalformed(routeFiles[1..], load)
      case None => None
      case Some(k) => Some(k + 1)
  }

  /** The entry for one route file, before the extra fuel is known. */
  function Entry(aircraft: Aircraft, routeFile: string, load: string -> LoadResult): (r: RouteOption)
    requires !load(routeFile).Malformed?
    ensures r.routeFile == routeFile
    ensures r.Failed? <==> load(routeFile).NotFound?
    ensures r.Failed? ==> r.error == FileNotFoundError
    ensures r.Estimated? ==> |r.segments| == |load(routeFile).route| && r.extraVsBestKg == None
    ensures r.Estimated? ==> IsCents(r.totalFuel)
  {
    if load(routeFile).NotFound? then Failed(routeFile, FileNotFoundError)
    else
      var route := load(routeFile).route;
      Estimated(routeFile, Round2(RawTotal(aircraft, route)), Reports(aircraft, route), None)
  }

  /** The estimated entries, in their original order. */
  function Numeric(options: seq<RouteOption>): (r: seq<RouteOption>)
    ensures forall i :: 0 <= i < |r| ==> r[i].Estimated?
    decreases |options|
  {
    if options == [] then []
    else
      var n := |options| - 1;
      var init := Numeric(options[..n]);
      if options[n].Estimated? then init + [options[n]] else init
  }

  /** Position of the first entry with the least total fuel: a left-to-right
      scan that only moves on a strictly smaller total. */
  function MinIndex(numeric: seq<RouteOption>): (k: nat)
    requires |numeric| > 0
    requires forall i :: 0 <= i < |numeric| ==> numeric[i].Estimated?
    ensures k < |numeric|
    ensures forall j :: 0 <= j < |numeric| ==> numeric[k].totalFuel <= numeric[j].totalFuel
    ensures forall j :: 0 <= j < k ==> numeric[k].totalFuel < numeric[j].totalFuel
    decreases |numeric|
  {
    if |numeric| == 1 then 0
    else
      var n := |numeric| - 1;
      var k := MinIndex(numeric[..n]);
      if numeric[n].totalFuel < numeric[k].totalFuel then n else k
  }

  /** An entry with its extra fuel over the best total filled in; error entries
      are left as they are. */
  function Annotated(option: RouteOption, bestTotal: real): (r: RouteOption)
    ensures option.Failed? ==> r == option
    ensures option.Estimated? ==>
              r.Estimated? && r.routeFile == option.routeFile
              && r.totalFuel == option.totalFuel && r.segments == option.segments
    ensures option.Estimated? ==> r.extraVsBestKg.Some? && IsCents(r.extraVsBestKg.value)
  {
    if option.Estimated? then option.(extraVsBestKg := Some(Round2(option.totalFuel - bestTotal)))
    else option
  }

  /** The entries of all route files, in request order, when none raises. */
  function Entries(aircraft: Aircraft, routeFiles: seq<string>, load: string -> LoadResult): seq<RouteOption>
    requires forall j :: 0 <= j < |routeFiles| ==> !load(routeFiles[j]).Malformed?
  {
    seq(|routeFiles|, i requires 0 <= i < |routeFiles| => Entry(aircraft, routeFiles[i], load))
  }

  /** Every entry annotated with its extra fuel over the best total. */
  function AnnotateAll(options: seq<RouteOption>, bestTotal: real): seq<RouteOption>
  {
    seq(|options|, i requires 0 <= i < |options| => Annotated(options[i], bestTotal))
  }

  /** Best selection and annotation over the loaded entries. */
  function Compare(aircraftType: string, results: seq<RouteOption>): (r: Outcome)
    ensures r.Compared? && r.aircraft == aircraftType && |r.options| == |results|
    ensures r.best.None? <==> r.bestTotalFuel.None?
  {
    var numeric := Numeric(results);
    if numeric == [] then Compared(aircraftType, results, None, None)
    else
      var best := numeric[MinIndex(numeric)];
      Compared(aircraftType, AnnotateAll(results, best.totalFuel), Some(Annotated(best, best.totalFuel)), Some(best.totalFuel))
  }

  /** The comparator as a function of its inputs: the reference the method
      below is proved against. */
  function Optimize(aircraftType: string, routeFiles: seq<string>, aircrafts: map<string, Aircraft>,
                    load: string -> LoadResult): (r: Outcome)
    ensures r.LoadRaised? ==> r.routeFile in routeFiles && load(r.routeFile).Malformed?
    ensures r.Compared? ==> r.aircraft == aircraftType && |r.options| == |routeFiles|
  {
    if aircraftType !in aircrafts then AircraftNotFound(AircraftNotFoundError(aircraftType))
    else match FirstMalformed(routeFiles, load)
      case Some(k) => LoadRaised(routeFiles[k])
      case None => Compare(aircraftType, Entries(aircrafts[aircraftType], routeFiles, load))
  }

  /** Writes into every estimated entry its extra fuel over the best total,
      in place, and leaves error entries alone. */
  method AnnotateExtraFuel(options: seq<RouteOption>, bestTotal: real) returns (annotated: seq<RouteOption>)
    ensures |annotated| == |options|
    ensures forall i :: 0 <= i < |options| ==> annotated[i] == Annotated(options[i], bestTotal)
  {
    annotated := options;
    for k := 0 to |annotated|
      invariant |annotated| == |options|
      invariant forall j :: 0 <= j < k ==> annotated[j] == Annotated(options[j], bestTotal)
      invariant forall j :: k <= j < |annotated| ==> annotated[j] == options[j]
    {
      if annotated[k].Estimated? {
        annotated := annotated[k := annotated[k].(extraVsBestKg := Some(Round2(annotated[k].totalFuel - bestTotal)))];
      }
    }
  }

  /** The comparator: estimates each route file in order, records a missing
      file as an error entry and goes on, then picks the first cheapest route
      and writes every estimated entry's extra fuel over it. */
  method OptimizeRoutes(aircraftType: string, routeFiles: seq<string>, aircrafts: map<string, Aircraft>,
                        load: string -> LoadResult) returns (out: Outcome)
    ensures out == Optimize(aircraftType, routeFiles, aircrafts, load)
  {
    if aircraftType !in aircrafts {
      return AircraftNotFound(AircraftNotFoundError(aircraftType));
    }
    var aircraft := aircrafts[aircraftType];
    var results: seq<RouteOption> := [];
    for i := 0 to |routeFiles|
      invariant |results| == i
      invariant forall j :: 0 <= j < i ==> !load(routeFiles[j]).Malformed?
      invariant forall j :: 0 <= j < i ==> results[j] == Entry(aircraft, routeFiles[j], load)
    {
      var rf := routeFiles[i];
      var loaded := load(rf);
      if loaded.NotFound? {
        results := results + [Failed(rf, FileNotFoundError)];
      } else if loaded.Malformed? {
        assert FirstMalformed(routeFiles, load) == Some(i);
        return LoadRaised(rf);
      } else {
        var estimation := EstimateFuel(aircraft, loaded.route);
        results := results + [Estimated(rf, estimation.totalFuel, estimation.segments, None)];
      }
    }
    assert Optimize(aircraftType, routeFiles, aircrafts, load) == Compare(aircraftType, results) by {
      assert FirstMalformed(routeFiles, load).None?;
      assert results == Entries(aircraft, routeFiles, load);
    }

    var numeric := Numeric(results);
    if numeric == [] {
      return Compared(aircraftType, results, None, None);
    }
    var best := numeric[MinIndex(numeric)];
    ghost var entries := results;
    results := AnnotateExtraFuel(results, best.totalFuel);
    assert results == AnnotateAll(entries, best.totalFuel);
    // `best` is one of the entries just annotated, so it carries its own extra fuel.
    best := best.(extraVsBestKg := Some(Round2(best.totalFuel - best.totalFuel)));
    return Compared(aircraftType, results, Some(best), Some(best.totalFuel));
  }

  // ---------------------------------------------------------------------------
  // Properties of the comparison

  /** The filter keeps exactly the estimated entries. */
  lemma {:induction false} NumericMembers(options: seq<RouteOption>)
    ensures forall x :: x in Numeric(options) <==> x in options && x.Estimated?
    decreases |options|
  {
    if options != [] {
      var n := |options| - 1;
      assert options == options[..n] + [options[n]];
      NumericMembers(options[..n]);
    }
  }

  /** Entry p is an estimated entry with the least total, and every estimated
      entry before it costs strictly more: the first cheapest entry. */
  predicate IsFirstCheapest(options: seq<RouteOption>, p: int)
  {
    && 0 <= p < |options|
    && options[p].Estimated?
    && (forall j :: 0 <= j < |options| && options[j].Estimated? ==> options[p].totalFuel <= options[j].totalFuel)
    && (forall j :: 0 <= j < p && options[j].Estimated? ==> options[p].totalFuel < options[j].totalFuel)
  }

  /** Appending an entry that is failed, or no cheaper, keeps the first cheapest. */
  lemma FirstCheapestKept(init: seq<RouteOption>, last: RouteOption, p: int)
    requires IsFirstCheapest(init, p)
    requires last.Estimated? ==> init[p].totalFuel <= last.totalFuel
    ensures IsFirstCheapest(init + [last], p)
  {
  }

  /** Appending an estimated entry cheaper than every earlier one makes it the
      first cheapest. */
  lemma FirstCheapestReplaced(init: seq<RouteOption>, last: RouteOption)
    requires last.Estimated?
    requires forall j :: 0 <= j < |init| && init[j].Estimated? ==> last.totalFuel < init[j].totalFuel
    ensures IsFirstCheapest(init + [last], |init|)
  {
  }

  /** Filtering the estimated entries and taking the first minimum picks the
      first cheapest entry of the whole list. */
  lemma {:induction false} NumericMinIsFirstCheapest(options: seq<RouteOption>)
    requires Numeric(options) != []
    ensures exists p :: IsFirstCheapest(options, p) && options[p] == Numeric(options)[MinIndex(Numeric(options))]
    decreases |options|
  {
    var n := |options| - 1;
    var init, last := options[..n], options[n];
    assert options == init + [last];
    var numeric := Numeric(options);
    if !last.Estimated? {
      assert numeric == Numeric(init);
      NumericMinIsFirstCheapest(init);
      var p :| IsFirstCheapest(init, p) && init[p] == Numeric(init)[MinIndex(Numeric(init))];
      FirstCheapestKept(init, last, p);
    } else if Numeric(init) == [] {
      assert numeric == [last];
      NumericMembers(init);
      forall j | 0 <= j < n
        ensures !init[j].Estimated?
      {
        assert init[j] in init;
      }
      FirstCheapestReplaced(init, last);
    } else {
      assert numeric == Numeric(init) + [last];
      assert numeric[..|numeric| - 1] == Numeric(init);
      NumericMinIsFirstCheapest(init);
      var p :| IsFirstCheapest(init, p) && init[p] == Numeric(init)[MinIndex(Numeric(init))];
      if last.totalFuel < init[p].totalFuel {
        assert numeric[MinIndex(numeric)] == last;
        FirstCheapestReplaced(init, last);
      } else {
        assert numeric[MinIndex(numeric)] == init[p];
        FirstCheapestKept(init, last, p);
      }
    }
  }

  /** An unknown aircraft type yields only the error marker, whatever the
      route files; a known one never does. */
  lemma OptimizeUnknownAircraft(aircraftType: string, routeFiles: seq<string>, aircrafts: map<string, Aircraft>,
                                load: string -> LoadResult)
    ensures Optimize(aircraftType, routeFiles, aircrafts, load).AircraftNotFound? <==> aircraftType !in aircrafts
    ensures aircraftType !in aircrafts ==>
              Optimize(aircraftType, routeFiles, aircrafts, load) == AircraftNotFound("Aircraft " + aircraftType + " not found")
  {
  }

  /** For a known aircraft the call aborts exactly when some route file exists
      but cannot be read, and it aborts on the first such file. */
  lemma OptimizeRaisesOnFirstMalformed(aircraftType: string, routeFiles: seq<string>, aircrafts: map<string, Aircraft>,
                                       load: string -> LoadResult)
    requires aircraftType in aircrafts
    ensures var r := Optimize(aircraftType, routeFiles, aircrafts, load);
            r.LoadRaised? <==> exists j :: 0 <= j < |routeFiles| && load(routeFiles[j]).Malformed?
    ensures var r := Optimize(aircraftType, routeFiles, aircrafts, load);
            r.LoadRaised? ==> exists k :: 0 <= k < |routeFiles| && routeFiles[k] == r.routeFile
                                          && load(routeFiles[k]).Malformed?
                                          && forall j :: 0 <= j < k ==> !load(routeFiles[j]).Malformed?
  {
  }

  /** The options follow the request: one entry per route file, in order, an
      error entry exactly for a missing file, and for every other file its
      estimate. */
  lemma OptimizeOptionsFollowRequest(aircraftType: string, routeFiles: seq<string>, aircrafts: map<string, Aircraft>,
                                     load: string -> LoadResult)
    requires aircraftType in aircrafts
    requires forall j :: 0 <= j < |routeFiles| ==> !load(routeFiles[j]).Malformed?
    ensures var r := Optimize(aircraftType, routeFiles, aircrafts, load);
            r.Compared? && r.aircraft == aircraftType && |r.options| == |routeFiles|
    ensures var r := Optimize(aircraftType, routeFiles, aircrafts, load);
            forall i :: 0 <= i < |routeFiles| ==>
              && r.options[i].routeFile == routeFiles[i]
              && (r.options[i].Failed? <==> load(routeFiles[i]).NotFound?)
              && (r.options[i].Failed? ==> r.options[i].error == FileNotFoundError)
              && (r.options[i].Estimated? ==>
                    && r.options[i].totalFuel == Round2(RawTotal(aircrafts[aircraftType], load(routeFiles[i]).route))
                    && r.options[i].segments == Reports(aircrafts[aircraftType], load(routeFiles[i]).route))
  {
  }

  /** Best selection over loaded entries: no best exactly when no entry was
      estimated, otherwise the first cheapest entry, annotated in place. */
  lemma CompareBestIsFirstCheapest(aircraftType: string, entries: seq<RouteOption>)
    ensures var r := Compare(aircraftType, entries);
            r.Compared? && |r.options| == |entries|
    ensures var r := Compare(aircraftType, entries);
            r.best.None? <==> forall i :: 0 <= i < |r.options| ==> r.options[i].Failed?
    ensures var r := Compare(aircraftType, entries);
            r.best.None? ==> r.bestTotalFuel.None? && r.options == entries
    ensures var r := Compare(aircraftType, entries);
            r.best.Some? ==> && r.bestTotalFuel == Some(r.best.value.totalFuel)
                             && exists p :: IsFirstCheapest(r.options, p) && r.options[p] == r.best.value
  {
    var r := Compare(aircraftType, entries);
    var numeric := Numeric(entries);
    NumericMembers(entries);
    if numeric == [] {
      forall i | 0 <= i < |r.options|
        ensures r.options[i].Failed?
      {
        assert entries[i] in entries;
      }
    } else {
      var best := numeric[MinIndex(numeric)];
      NumericMinIsFirstCheapest(entries);
      var p :| IsFirstCheapest(entries, p) && entries[p] == best;
      assert r.options[p] == r.best.value;
      assert IsFirstCheapest(r.options, p);
    }
  }

  /** Extra fuel over loaded entries whose totals are whole hundredths: exactly
      the difference of the totals, never negative, zero for the best. */
  lemma CompareExtraFuel(aircraftType: string, entries: seq<RouteOption>)
    requires forall i :: 0 <= i < |entries| && entries[i].Estimated? ==> IsCents(entries[i].totalFuel)
    requires Numeric(entries) != []
    ensures var r := Compare(aircraftType, entries);
            forall i :: 0 <= i < |r.options| && r.options[i].Estimated? ==>
              && r.options[i].extraVsBestKg == Some(r.options[i].totalFuel - r.best.value.totalFuel)
              && r.options[i].totalFuel - r.best.value.totalFuel >= 0.0
    ensures Compare(aircraftType, entries).best.value.extraVsBestKg == Some(0.0)
  {
    var numeric := Numeric(entries);
    var best := numeric[MinIndex(numeric)];
    assert Compare(aircraftType, entries)
        == Compared(aircraftType, AnnotateAll(entries, best.totalFuel), Some(Annotated(best, best.totalFuel)), Some(best.totalFuel));
    BestBelowEveryEntry(entries);
    AnnotateAllExact(entries, best.totalFuel);
    ExtraOverCheaper(best, best.totalFuel);
  }

  /** The first minimum of the filtered entries is a whole number of
      hundredths and no dearer than any estimated entry. */
  lemma BestBelowEveryEntry(entries: seq<RouteOption>)
    requires forall i :: 0 <= i < |entries| && entries[i].Estimated? ==> IsCents(entries[i].totalFuel)
    requires Numeric(entries) != []
    ensures var best := Numeric(entries)[MinIndex(Numeric(entries))];
            && best.Estimated? && IsCents(best.totalFuel)
            && forall i :: 0 <= i < |entries| && entries[i].Estimated? ==> best.totalFuel <= entries[i].totalFuel
  {
    var numeric := Numeric(entries);
    var best := numeric[MinIndex(numeric)];
    NumericMembers(entries);
    assert best in entries;
    forall i | 0 <= i < |entries| && entries[i].Estimated?
      ensures best.totalFuel <= entries[i].totalFuel
    {
      assert entries[i] in numeric;
    }
  }

  /** Annotating against a best total below every estimated total, all in
      whole hundredths, writes exactly the differences. */
  lemma AnnotateAllExact(entries: seq<RouteOption>, bestTotal: real)
    requires IsCents(bestTotal)
    requires forall i :: 0 <= i < |entries| && entries[i].Estimated? ==> IsCents(entries[i].totalFuel)
    requires forall i :: 0 <= i < |entries| && entries[i].Estimated? ==> bestTotal <= entries[i].totalFuel
    ensures var annotated := AnnotateAll(entries, bestTotal);
            forall i :: 0 <= i < |annotated| && annotated[i].Estimated? ==>
              && annotated[i].extraVsBestKg == Some(annotated[i].totalFuel - bestTotal)
              && annotated[i].totalFuel - bestTotal >= 0.0
  {
    forall i | 0 <= i < |entries| && entries[i].Estimated?
      ensures Annotated(entries[i], bestTotal).extraVsBestKg == Some(entries[i].totalFuel - bestTotal)
    {
      ExtraOverCheaper(entries[i], bestTotal);
    }
  }

  /** An estimated entry no cheaper than the best, both in whole hundredths,
      is annotated with exactly the difference of the totals. */
  lemma ExtraOverCheaper(option: RouteOption, bestTotal: real)
    requires option.Estimated? && IsCents(option.totalFuel) && IsCents(bestTotal)
    requires bestTotal <= option.totalFuel
    ensures Annotated(option, bestTotal).extraVsBestKg == Some(option.totalFuel - bestTotal)
  {
    CentsDifference(option.totalFuel, bestTotal);
    Round2OfCents(option.totalFuel - bestTotal);
  }

  /** Every estimated entry's total is a rounded figure. */
  lemma EntriesInCents(aircraft: Aircraft, routeFiles: seq<string>, load: string -> LoadResult)
    requires forall j :: 0 <= j < |routeFiles| ==> !load(routeFiles[j]).Malformed?
    ensures var entries := Entries(aircraft, routeFiles, load);
            forall i :: 0 <= i < |entries| && entries[i].Estimated? ==> IsCents(entries[i].totalFuel)
  {
  }

  /** No best exactly when every route failed; otherwise the best is the first
      cheapest of the estimated options, the very entry at that position. */
  lemma OptimizeBestIsFirstCheapest(aircraftType: string, routeFiles: seq<string>, aircrafts: map<string, Aircraft>,
                                    load: string -> LoadResult)
    requires Optimize(aircraftType, routeFiles, aircrafts, load).Compared?
    ensures var r := Optimize(aircraftType, routeFiles, aircrafts, load);
            r.best.None? <==> forall i :: 0 <= i < |r.options| ==> r.options[i].Failed?
    ensures var r := Optimize(aircraftType, routeFiles, aircrafts, load);
            r.best.None? ==> r.bestTotalFuel.None?
    ensures var r := Optimize(aircraftType, routeFiles, aircrafts, load);
            r.best.Some? ==> && r.bestTotalFuel == Some(r.best.value.totalFuel)
                             && exists p :: IsFirstCheapest(r.options, p) && r.options[p] == r.best.value
  {
    CompareBestIsFirstCheapest(aircraftType, Entries(aircrafts[aircraftType], routeFiles, load));
  }

  /** Every estimated option carries its extra fuel over the best: exactly the
      difference of the two totals, never negative, and zero for the best. */
  lemma OptimizeExtraFuel(aircraftType: string, routeFiles: seq<string>, aircrafts: map<string, Aircraft>,
                          load: string -> LoadResult)
    requires Optimize(aircraftType, routeFiles, aircrafts, load).Compared?
    requires Optimize(aircraftType, routeFiles, aircrafts, load).best.Some?
    ensures var r := Optimize(aircraftType, routeFiles, aircrafts, load);
            forall i :: 0 <= i < |r.options| && r.options[i].Estimated? ==>
              && r.options[i].extraVsBestKg == Some(r.options[i].totalFuel - r.best.value.totalFuel)
              && r.options[i].totalFuel - r.best.value.totalFuel >= 0.0
    ensures Optimize(aircraftType, routeFiles, aircrafts, load).best.value.extraVsBestKg == Some(0.0)
  {
    var entries := Entries(aircrafts[aircraftType], routeFiles, load);
    EntriesInCents(aircrafts[aircraftType], routeFiles, load);
    CompareExtraFuel(aircraftType, entries);
  }

  // Comparing two routes and a missing file for one aircraft.

  function ExampleAircraft(): Aircraft { Aircraft("A320", 800.0, 2500.0) }

  function ExampleRouteA(): seq<RouteSegment> { [RouteSegment("W1", 400.0, 0.0, 0.0)] }

  function ExampleRouteB(): seq<RouteSegment> { [RouteSegment("W1", 448.0, 0.0, 0.0)] }

  function ExampleLoad(routeFile: string): LoadResult
  {
    if routeFile == "a.csv" then Loaded(ExampleRouteA())
    else if routeFile == "b.csv" then Loaded(ExampleRouteB())
    else NotFound
  }

  /** Loading the three files of the example: two routes estimated at 1250 kg
      and 1400 kg, and an error entry for the missing file. */
  lemma TwoRoutesLoaded()
    ensures Optimize("A320", ["a.csv", "gone.csv", "b.csv"], map["A320" := ExampleAircraft()], ExampleLoad)
            == Compare("A320", [Estimated("a.csv", 1250.0, Reports(ExampleAircraft(), ExampleRouteA()), None),
                                Failed("gone.csv", "File not found"),
                                Estimated("b.csv", 1400.0, Reports(ExampleAircraft(), ExampleRouteB()), None)])
  {
    var a320, routeA, routeB := ExampleAircraft(), ExampleRouteA(), ExampleRouteB();
    var files := ["a.csv", "gone.csv", "b.csv"];
    assert FirstMalformed(files, ExampleLoad).None?;
    var a := Estimated("a.csv", 1250.0, Reports(a320, routeA), None);
    var gone := Failed("gone.csv", "File not found");
    var b := Estimated("b.csv", 1400.0, Reports(a320, routeB), None);
    assert Entry(a320, "a.csv", ExampleLoad) == a by {
      assert routeA[..0] == [];
      assert RawTotal(a320, routeA) == 1250.0;
      Round2OfCents(1250.0);
    }
    assert Entry(a320, "b.csv", ExampleLoad) == b by {
      assert routeB[..0] == [];
      assert RawTotal(a320, routeB) == 1400.0;
      Round2OfCents(1400.0);
    }
    assert Entries(a320, files, ExampleLoad) == [a, gone, b];
  }

  /** Comparing the loaded entries of the example: route A is best. */
  lemma TwoRoutesCompared(a: RouteOption, gone: RouteOption, b: RouteOption)
    requires a.Estimated? && a.totalFuel == 1250.0 && a.extraVsBestKg.None?
    requires gone.Failed?
    requires b.Estimated? && b.totalFuel == 1400.0 && b.extraVsBestKg.None?
    ensures Compare("A320", [a, gone, b])
            == Compared("A320", [a.(extraVsBestKg := Some(0.0)), gone, b.(extraVsBestKg := Some(150.0))],
                        Some(a.(extraVsBestKg := Some(0.0))), Some(1250.0))
  {
    assert Numeric([a, gone, b]) == [a, b] by {
      assert [a, gone, b][..2] == [a, gone] && [a, gone][..1] == [a] && [a][..0] == [];
      assert Numeric([a]) == [a];
      assert Numeric([a, gone]) == [a];
    }
    assert MinIndex([a, b]) == 0 by {
      assert [a, b][..1] == [a];
    }
    Round2OfCents(150.0);
    Round2OfCents(0.0);
    assert AnnotateAll([a, gone, b], 1250.0) == [a.(extraVsBestKg := Some(0.0)), gone, b.(extraVsBestKg := Some(150.0))];
  }

  /** Route A (1250 kg) is best with no extra fuel, route B (1400 kg) carries
      150 kg extra, and the missing file stays in place as an error entry. */
  lemma TwoRoutesExample()
    ensures var r := Optimize("A320", ["a.csv", "gone.csv", "b.csv"], map["A320" := ExampleAircraft()], ExampleLoad);
            && r.Compared?
            && r.options == [Estimated("a.csv", 1250.0, Reports(ExampleAircraft(), ExampleRouteA()), Some(0.0)),
                             Failed("gone.csv", "File not found"),
                             Estimated("b.csv", 1400.0, Reports(ExampleAircraft(), ExampleRouteB()), Some(150.0))]
            && r.best == Some(r.options[0])
            && r.bestTotalFuel == Some(1250.0)
  {
    TwoRoutesLoaded();
    TwoRoutesCompared(Estimated("a.csv", 1250.0, Reports(ExampleAircraft(), ExampleRouteA()), None),
                      Failed("gone.csv", "File not found"),
                      Estimated("b.csv", 1400.0, Reports(ExampleAircraft(), ExampleRouteB()), None));
  }
}
