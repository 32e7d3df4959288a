/**
  The batch loop of scripts/functions.py: every point gets the date range of
  its month and three weather averages for its coordinates over that range.
  The archive lookup itself is a parameter; only the loop's handling of the
  points is modelled.
 */
module Enrichment {
  import opened Wrappers
  import opened MonthResolver

  /** A JSON value as the points file holds it. */
  datatype Value =
    | Null
    | Bool(b: bool)
    | Number(n: real)
    | Str(s: string)
    | Array(items: seq<Value>)
    | Object(fields: map<string, Value>)

  /** A point is one JSON object of the input array. */
  type Point = map<string, Value>

  /** The three averages the archive lookup returns, already formatted as text. */
  datatype Summary = Summary(avgTemp: string, avgRain: string, avgWind: string)

  /** The archive lookup: latitude, longitude, first date, last date. */
  type WeatherLookup = (Value, Value, string, string) -> Summary

  /** Why a run stops: a missing required key, or a month that is not text. */
  datatype EnrichError =
    | MissingKey(key: string)
    | MonthNotText(month: Value)

  const MonthKey := "month"
  const LatKey := "lat"
  const LngKey := "lng"
  const TempKey := "avg_temp"
  const RainKey := "avg_rain"
  const WindKey := "avg_wind"

  /** The keys the loop writes into every point. */
  const AddedKeys: set<string> := {TempKey, RainKey, WindKey}

  /** A point the loop can enrich: a text month or none, and both coordinates. */
  predicate Enrichable(p: Point) {
    (MonthKey in p ==> p[MonthKey].Str?) && LatKey in p && LngKey in p
  }

  /** The error a point that cannot be enriched raises: the month is lower-cased
      before the coordinates are read, and the latitude is read before the longitude. */
  function Problem(p: Point): EnrichError
    requires !Enrichable(p)
  {
    if MonthKey in p && !p[MonthKey].Str? then MonthNotText(p[MonthKey])
    else if LatKey !in p then MissingKey(LatKey)
    else MissingKey(LngKey)
  }

  /** The month text of a point, the empty text when it has none. */
  function MonthText(p: Point): string
    requires MonthKey in p ==> p[MonthKey].Str?
  {
    if MonthKey in p then p[MonthKey].s else ""
  }

  /** What the loop does to one point: its month is lower-cased (only text has a
      lower-case form), resolved to a range, and the lookup's three averages for
      the point's coordinates over that range are written into the point. */
  function EnrichPoint(p: Point, weather: WeatherLookup): (r: Result<Point, EnrichError>)
    ensures r.Success? <==> Enrichable(p)
    ensures r.Failure? ==> r.error == Problem(p)
    ensures r.Success? ==> r.value.Keys == p.Keys + AddedKeys
    ensures r.Success? ==> forall k :: k in p && k !in AddedKeys ==> r.value[k] == p[k]
    ensures r.Success? ==>
      var range := ResolveMonth(MonthText(p));
      var w := weather(p[LatKey], p[LngKey], range.start, range.end);
      r.value[TempKey] == Str(w.avgTemp) && r.value[RainKey] == Str(w.avgRain) &&
      r.value[WindKey] == Str(w.avgWind)
  {
    var month :- LoweredMonth(p);
    var range := RangeFor(month);
    if LatKey !in p then Failure(MissingKey(LatKey))
    else if LngKey !in p then Failure(MissingKey(LngKey))
    else
      var w := weather(p[LatKey], p[LngKey], range.start, range.end);
      Success(p[TempKey := Str(w.avgTemp)][RainKey := Str(w.avgRain)][WindKey := Str(w.avgWind)])
  }

  /** `point.get('month', '').lower()`: fails on a month that is not text. */
  function LoweredMonth(p: Point): (r: Result<string, EnrichError>)
    ensures r.Success? <==> (MonthKey in p ==> p[MonthKey].Str?)
    ensures r.Success? ==> r.value == Lower(MonthText(p))
    ensures r.Failure? ==> r.error == MonthNotText(p[MonthKey])
  {
    if MonthKey !in p then Success(Lower(""))
    else match p[MonthKey]
      case Str(s) => Success(Lower(s))
      case v => Failure(MonthNotText(v))
  }

  // The loop's control: apply a step to each element in order, stop at the first failure

  function MapUntilFailure<T, U, E>(xs: seq<T>, step: T -> Result<U, E>): Result<seq<U>, E>
  {
    if xs == [] then Success([])
    else
      var done :- MapUntilFailure(xs[..|xs| - 1], step);
      var last :- step(xs[|xs| - 1]);
      Success(done + [last])
  }

  /** It succeeds exactly when every step does; then the output has the input's
      length and order, the step's result for element i at position i. */
  lemma {:induction false} MapUntilFailureSucceeds<T, U, E>(xs: seq<T>, step: T -> Result<U, E>)
    ensures MapUntilFailure(xs, step).Success? <==> forall i :: 0 <= i < |xs| ==> step(xs[i]).Success?
    ensures MapUntilFailure(xs, step).Success? ==>
      var out := MapUntilFailure(xs, step).value;
      |out| == |xs| && forall i :: 0 <= i < |xs| ==> step(xs[i]) == Success(out[i])
  {
    if xs != [] {
      var n := |xs| - 1;
      MapUntilFailureSucceeds(xs[..n], step);
      assert forall i :: 0 <= i < n ==> xs[..n][i] == xs[i];
    }
  }

  /** Once a prefix fails, the whole run fails with the prefix's error. */
  lemma {:induction false} MapUntilFailureSticks<T, U, E>(xs: seq<T>, n: nat, step: T -> Result<U, E>)
    requires n <= |xs| && MapUntilFailure(xs[..n], step).Failure?
    ensures MapUntilFailure(xs, step) == MapUntilFailure(xs[..n], step)
  {
    if n < |xs| {
      var init := xs[..|xs| - 1];
      assert init[..n] == xs[..n];
      MapUntilFailureSticks(init, n, step);
    } else {
      assert xs[..n] == xs;
    }
  }

  /** The first failing step decides the run's error. */
  lemma MapUntilFailureFirstError<T, U, E>(xs: seq<T>, k: nat, step: T -> Result<U, E>)
    requires k < |xs| && step(xs[k]).Failure?
    requires forall i :: 0 <= i < k ==> step(xs[i]).Success?
    ensures MapUntilFailure(xs, step) == Failure(step(xs[k]).error)
  {
    var prefix := xs[..k];
    MapUntilFailureSucceeds(prefix, step);
    assert xs[..k + 1][..k] == prefix;
    MapUntilFailureSticks(xs, k + 1, step);
  }

  // The batch run

  /** One iteration of the loop, as a step of the batch. */
  function EnrichStep(weather: WeatherLookup): Point -> Result<Point, EnrichError>
  {
    p => EnrichPoint(p, weather)
  }

  /** The whole run on values: points in order, the first failing point stops it. */
  function EnrichAll(points: seq<Point>, weather: WeatherLookup): Result<seq<Point>, EnrichError>
  {
    MapUntilFailure(points, EnrichStep(weather))
  }

  /** The run succeeds exactly when every point is enrichable; then output point i
      is input point i with the three averages set and every other key unchanged. */
  lemma EnrichAllSucceeds(points: seq<Point>, weather: WeatherLookup)
    ensures EnrichAll(points, weather).Success? <==>
      forall i :: 0 <= i < |points| ==> Enrichable(points[i])
    ensures EnrichAll(points, weather).Success? ==>
      var out := EnrichAll(points, weather).value;
      |out| == |points| &&
      forall i :: 0 <= i < |points| ==> Success(out[i]) == EnrichPoint(points[i], weather)
  {
    MapUntilFailureSucceeds(points, EnrichStep(weather));
  }

  /** The first point that cannot be enriched decides the run's error. */
  lemma EnrichAllFirstError(points: seq<Point>, k: nat, weather: WeatherLookup)
    requires k < |points| && !Enrichable(points[k])
    requires forall i :: 0 <= i < k ==> Enrichable(points[i])
    ensures EnrichAll(points, weather) == Failure(Problem(points[k]))
  {
    MapUntilFailureFirstError(points, k, EnrichStep(weather));
  }

  /** Enriching an enriched point again changes nothing. */
  lemma EnrichPointIdempotent(p: Point, weather: WeatherLookup)
    requires Enrichable(p)
    ensures EnrichPoint(EnrichPoint(p, weather).value, weather) == EnrichPoint(p, weather)
  {
    var q := EnrichPoint(p, weather).value;
    assert MonthKey !in AddedKeys && LatKey !in AddedKeys && LngKey !in AddedKeys;
    assert MonthText(q) == MonthText(p) && q[LatKey] == p[LatKey] && q[LngKey] == p[LngKey];
    EnrichPointWrites(q, weather);
    RewriteSameValues(q, q[TempKey], q[RainKey], q[WindKey]);
  }

  /** Writing back the values a point already holds leaves it as it is. */
  lemma RewriteSameValues(q: Point, t: Value, r: Value, w: Value)
    requires TempKey in q && RainKey in q && WindKey in q
    requires q[TempKey] == t && q[RainKey] == r && q[WindKey] == w
    ensures q[TempKey := t][RainKey := r][WindKey := w] == q
  {
  }

  /** Running the batch on its own output gives the same output. */
  lemma EnrichAllIdempotent(points: seq<Point>, weather: WeatherLookup)
    requires EnrichAll(points, weather).Success?
    ensures EnrichAll(EnrichAll(points, weather).value, weather) == EnrichAll(points, weather)
  {
    var step := EnrichStep(weather);
    var out := EnrichAll(points, weather).value;
    MapUntilFailureSucceeds(points, step);
    forall i | 0 <= i < |out| ensures step(out[i]) == Success(out[i]) {
      EnrichPointIdempotent(points[i], weather);
    }
    MapUntilFailureSucceeds(out, step);
    assert MapUntilFailure(out, step).value == out;
  }

  /** The run over a prefix grows by one point when that point is enriched. */
  lemma EnrichAllExtends(points: seq<Point>, i: nat, weather: WeatherLookup, done: seq<Point>)
    requires i < |points| && EnrichAll(points[..i], weather) == Success(done)
    requires Enrichable(points[i])
    ensures EnrichAll(points[..i + 1], weather) == Success(done + [EnrichPoint(points[i], weather).value])
  {
    assert points[..i + 1][..i] == points[..i];
  }

  /** The loop's view of `EnrichAllFirstError`: after a successful prefix, the
      next point that cannot be enriched stops the run with its error. */
  lemma EnrichAllStops(points: seq<Point>, i: nat, weather: WeatherLookup)
    requires i < |points| && EnrichAll(points[..i], weather).Success?
    requires !Enrichable(points[i])
    ensures EnrichAll(points, weather) == Failure(Problem(points[i]))
  {
    EnrichAllSucceeds(points[..i], weather);
    assert forall j :: 0 <= j < i ==> points[..i][j] == points[j];
    EnrichAllFirstError(points, i, weather);
  }

  /** The point the loop body builds is the enriched point. */
  lemma EnrichPointWrites(p: Point, weather: WeatherLookup)
    requires Enrichable(p)
    ensures
      var range := RangeFor(Lower(MonthText(p)));
      var w := weather(p[LatKey], p[LngKey], range.start, range.end);
      EnrichPoint(p, weather) ==
        Success(p[TempKey := Str(w.avgTemp)][RainKey := Str(w.avgRain)][WindKey := Str(w.avgWind)])
  {
  }

  /** The loop: each point in input order is enriched and appended to the output;
      a point missing a required key, or with a month that is not text, stops it. */
  method EnrichPoints(allPoints: seq<Point>, weather: WeatherLookup)
    returns (r: Result<seq<Point>, EnrichError>)
    ensures r == EnrichAll(allPoints, weather)
  {
    var updatedPoints: seq<Point> := [];
    var i := 0;
    while i < |allPoints|
      invariant 0 <= i <= |allPoints|
      invariant EnrichAll(allPoints[..i], weather) == Success(updatedPoints)
    {
      var point := allPoints[i];
      var month := LoweredMonth(point);
      if month.Failure? {
        EnrichAllStops(allPoints, i, weather);
        return Failure(month.error);
      }
      if LatKey !in point {
        EnrichAllStops(allPoints, i, weather);
        return Failure(MissingKey(LatKey));
      }
      if LngKey !in point {
        EnrichAllStops(allPoints, i, weather);
        return Failure(MissingKey(LngKey));
      }
      var range := RangeFor(month.value);
      var summary := weather(point[LatKey], point[LngKey], range.start, range.end);
      point := point[TempKey := Str(summary.avgTemp)];
      point := point[RainKey := Str(summary.avgRain)];
      point := point[WindKey := Str(summary.avgWind)];
      EnrichPointWrites(allPoints[i], weather);
      EnrichAllExtends(allPoints, i, weather, updatedPoints);
      updatedPoints := updatedPoints + [point];
      i := i + 1;
    }
    assert allPoints[..i] == allPoints;
    r := Success(updatedPoints);
  }
}
