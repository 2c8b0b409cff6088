/** The geopoints of demo/objects/geopoints.c. */
module Geopoints {
  import opened ErrorCodes
  import opened Options
  import opened Doubles
  import opened InstanceRegistry

  datatype Geopoint = Geopoint(latitude: Double, longitude: Double, radius: Double, description: string, inside: bool,
                               hasLatitude: bool, hasLongitude: bool, hasRadius: bool)

  /** A write as the handler sees it: the resource, and either the value read or an error. */
  datatype GeoWrite =
    | Latitude(value: Double, error: int)
    | Longitude(value: Double, error: int)
    | Radius(value: Double, error: int)
    | Description(text: string, error: int)
    | Inside

  const BLANK: Geopoint := Geopoint(Finite(0.0), Finite(0.0), Finite(0.0), "", false, false, false, false)

  predicate RadiusValid(d: Double) { d.Finite? && d.value >= 0.0 }

  /** geopoints_resource_write. */
  function Written(g: Geopoint, w: GeoWrite): (Geopoint, int) {
    match w
    case Latitude(v, error) =>
      if error != 0 then (g, error) else if !LatitudeValid(v) then (g, ERR_BAD_REQUEST)
      else (g.(latitude := v, hasLatitude := true), 0)
    case Longitude(v, error) =>
      if error != 0 then (g, error) else if !LongitudeValid(v) then (g, ERR_BAD_REQUEST)
      else (g.(longitude := v, hasLongitude := true), 0)
    case Radius(v, error) =>
      if error != 0 then (g, error) else if !RadiusValid(v) then (g, ERR_BAD_REQUEST)
      else (g.(radius := v, hasRadius := true), 0)
    case Description(text, error) => if error != 0 then (g, error) else (g.(description := text), 0)
    case Inside => (g, ERR_METHOD_NOT_ALLOWED)
  }

  /** What transaction_validate looks at. */
  predicate Complete(g: Geopoint) { g.hasLatitude && g.hasLongitude && g.hasRadius }

  /** What is present is in range. */
  predicate InRange(g: Geopoint) {
    && (g.hasLatitude ==> LatitudeValid(g.latitude))
    && (g.hasLongitude ==> LongitudeValid(g.longitude))
    && (g.hasRadius ==> RadiusValid(g.radius))
  }

  /** A proper geopoint: everything present and in range. */
  predicate Proper(g: Geopoint) { LatitudeValid(g.latitude) && LongitudeValid(g.longitude) && RadiusValid(g.radius) && Complete(g) }

  const GEOPOINT_RULES: Rules<Geopoint, GeoWrite> :=
    Rules(BLANK, (g: Geopoint) => BLANK, (g: Geopoint, w: GeoWrite) => Written(g, w), (g: Geopoint) => Complete(g))

  lemma RangesKept()
    ensures Kept(GEOPOINT_RULES, InRange)
  {}

  /** A write is accepted if and only if its value could be read and is finite and in range; the result says what failed. */
  lemma WriteDecided(g: Geopoint, w: GeoWrite)
    ensures var (h, r) := Written(g, w);
            && (r != 0 ==> h == g)
            && match w
               case Latitude(v, e) =>
                 (r == 0 <==> e == 0 && v.Finite? && -90.0 <= v.value <= 90.0) && (r != 0 ==> r == if e != 0 then e else ERR_BAD_REQUEST)
               case Longitude(v, e) =>
                 (r == 0 <==> e == 0 && v.Finite? && -180.0 <= v.value < 180.0) && (r != 0 ==> r == if e != 0 then e else ERR_BAD_REQUEST)
               case Radius(v, e) =>
                 (r == 0 <==> e == 0 && v.Finite? && 0.0 <= v.value) && (r != 0 ==> r == if e != 0 then e else ERR_BAD_REQUEST)
               case Description(_, e) => r == e
               case Inside => r == ERR_METHOD_NOT_ALLOWED
  {}

  // ---------------------------------------------------------------- what is read back

  const LATITUDE: Resource<Geopoint, GeoWrite, Option<Double>> :=
    Resource((g: Geopoint) => if g.hasLatitude then Some(g.latitude) else None,
             (w: GeoWrite) => match w case Latitude(v, _) => Some(Some(v)) case _ => None, None)
  const LONGITUDE: Resource<Geopoint, GeoWrite, Option<Double>> :=
    Resource((g: Geopoint) => if g.hasLongitude then Some(g.longitude) else None,
             (w: GeoWrite) => match w case Longitude(v, _) => Some(Some(v)) case _ => None, None)
  const RADIUS: Resource<Geopoint, GeoWrite, Option<Double>> :=
    Resource((g: Geopoint) => if g.hasRadius then Some(g.radius) else None,
             (w: GeoWrite) => match w case Radius(v, _) => Some(Some(v)) case _ => None, None)
  const DESCRIPTION: Resource<Geopoint, GeoWrite, string> :=
    Resource((g: Geopoint) => g.description,
             (w: GeoWrite) => match w case Description(text, _) => Some(text) case _ => None, "")

  /** Every resource holds what was written to it last since the instance was created or reset. */
  ghost predicate RememberedAll(before: map<nat, Geopoint>, ops: seq<Op<GeoWrite>>, after: map<nat, Geopoint>) {
    && Remembered(LATITUDE, before, ops, after) && Remembered(LONGITUDE, before, ops, after)
    && Remembered(RADIUS, before, ops, after) && Remembered(DESCRIPTION, before, ops, after)
    && (forall iid: nat :: iid in after <==> Exists(iid in before, ops, iid))
  }

  lemma CentreObeyed()
    ensures Obeys(GEOPOINT_RULES, LATITUDE) && Obeys(GEOPOINT_RULES, LONGITUDE)
  {}

  lemma AreaObeyed()
    ensures Obeys(GEOPOINT_RULES, RADIUS) && Obeys(GEOPOINT_RULES, DESCRIPTION)
  {}

  lemma LatestWins(view: map<nat, Geopoint>, ops: seq<Op<GeoWrite>>)
    requires AppliedAll(GEOPOINT_RULES, view, ops).Some?
    ensures RememberedAll(view, ops, AppliedAll(GEOPOINT_RULES, view, ops).value)
  {
    CentreObeyed();
    AreaObeyed();
    AppliedRemembers(GEOPOINT_RULES, LATITUDE, view, ops);
    AppliedRemembers(GEOPOINT_RULES, LONGITUDE, view, ops);
    AppliedRemembers(GEOPOINT_RULES, RADIUS, view, ops);
    AppliedRemembers(GEOPOINT_RULES, DESCRIPTION, view, ops);
    forall iid: nat ensures iid in AppliedAll(GEOPOINT_RULES, view, ops).value <==> Exists(iid in view, ops, iid) {
      LatestExistence(GEOPOINT_RULES, view, ops, iid);
    }
  }

  /** Complete and in range together are what makes a geopoint proper. */
  lemma ProperEverywhere(view: map<nat, Geopoint>)
    ensures Each(view, Proper) <==> Each(view, InRange) && Each(view, GEOPOINT_RULES.complete)
  {
    forall id | id in view ensures Proper(view[id]) <==> InRange(view[id]) && GEOPOINT_RULES.complete(view[id]) {}
  }

  /**
   * Between transactions every geopoint has latitude, longitude and radius, all in range, and every resource holds the
   * value of the latest write to it in a transaction that succeeded.
   */
  method RunTransactions(points: Registry<Geopoint, GeoWrite>, transactions: seq<seq<Op<GeoWrite>>>) returns (results: seq<int>)
    requires points.Valid() && points.Idle() && points.rules == GEOPOINT_RULES && Each(points.live.view, Proper)
    modifies points, points.heap
    ensures points.Valid() && points.Idle() && Each(points.live.view, Proper)
    ensures |results| == |transactions| && points.live.view == Committed(GEOPOINT_RULES, old(points.live.view), transactions, results)
    ensures RememberedAll(old(points.live.view), Accepted(transactions, results), points.live.view)
  {
    ProperEverywhere(points.live.view);
    RangesKept();
    results := points.Run(transactions, InRange);
    LatestWins(old(points.live.view), Accepted(transactions, results));
    ProperEverywhere(points.live.view);
  }
}
