/** Normalisation of coordinates in demo/objects/location.c, over exact reals. */
module Location {
  import opened Doubles

  // ---------------------------------------------------------------- angles

  function Trunc(x: real): int { if x >= 0.0 then x.Floor else -(-x).Floor }

  /** fmod(x, 360.0): the remainder has the sign of x. */
  function Fmod(x: real): real { x - 360.0 * Trunc(x / 360.0) as real }

  function Angle(x: real): real { Fmod(Fmod(x + 180.0) + 360.0) - 180.0 }

  /** The same angle, up to full turns. */
  ghost predicate Congruent(x: real, y: real) { exists k: int :: Turns(x, y, k) }

  ghost predicate Turns(x: real, y: real, k: int) { x - y == 360.0 * k as real }

  lemma FmodSpec(x: real)
    ensures Turns(x, Fmod(x), Trunc(x / 360.0)) && -360.0 < Fmod(x) < 360.0 && (x >= 0.0 ==> Fmod(x) >= 0.0)
  {
    var q := x / 360.0;
    if x >= 0.0 {
      assert q.Floor as real <= q < q.Floor as real + 1.0;
    } else {
      assert (-q).Floor as real <= -q < (-q).Floor as real + 1.0;
    }
  }

  /** normalize_angle: in range, and the same angle. */
  lemma AngleSpec(x: real)
    ensures -180.0 <= Angle(x) < 180.0 && Congruent(Angle(x), x)
  {
    var a := Fmod(x + 180.0);
    FmodSpec(x + 180.0);
    FmodSpec(a + 360.0);
    assert Turns(Angle(x), x, 1 - Trunc((x + 180.0) / 360.0) - Trunc((a + 360.0) / 360.0));
  }

  lemma CongruentSym(x: real, y: real)
    requires Congruent(x, y)
    ensures Congruent(y, x)
  {
    var k :| Turns(x, y, k);
    assert Turns(y, x, -k);
  }

  lemma CongruentTrans(x: real, y: real, z: real)
    requires Congruent(x, y) && Congruent(y, z)
    ensures Congruent(x, z)
  {
    var j :| Turns(x, y, j);
    var k :| Turns(y, z, k);
    assert Turns(x, z, j + k);
  }

  /** Adding the same amount, or mirroring, keeps angles the same. */
  lemma CongruentMoved(x: real, y: real, d: real)
    requires Congruent(x, y)
    ensures Congruent(x + d, y + d) && Congruent(d - x, d - y) && Congruent(x, y + 360.0)
  {
    var k :| Turns(x, y, k);
    assert Turns(x + d, y + d, k) && Turns(d - x, d - y, -k) && Turns(x, y + 360.0, k - 1);
  }

  /** In that range every angle has one name only. */
  lemma AngleUnique(x: real, y: real)
    requires -180.0 <= x < 180.0 && -180.0 <= y < 180.0 && Congruent(x, y)
    ensures x == y
  {
    var k :| Turns(x, y, k);
    assert -1 < k < 1;
  }

  // ---------------------------------------------------------------- points

  type Point = (real, real)

  /** Latitude and longitude name the same point: equal up to full turns, or reached over a pole from the other side. */
  ghost predicate SamePoint(p: Point, q: Point) {
    || (Congruent(p.0, q.0) && Congruent(p.1, q.1))
    || (Congruent(p.0, 180.0 - q.0) && Congruent(p.1, q.1 + 180.0))
  }

  lemma SamePointSym(p: Point, q: Point)
    requires SamePoint(p, q)
    ensures SamePoint(q, p)
  {
    if Congruent(p.0, q.0) && Congruent(p.1, q.1) {
      CongruentSym(p.0, q.0);
      CongruentSym(p.1, q.1);
    } else {
      CongruentMoved(p.0, 180.0 - q.0, 180.0);
      CongruentSym(180.0 - p.0, 180.0 - (180.0 - q.0));
      CongruentMoved(p.1, q.1 + 180.0, 180.0);
      Sym180(p.1, q.1);
    }
  }

  lemma Sym180(x: real, y: real)
    requires Congruent(x, y + 180.0)
    ensures Congruent(y, x + 180.0)
  {
    var k :| Turns(x, y + 180.0, k);
    assert Turns(y, x + 180.0, -k - 1);
  }

  lemma SamePointTrans(p: Point, q: Point, r: Point)
    requires SamePoint(p, q) && SamePoint(q, r)
    ensures SamePoint(p, r)
  {
    if Congruent(p.0, q.0) && Congruent(p.1, q.1) {
      if Congruent(q.0, r.0) && Congruent(q.1, r.1) {
        CongruentTrans(p.0, q.0, r.0);
        CongruentTrans(p.1, q.1, r.1);
      } else {
        CongruentTrans(p.0, q.0, 180.0 - r.0);
        CongruentTrans(p.1, q.1, r.1 + 180.0);
      }
    } else {
      if Congruent(q.0, r.0) && Congruent(q.1, r.1) {
        CongruentMoved(q.0, r.0, 180.0);
        CongruentMoved(q.1, r.1, 180.0);
        CongruentTrans(p.0, 180.0 - q.0, 180.0 - r.0);
        CongruentTrans(p.1, q.1 + 180.0, r.1 + 180.0);
      } else {
        TwiceOver(p, q, r);
      }
    }
  }

  /** Over a pole and back again. */
  lemma TwiceOver(p: Point, q: Point, r: Point)
    requires Congruent(p.0, 180.0 - q.0) && Congruent(p.1, q.1 + 180.0)
    requires Congruent(q.0, 180.0 - r.0) && Congruent(q.1, r.1 + 180.0)
    ensures Congruent(p.0, r.0) && Congruent(p.1, r.1)
  {
    var a :| Turns(p.0, 180.0 - q.0, a);
    var b :| Turns(p.1, q.1 + 180.0, b);
    var c :| Turns(q.0, 180.0 - r.0, c);
    var d :| Turns(q.1, r.1 + 180.0, d);
    assert Turns(p.0, r.0, a - c) && Turns(p.1, r.1, b + d + 1);
  }

  // ---------------------------------------------------------------- normalisation

  function Normal(p: Point): Point {
    var lon, lat := Angle(p.1), Angle(p.0);
    if lat > 90.0 then (180.0 - lat, Angle(lon + 180.0))
    else if lat < -90.0 then (-180.0 - lat, Angle(lon + 180.0))
    else (lat, lon)
  }

  ghost predicate Canonical(p: Point) { -90.0 <= p.0 <= 90.0 && -180.0 <= p.1 < 180.0 }

  /** The result is in range and names the same point. */
  lemma NormalSpec(p: Point)
    ensures Canonical(Normal(p)) && SamePoint(Normal(p), p)
  {
    var lat, lon := Angle(p.0), Angle(p.1);
    AngleSpec(p.0);
    AngleSpec(p.1);
    if lat > 90.0 || lat < -90.0 {
      AngleSpec(lon + 180.0);
      CongruentMoved(lon, p.1, 180.0);
      CongruentTrans(Angle(lon + 180.0), lon + 180.0, p.1 + 180.0);
      var k :| Turns(lat, p.0, k);
      assert Turns(180.0 - lat, 180.0 - p.0, -k) && Turns(-180.0 - lat, 180.0 - p.0, -k - 1);
    }
  }

  ghost predicate AtPole(p: Point) { p.0 == 90.0 || p.0 == -90.0 }

  /** Off the poles, a point has one canonical name. */
  lemma CanonicalUnique(p: Point, q: Point)
    requires Canonical(p) && Canonical(q) && SamePoint(p, q) && !AtPole(p)
    ensures p == q
  {
    NotMirrored(p.0, q.0);
    AngleUnique(p.0, q.0);
    AngleUnique(p.1, q.1);
  }

  lemma NotMirrored(x: real, y: real)
    requires -90.0 < x < 90.0 && -90.0 <= y <= 90.0
    ensures !Congruent(x, 180.0 - y)
  {
    var z := 180.0 - y;
    assert -360.0 < x - z < 0.0;
    forall k: int ensures !Turns(x, z, k) {
      if k >= 0 { assert 360.0 * k as real >= 0.0; } else { assert 360.0 * k as real <= -360.0; }
    }
  }

  lemma AngleKept(x: real)
    requires -180.0 <= x < 180.0
    ensures Angle(x) == x
  {
    AngleSpec(x);
    AngleUnique(Angle(x), x);
  }

  /** A latitude in range is kept, and then a longitude in range is kept too. */
  lemma InRangeKept(p: Point)
    requires -90.0 <= p.0 <= 90.0
    ensures Normal(p).0 == p.0 && (-180.0 <= p.1 < 180.0 ==> Normal(p) == p)
  {
    AngleKept(p.0);
    if -180.0 <= p.1 < 180.0 { AngleKept(p.1); }
  }

  /** Normalising twice changes nothing more, at the poles either. */
  lemma NormalIdempotent(p: Point)
    ensures Normal(Normal(p)) == Normal(p)
  {
    NormalSpec(p);
    InRangeKept(Normal(p));
  }

  /** Off the poles, two coordinates name the same point if and only if they normalise to the same. */
  lemma DecidedOffPoles(p: Point, q: Point)
    requires !AtPole(Normal(p))
    ensures Normal(p) == Normal(q) <==> SamePoint(p, q)
  {
    NormalSpec(p);
    NormalSpec(q);
    SamePointSym(Normal(p), p);
    SamePointSym(Normal(q), q);
    if SamePoint(p, q) {
      SamePointTrans(Normal(p), p, q);
      SamePointTrans(Normal(p), q, Normal(q));
      CanonicalUnique(Normal(p), Normal(q));
    }
    if Normal(p) == Normal(q) {
      SamePointTrans(p, Normal(p), q);
    }
  }

  /** A latitude that names a pole, whatever the longitude. */
  ghost predicate PoleLatitude(x: real) { Congruent(x, 90.0) || Congruent(x, -90.0) }

  lemma AngleIs(x: real, r: real)
    requires -180.0 <= r < 180.0
    ensures Angle(x) == r <==> Congruent(x, r)
  {
    AngleSpec(x);
    CongruentSym(Angle(x), x);
    if Congruent(x, r) {
      CongruentTrans(Angle(x), x, r);
      AngleUnique(Angle(x), r);
    }
  }

  /** Normalisation ends at a pole exactly for the inputs that start at one. */
  lemma PoleExactly(p: Point)
    ensures AtPole(Normal(p)) <==> PoleLatitude(p.0)
  {
    AngleSpec(p.0);
    AngleIs(p.0, 90.0);
    AngleIs(p.0, -90.0);
  }

  lemma OppositeAngles(x: real)
    ensures Angle(x) != Angle(x + 180.0)
  {
    AngleSpec(x);
    AngleSpec(x + 180.0);
    var j :| Turns(Angle(x), x, j);
    var k :| Turns(Angle(x + 180.0), x + 180.0, k);
    assert Angle(x) - Angle(x + 180.0) == 360.0 * (j - k) as real - 180.0;
  }

  /** At a pole the longitude survives: half a turn gives another name of the same point, and the two normalise differently. */
  lemma PoleKeepsLongitude(p: Point)
    requires PoleLatitude(p.0)
    ensures SamePoint(p, (p.0, p.1 + 180.0)) && Normal(p) != Normal((p.0, p.1 + 180.0))
  {
    if Congruent(p.0, 90.0) {
      var k :| Turns(p.0, 90.0, k);
      assert Turns(p.0, 180.0 - p.0, 2 * k);
    } else {
      var k :| Turns(p.0, -90.0, k);
      assert Turns(p.0, 180.0 - p.0, 2 * k - 1);
    }
    assert Turns(p.1, p.1 + 180.0 + 180.0, -1);
    AngleIs(p.0, 90.0);
    AngleIs(p.0, -90.0);
    OppositeAngles(p.1);
  }

  lemma NorthPole()
    ensures SamePoint((90.0, 0.0), (90.0, 180.0)) && Normal((90.0, 0.0)) != Normal((90.0, 180.0))
  {
    assert Turns(90.0, 90.0, 0);
    PoleKeepsLongitude((90.0, 0.0));
  }

  /** The normal form decides a point against all others if and only if its latitude names no pole. */
  lemma NormalDecides(p: Point)
    ensures (forall q: Point :: Normal(p) == Normal(q) <==> SamePoint(p, q)) <==> !PoleLatitude(p.0)
  {
    PoleExactly(p);
    if PoleLatitude(p.0) {
      PoleKeepsLongitude(p);
    } else {
      forall q: Point ensures Normal(p) == Normal(q) <==> SamePoint(p, q) {
        DecidedOffPoles(p, q);
      }
    }
  }

  // ---------------------------------------------------------------- the code

  /** What the code substitutes for coordinates that are not finite. */
  function FiniteLongitude(d: Double): real { if d.Finite? then d.value else 0.0 }

  function FiniteLatitude(d: Double): real {
    match d case Finite(v) => v case Infinite(negative) => (if negative then -90.0 else 90.0) case NaN => 90.0
  }

  /**
   * Valid coordinates are left alone; minus infinity and anything else that is no latitude become the poles, and what is no
   * longitude becomes 0.
   */
  lemma SpecialInputs(latitude: Double, longitude: Double)
    ensures var n := Normal((FiniteLatitude(latitude), FiniteLongitude(longitude)));
            && (LatitudeValid(latitude) && LongitudeValid(longitude) ==> n == (latitude.value, longitude.value))
            && (!latitude.Finite? ==> n.0 == if latitude == Infinite(true) then -90.0 else 90.0)
            && (!longitude.Finite? && (latitude.Finite? ==> LatitudeValid(latitude)) ==> n.1 == 0.0)
  {
    var p := (FiniteLatitude(latitude), FiniteLongitude(longitude));
    if -90.0 <= p.0 <= 90.0 { InRangeKept(p); }
  }

  method NormalizeAngle(value: real) returns (r: real)
    ensures r == Angle(value) && -180.0 <= r < 180.0 && Congruent(r, value)
  {
    AngleSpec(value);
    r := Fmod(Fmod(value + 180.0) + 360.0) - 180.0;
  }

  class Position {
    var latitude: Double
    var longitude: Double

    constructor (latitude: Double, longitude: Double)
      ensures this.latitude == latitude && this.longitude == longitude
    {
      this.latitude, this.longitude := latitude, longitude;
    }

    /** normalize_location: from any input at all, coordinates that demo/demo_utils.h accepts as valid. */
    method Normalize()
      modifies this
      ensures LatitudeValid(latitude) && LongitudeValid(longitude)
      ensures var p := (FiniteLatitude(old(latitude)), FiniteLongitude(old(longitude)));
              (latitude.value, longitude.value) == Normal(p) && SamePoint((latitude.value, longitude.value), p)
    {
      NormalSpec((FiniteLatitude(latitude), FiniteLongitude(longitude)));
      if !longitude.Finite? {
        longitude := Finite(0.0);
      }
      var lon := NormalizeAngle(longitude.value);
      if !latitude.Finite? {
        if latitude == Infinite(true) {
          latitude := Finite(-90.0);
        } else {
          latitude := Finite(90.0);
        }
      }
      var lat := NormalizeAngle(latitude.value);
      if lat > 90.0 {
        lat := 180.0 - lat;
        lon := NormalizeAngle(lon + 180.0);
      } else if lat < -90.0 {
        lat := -180.0 - lat;
        lon := NormalizeAngle(lon + 180.0);
      }
      latitude, longitude := Finite(lat), Finite(lon);
    }
  }
}
