/**
 * The elementwise corrections of prosp_gravi_magne/gravity_corrections.py. Each maps an
 * array of reals to an array of the same length. The NumPy arrays are sequences and the
 * arithmetic is exact over the reals.
 */
module GravityCorrections {
  import opened Outcomes

  /** The hour, minute and second of a `datetime.time` (its microseconds are never read). */
  datatype ClockTime = ClockTime(hour: nat, minute: nat, second: nat)

  /** The ranges `datetime.time` allows. */
  predicate ValidClock(c: ClockTime) {
    c.hour < 24 && c.minute < 60 && c.second < 60
  }

  /** Whole seconds since midnight. */
  function SecondsOf(c: ClockTime): nat {
    c.hour * 3600 + c.minute * 60 + c.second
  }

  /** The clock reading whole seconds since midnight, for n below a day. */
  function ClockOf(n: nat): (c: ClockTime)
    ensures n < 86400 ==> ValidClock(c)
  {
    ClockTime(n / 3600, n % 3600 / 60, n % 60)
  }

  /** Lexicographic order of clock readings. */
  predicate Before(a: ClockTime, b: ClockTime) {
    a.hour < b.hour
    || (a.hour == b.hour && a.minute < b.minute)
    || (a.hour == b.hour && a.minute == b.minute && a.second < b.second)
  }

  /** `t.hour + t.minute / 60 + t.second / 3600` (line 19). */
  function Hours(c: ClockTime): (hh: real)
    ensures hh * 3600.0 == SecondsOf(c) as real
  {
    c.hour as real + c.minute as real / 60.0 + c.second as real / 3600.0
  }

  /** `hms_to_hh`: decimal hours of each reading, exact to the second. */
  function HmsToHh(time: seq<ClockTime>): (hh: seq<real>)
    ensures |hh| == |time|
    ensures forall i :: 0 <= i < |time| ==> hh[i] * 3600.0 == SecondsOf(time[i]) as real
  {
    seq(|time|, i requires 0 <= i < |time| => Hours(time[i]))
  }

  /** A valid clock reading falls in [0, 24) decimal hours. */
  lemma HmsToHhInDay(time: seq<ClockTime>, i: nat)
    requires i < |time| && ValidClock(time[i])
    ensures 0.0 <= HmsToHh(time)[i] < 24.0
  {
    assert HmsToHh(time)[i] * 3600.0 == SecondsOf(time[i]) as real;
  }

  /** Over valid clocks, decimal hours order the readings exactly as the clock does. */
  lemma HmsToHhOrder(time: seq<ClockTime>, i: nat, k: nat)
    requires i < |time| && k < |time| && ValidClock(time[i]) && ValidClock(time[k])
    ensures HmsToHh(time)[i] < HmsToHh(time)[k] <==> Before(time[i], time[k])
  {
    assert HmsToHh(time)[i] * 3600.0 == SecondsOf(time[i]) as real;
    assert HmsToHh(time)[k] * 3600.0 == SecondsOf(time[k]) as real;
  }

  /** Whole seconds identify a valid clock reading. */
  lemma ClockSeconds(c: ClockTime)
    requires ValidClock(c)
    ensures ClockOf(SecondsOf(c)) == c
  {
    var n := SecondsOf(c);
    var rest := c.minute * 60 + c.second;
    assert 0 <= rest < 3600 && n == c.hour * 3600 + rest;
    assert n / 3600 == c.hour && n % 3600 == rest;
    assert rest / 60 == c.minute && n % 60 == c.second;
  }

  /** Distinct valid clock readings get distinct decimal hours. */
  lemma HmsToHhInjective(time: seq<ClockTime>, i: nat, k: nat)
    requires i < |time| && k < |time| && ValidClock(time[i]) && ValidClock(time[k])
    requires HmsToHh(time)[i] == HmsToHh(time)[k]
    ensures time[i] == time[k]
  {
    assert HmsToHh(time)[i] * 3600.0 == SecondsOf(time[i]) as real;
    assert HmsToHh(time)[k] * 3600.0 == SecondsOf(time[k]) as real;
    ClockSeconds(time[i]);
    ClockSeconds(time[k]);
  }

  /** `deg_2_m = 111 * 10e2`: metres per degree of latitude (line 41). */
  const DEG_2_M: real := 111.0 * 1000.0

  /** `lat_dist`: the latitude of each station from its northward distance to the base, in metres (lines 43-46). */
  function LatDist(latBase: real, distance: seq<real>): (lat: seq<real>)
    ensures |lat| == |distance|
    ensures forall i :: 0 <= i < |distance| ==> lat[i] * DEG_2_M - latBase * DEG_2_M == distance[i]
  {
    seq(|distance|, i requires 0 <= i < |distance| => (distance[i] + latBase * DEG_2_M) / DEG_2_M)
  }

  /** The inverse direction: station distances in metres from latitudes and the base's latitude. */
  function DistOfLat(latBase: real, lat: seq<real>): (distance: seq<real>)
    ensures |distance| == |lat|
  {
    seq(|lat|, i requires 0 <= i < |lat| => lat[i] * DEG_2_M - latBase * DEG_2_M)
  }

  /** `lat_dist` then back to metres recovers the distances. */
  lemma LatDistRoundTrip(latBase: real, distance: seq<real>)
    ensures DistOfLat(latBase, LatDist(latBase, distance)) == distance
  {
  }

  /** Metres then `lat_dist` recovers the latitudes. */
  lemma DistOfLatRoundTrip(latBase: real, lat: seq<real>)
    ensures LatDist(latBase, DistOfLat(latBase, lat)) == lat
  {
    var back := LatDist(latBase, DistOfLat(latBase, lat));
    forall i | 0 <= i < |lat|
      ensures back[i] == lat[i]
    {
      assert back[i] * DEG_2_M - latBase * DEG_2_M == lat[i] * DEG_2_M - latBase * DEG_2_M;
    }
  }

  /** Latitude grows with distance, and a station at distance 0 sits at the base's latitude. */
  lemma LatDistMonotone(latBase: real, distance: seq<real>, i: nat, k: nat)
    requires i < |distance| && k < |distance|
    ensures distance[i] <= distance[k] <==> LatDist(latBase, distance)[i] <= LatDist(latBase, distance)[k]
    ensures distance[i] == 0.0 ==> LatDist(latBase, distance)[i] == latBase
  {
    var lat := LatDist(latBase, distance);
    assert lat[i] * DEG_2_M - latBase * DEG_2_M == distance[i];
    assert lat[k] * DEG_2_M - latBase * DEG_2_M == distance[k];
  }

  /** `relative_g`: each observed gravity value less the first (line 127); `g_obs[0]` needs a non-empty array. */
  function RelativeG(gObs: seq<real>): (gRel: seq<real>)
    requires 0 < |gObs|
    ensures |gRel| == |gObs| && gRel[0] == 0.0
    ensures forall i, k :: 0 <= i < |gObs| && 0 <= k < |gObs| ==> gRel[i] - gRel[k] == gObs[i] - gObs[k]
  {
    seq(|gObs|, i requires 0 <= i < |gObs| => gObs[i] - gObs[0])
  }

  /** Adds c to every element. */
  function Shift(g: seq<real>, c: real): (r: seq<real>)
    ensures |r| == |g|
  {
    seq(|g|, i requires 0 <= i < |g| => g[i] + c)
  }

  /** Relative gravity is already relative. */
  lemma RelativeGIdempotent(gObs: seq<real>)
    requires 0 < |gObs|
    ensures RelativeG(RelativeG(gObs)) == RelativeG(gObs)
  {
  }

  /** Two surveys have the same relative gravity exactly when they differ by a constant. */
  lemma RelativeGShift(gObs: seq<real>, gObs': seq<real>)
    requires 0 < |gObs| && |gObs'| == |gObs|
    ensures RelativeG(gObs) == RelativeG(gObs') <==> gObs' == Shift(gObs, gObs'[0] - gObs[0])
  {
    var c := gObs'[0] - gObs[0];
    if RelativeG(gObs) == RelativeG(gObs') {
      forall i | 0 <= i < |gObs|
        ensures gObs'[i] == Shift(gObs, c)[i]
      {
        assert RelativeG(gObs)[i] - RelativeG(gObs)[0] == RelativeG(gObs')[i] - RelativeG(gObs')[0];
      }
    }
  }

  /** Elementwise sum of two equal-length arrays. */
  function Add(a: seq<real>, b: seq<real>): (r: seq<real>)
    requires |a| == |b|
    ensures |r| == |a|
  {
    seq(|a|, i requires 0 <= i < |a| => a[i] + b[i])
  }

  /** Every element times c. */
  function Scale(c: real, a: seq<real>): (r: seq<real>)
    ensures |r| == |a|
  {
    seq(|a|, i requires 0 <= i < |a| => c * a[i])
  }

  /** An array of n zeros. */
  function Zeros(n: nat): (r: seq<real>)
    ensures |r| == n
  {
    seq(n, i => 0.0)
  }

  /** The free-air gradient of line 182, in mGal per metre, with the source's sign. */
  const FREE_AIR: real := -0.3086

  /** `air_correction`: the free-air correction of each height in metres. */
  function AirCorrection(h: seq<real>): (airCorr: seq<real>)
    ensures |airCorr| == |h|
    ensures forall i :: 0 <= i < |h| ==> airCorr[i] == FREE_AIR * h[i]
  {
    Scale(FREE_AIR, h)
  }

  /** The free-air correction is linear in the heights and vanishes at height 0. */
  lemma AirCorrectionLinear(h1: seq<real>, h2: seq<real>, c: real)
    requires |h1| == |h2|
    ensures AirCorrection(Add(h1, h2)) == Add(AirCorrection(h1), AirCorrection(h2))
    ensures AirCorrection(Scale(c, h1)) == Scale(c, AirCorrection(h1))
    ensures AirCorrection(Zeros(|h1|)) == Zeros(|h1|)
  {
    var scaled, air := AirCorrection(Scale(c, h1)), AirCorrection(h1);
    forall i | 0 <= i < |h1|
      ensures scaled[i] == Scale(c, air)[i]
    {
      assert scaled[i] == FREE_AIR * (c * h1[i]) && air[i] == FREE_AIR * h1[i];
    }
  }

  /** As written, the correction is negative for a station above the datum, and it determines the height. */
  lemma AirCorrectionSign(h: seq<real>, i: nat)
    requires i < |h|
    ensures 0.0 < h[i] <==> AirCorrection(h)[i] < 0.0
    ensures AirCorrection(h)[i] / FREE_AIR == h[i]
  {
  }

  /** The Bouguer slab coefficient of line 203. */
  const BOUGUER: real := 0.04192

  /** `bouguer_correction`: the slab correction of each height for density rho. */
  function BouguerCorrection(rho: real, h: seq<real>): (bougCorr: seq<real>)
    ensures |bougCorr| == |h|
    ensures forall i :: 0 <= i < |h| ==> bougCorr[i] == BOUGUER * rho * h[i]
  {
    Scale(BOUGUER * rho, h)
  }

  /** The Bouguer correction is linear in the heights, and 0 at height 0. */
  lemma BouguerLinearInHeight(rho: real, h1: seq<real>, h2: seq<real>, c: real)
    requires |h1| == |h2|
    ensures BouguerCorrection(rho, Add(h1, h2)) == Add(BouguerCorrection(rho, h1), BouguerCorrection(rho, h2))
    ensures BouguerCorrection(rho, Scale(c, h1)) == Scale(c, BouguerCorrection(rho, h1))
    ensures BouguerCorrection(rho, Zeros(|h1|)) == Zeros(|h1|)
  {
    var sum, b1, b2 := BouguerCorrection(rho, Add(h1, h2)), BouguerCorrection(rho, h1), BouguerCorrection(rho, h2);
    forall i | 0 <= i < |h1|
      ensures sum[i] == Add(b1, b2)[i]
    {
      assert sum[i] == BOUGUER * rho * (h1[i] + h2[i]);
      assert b1[i] == BOUGUER * rho * h1[i] && b2[i] == BOUGUER * rho * h2[i];
    }
    var scaled := BouguerCorrection(rho, Scale(c, h1));
    forall i | 0 <= i < |h1|
      ensures scaled[i] == Scale(c, b1)[i]
    {
      assert scaled[i] == BOUGUER * rho * (c * h1[i]) && b1[i] == BOUGUER * rho * h1[i];
    }
  }

  /** The Bouguer correction is linear in the density, and 0 at density 0. */
  lemma BouguerLinearInDensity(rho1: real, rho2: real, c: real, h: seq<real>)
    ensures BouguerCorrection(rho1 + rho2, h) == Add(BouguerCorrection(rho1, h), BouguerCorrection(rho2, h))
    ensures BouguerCorrection(c * rho1, h) == Scale(c, BouguerCorrection(rho1, h))
    ensures BouguerCorrection(0.0, h) == Zeros(|h|)
  {
    var b1 := BouguerCorrection(rho1, h);
    var scaled := BouguerCorrection(c * rho1, h);
    forall i | 0 <= i < |h|
      ensures scaled[i] == Scale(c, b1)[i]
    {
      assert scaled[i] == BOUGUER * (c * rho1) * h[i] && b1[i] == BOUGUER * rho1 * h[i];
    }
  }

  /** The mean Earth radius of line 152, as the source writes it. */
  const EARTH_RADIUS: real := 6367.44

  /** The latitude-correction coefficient of lines 159 and 164. */
  const LAT_COEFF: real := 0.811

  /** `latitude_correction` with neither `distance` nor `st_latitude` given: `None - float` raises. */
  datatype LatitudeError = MissingLatitude

  /**
   * `latitude_correction` (lines 151-166). `sinTwiceBase` stands for `np.sin(2 * base_latitude)`
   * with the base's latitude in radians; `None` arguments are `None` options.
   */
  function LatitudeCorrection(baseLatitude: real, sinTwiceBase: real,
                              stLatitude: Option<seq<real>>, distance: Option<seq<real>>)
    : (latCorr: Result<seq<real>, LatitudeError>)
    ensures latCorr.Err? <==> stLatitude.None? && distance.None?
    ensures distance.Some? ==> latCorr.Ok? && |latCorr.value| == |distance.value|
    ensures distance.None? && stLatitude.Some? ==> latCorr.Ok? && |latCorr.value| == |stLatitude.value|
  {
    match distance
    case Some(d) => Ok(Scale(LAT_COEFF * sinTwiceBase, d))
    case None =>
      match stLatitude
      case None => Err(MissingLatitude)
      case Some(lat) =>
        var dy := Scale(EARTH_RADIUS, Shift(lat, -baseLatitude));
        Ok(Scale(LAT_COEFF * sinTwiceBase, dy))
  }

  /** A given `distance` wins: the station latitudes are then never read. */
  lemma DistanceTakesPrecedence(baseLatitude: real, sinTwiceBase: real, d: seq<real>,
                                stLatitude: Option<seq<real>>, stLatitude': Option<seq<real>>)
    ensures LatitudeCorrection(baseLatitude, sinTwiceBase, stLatitude, Some(d))
         == LatitudeCorrection(baseLatitude, sinTwiceBase, stLatitude', Some(d))
  {
  }

  /** The latitude mode is the distance mode applied to `dy = r * (st_latitude - base_latitude)`. */
  lemma LatitudeModeAsDistance(baseLatitude: real, sinTwiceBase: real, lat: seq<real>)
    ensures LatitudeCorrection(baseLatitude, sinTwiceBase, Some(lat), None)
         == LatitudeCorrection(baseLatitude, sinTwiceBase, None,
                               Some(Scale(EARTH_RADIUS, Shift(lat, -baseLatitude))))
  {
  }

  /** A station at the base's latitude, or at distance 0, gets no correction. */
  lemma LatitudeCorrectionAtBase(baseLatitude: real, sinTwiceBase: real, lat: seq<real>, i: nat)
    requires i < |lat| && lat[i] == baseLatitude
    ensures LatitudeCorrection(baseLatitude, sinTwiceBase, Some(lat), None).value[i] == 0.0
    ensures LatitudeCorrection(baseLatitude, sinTwiceBase, None, Some(Zeros(|lat|))).value[i] == 0.0
  {
  }
}
