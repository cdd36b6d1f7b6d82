/**
 * The energy-score engine of RecordService: the social, movement and weather
 * sub-scores, their 40/30/30 weighting with clamp and two-decimal rounding,
 * the LOW/MEDIUM/HIGH bands, transport-mode normalisation and the
 * time-of-day bucket. Doubles are modelled as exact reals.
 */
module EnergyScore {
  import opened Wrappers
  import opened JavaStrings
  import opened Domain
  import opened CreateRecordRequest

  /** Math.max(lo, Math.min(hi, x)). */
  function Clamp(lo: real, hi: real, x: real): (r: real)
    requires lo <= hi
    ensures lo <= r <= hi
    ensures lo <= x <= hi ==> r == x
  {
    if x < lo then lo else if x > hi then hi else x
  }

  function Min(a: real, b: real): real {
    if a <= b then a else b
  }

  function Max(a: real, b: real): real {
    if a >= b then a else b
  }

  // ---------------------------------------------------------------- time of day

  /** determineTimePeriod, written as a function of LocalTime's hour. */
  function TimePeriodOf(hour: int): (p: TimePeriod)
    requires 0 <= hour < 24
    ensures p == Morning <==> 6 <= hour < 12
    ensures p == Hoon <==> 12 <= hour < 18
    ensures p == Evening <==> 18 <= hour < 22
    ensures p == Night <==> hour < 6 || 22 <= hour
  {
    if 6 <= hour < 12 then Morning
    else if 12 <= hour < 18 then Hoon
    else if 18 <= hour < 22 then Evening
    else Night
  }

  // ------------------------------------------------------------ transport mode

  /** convertTransportMode: null means SUBWAY, and any string other than
      subway/bus/walk (in any letter case) means WALK. */
  function ConvertTransportMode(t: Option<string>): (m: TransportMode)
    ensures t.None? ==> m == Subway
    ensures t.Some? ==> (m == Subway <==> ToLower(t.value) == "subway")
    ensures t.Some? ==> (m == Bus <==> ToLower(t.value) == "bus")
  {
    match t
    case None => Subway
    case Some(s) =>
      var lower := ToLower(s);
      if lower == "subway" then Subway
      else if lower == "bus" then Bus
      else Walk
  }

  /** The three values of the request pattern that name no mode fall back to WALK. */
  lemma UnlistedModesWalk()
    ensures ConvertTransportMode(Some("car")) == Walk
    ensures ConvertTransportMode(Some("bike")) == Walk
    ensures ConvertTransportMode(Some("none")) == Walk
    ensures ConvertTransportMode(Some("BUS")) == Bus
    ensures ConvertTransportMode(Some("Walk")) == Walk
  {
    assert ToLower("BUS") == "bus";
    assert ToLower("car") == "car";
    assert ToLower("bike") == "bike";
    assert ToLower("none") == "none";
  }

  // --------------------------------------------------------------- social score

  /** calculateSocialScore: 40·emotion/5 + 30·conversation/5 + min(30, 10·meetings),
      nulls read as 0, clamped to [0,100]. */
  function SocialScore(req: RecordRequest): (r: real)
    ensures 0.0 <= r <= 100.0
  {
    var emotion := req.emotionLevel.GetOr(0);
    var conversation := req.conversationLevel.GetOr(0);
    var meetings := req.meetingCount.GetOr(0);
    var emotionScore := (emotion as real / 5.0) * 40.0;
    var conversationScore := (conversation as real / 5.0) * 30.0;
    var meetingScore := Min(30.0, meetings as real * 10.0);
    Clamp(0.0, 100.0, emotionScore + conversationScore + meetingScore)
  }

  /** On a valid request the clamp never bites: the score is the plain sum of
      8 points per emotion level, 6 per conversation level and 10 per meeting up
      to three meetings. */
  lemma SocialScoreOfValid(req: RecordRequest)
    requires Valid(req)
    ensures SocialScore(req) == 8.0 * req.emotionLevel.value as real
                               + 6.0 * req.conversationLevel.value as real
                               + Min(30.0, 10.0 * req.meetingCount.value as real)
    ensures 14.0 <= SocialScore(req)
  {
    SocialScoreInRange(req);
  }

  lemma SocialScoreInRange(req: RecordRequest)
    requires InRange(req.emotionLevel, 1, 5) && InRange(req.conversationLevel, 1, 5)
    requires req.meetingCount.Some? && req.meetingCount.value >= 0
    ensures SocialScore(req) == 8.0 * req.emotionLevel.value as real
                               + 6.0 * req.conversationLevel.value as real
                               + Min(30.0, 10.0 * req.meetingCount.value as real)
    ensures 14.0 <= SocialScore(req)
  {
  }

  lemma SocialScoreMaximum(req: RecordRequest)
    requires req.emotionLevel == Some(5) && req.conversationLevel == Some(5)
    requires req.meetingCount.Some? && req.meetingCount.value >= 3
    ensures SocialScore(req) == 100.0
  {
  }

  // ------------------------------------------------------------- movement score

  /** The base points of a transport mode. */
  function TransportBase(mode: TransportMode): real {
    match mode
    case Walk => 100.0
    case Subway => 85.0
    case Bus => 80.0
  }

  /** The congestion level the score uses: null is 3, then clamped to [1,5]. */
  function EffectiveCongestion(congestion: Option<int>): (c: int)
    ensures 1 <= c <= 5
    ensures congestion.Some? && 1 <= congestion.value <= 5 ==> c == congestion.value
    ensures congestion.None? ==> c == 3
  {
    var c := congestion.GetOr(3);
    if c < 1 then 1 else if c > 5 then 5 else c
  }

  /** calculateMovementScore: the mode's base minus 5 points per congestion step
      above 1, floored at 0; it always lies in [60,100]. */
  function MovementScore(mode: TransportMode, congestion: Option<int>): (r: real)
    ensures 60.0 <= r <= 100.0
    ensures r == 100.0 <==> mode == Walk && EffectiveCongestion(congestion) == 1
  {
    var c := EffectiveCongestion(congestion);
    var penalty := (c - 1) as real * 5.0;
    Max(0.0, TransportBase(mode) - penalty)
  }

  /** More congestion never raises the movement score. */
  lemma MovementScoreAntitone(mode: TransportMode, c1: int, c2: int)
    requires c1 <= c2
    ensures MovementScore(mode, Some(c2)) <= MovementScore(mode, Some(c1))
  {
  }

  lemma MovementScoreExtremes()
    ensures MovementScore(Walk, Some(1)) == 100.0
    ensures MovementScore(Bus, Some(5)) == 60.0
    ensures MovementScore(Subway, None) == MovementScore(Subway, Some(3)) == 75.0
  {
  }

  // -------------------------------------------------------------- weather score

  /** mapConditionScore: clear 33, clouds 25, rain 18, snow 15, other or null 25. */
  function ConditionScore(condition: Option<WeatherCondition>): (r: real)
    ensures 15.0 <= r <= 33.0
    ensures r == 33.0 <==> condition == Some(Clear)
    ensures r == 15.0 <==> condition == Some(Snow)
  {
    match condition
    case None => 25.0
    case Some(Clear) => 33.0
    case Some(Clouds) => 25.0
    case Some(Rain) => 18.0
    case Some(Snow) => 15.0
    case Some(Other) => 25.0
  }

  /** The air-quality term: 33 minus 13 points per 70 µg/m³ of PM10 above 30 and
      20 points per 35 µg/m³ of PM2.5 above 15, floored at 0. */
  function AirQualityScore(pm10: real, pm25: real): (r: real)
    ensures 0.0 <= r <= 33.0
    ensures r == 33.0 <==> pm10 <= 30.0 && pm25 <= 15.0
  {
    var pm10Factor := Max(0.0, (pm10 - 30.0) / 70.0);
    var pm25Factor := Max(0.0, (pm25 - 15.0) / 35.0);
    Max(0.0, 33.0 - (pm10Factor * 13.0 + pm25Factor * 20.0))
  }

  /** The stand-in for exp(x) on x >= 0: its Taylor polynomial of degree 3,
      which is at least 1, equals 1 only at 0 and grows with x. */
  function ExpStandIn(x: real): (e: real)
    requires x >= 0.0
    ensures e >= 1.0 + x
  {
    1.0 + x + x * x / 2.0 + x * x * x / 6.0
  }

  /** The temperature term 33·exp(−0.03·(T−21)²), with exp replaced by ExpStandIn:
      it lies in (0,33] and reaches 33 exactly at 21 °C. */
  function TemperatureScore(t: real): (r: real)
    ensures 0.0 < r <= 33.0
    ensures r == 33.0 <==> t == 21.0
  {
    TemperatureTermBounds(t);
    33.0 / ExpStandIn(GaussianExponent(t))
  }

  /** |T − 21|, the distance from the ideal temperature. */
  function Deviation(t: real): (a: real)
    ensures a >= 0.0
    ensures a == 0.0 <==> t == 21.0
    ensures a * a == (t - 21.0) * (t - 21.0)
  {
    if t >= 21.0 then t - 21.0 else 21.0 - t
  }

  /** 0.03·(T−21)², the exponent of the Gaussian, written over |T − 21|. */
  function GaussianExponent(t: real): (x: real)
    ensures x >= 0.0
    ensures x == 0.0 <==> t == 21.0
  {
    var a := Deviation(t);
    NonNegativeProduct(a, a);
    NonNegativeProduct(0.03, a * a);
    0.03 * (a * a)
  }

  lemma TemperatureTermBounds(t: real)
    ensures 0.0 < 33.0 / ExpStandIn(GaussianExponent(t)) <= 33.0
    ensures 33.0 / ExpStandIn(GaussianExponent(t)) == 33.0 <==> t == 21.0
  {
    var x := GaussianExponent(t);
    var e := ExpStandIn(x);
    DivisionByAtLeastOne(33.0, e);
    if t != 21.0 {
      DivisionByMoreThanOne(33.0, e);
    }
  }

  lemma DivisionByAtLeastOne(a: real, e: real)
    requires a > 0.0 && e >= 1.0
    ensures 0.0 < a / e <= a
  {
    assert a / e * e == a;
  }

  lemma DivisionByMoreThanOne(a: real, e: real)
    requires a > 0.0 && e > 1.0
    ensures a / e < a
  {
    var r := a / e;
    assert r * e == a;
    DivisionByAtLeastOne(a, e);
    PositiveProduct(r, e - 1.0);
    assert r * (e - 1.0) == r * e - r;
  }

  lemma NonNegativeProduct(a: real, b: real)
    requires a >= 0.0 && b >= 0.0
    ensures a * b >= 0.0
    ensures a * b == 0.0 <==> a == 0.0 || b == 0.0
  {
    if a > 0.0 && b > 0.0 {
      PositiveProduct(a, b);
    }
  }

  lemma SquareMonotone(a1: real, a2: real)
    requires 0.0 <= a1 <= a2
    ensures a1 * a1 <= a2 * a2
  {
    NonNegativeProduct(a2 - a1, a1);
    NonNegativeProduct(a2 - a1, a2);
    assert (a2 - a1) * a1 == a2 * a1 - a1 * a1;
    assert (a2 - a1) * a2 == a2 * a2 - a1 * a2;
  }

  lemma PositiveProduct(a: real, b: real)
    requires a > 0.0 && b > 0.0
    ensures a * b > 0.0
  {
  }

  lemma DivisionAntitone(a: real, e1: real, e2: real)
    requires a > 0.0 && 1.0 <= e1 <= e2
    ensures a / e2 <= a / e1
  {
    var r1, r2 := a / e1, a / e2;
    assert r1 * e1 == a && r2 * e2 == a;
    DivisionByAtLeastOne(a, e2);
    assert r2 * e1 <= r2 * e2;
  }

  lemma ExpStandInMonotone(x1: real, x2: real)
    requires 0.0 <= x1 <= x2
    ensures ExpStandIn(x1) <= ExpStandIn(x2)
  {
    assert x1 * x1 <= x2 * x2 by {
      assert x1 * x1 <= x1 * x2 <= x2 * x2;
    }
    assert x1 * x1 * x1 <= x2 * x2 * x2 by {
      assert x1 * x1 * x1 <= x1 * x1 * x2 <= x2 * x2 * x2;
    }
  }

  /** The temperature term falls off symmetrically on both sides of 21 °C. */
  lemma TemperatureScoreSymmetric(d: real)
    ensures TemperatureScore(21.0 + d) == TemperatureScore(21.0 - d)
  {
    assert Deviation(21.0 + d) == Deviation(21.0 - d);
  }

  /** A temperature further from 21 °C never scores higher. */
  lemma TemperatureScoreFallsOff(t1: real, t2: real)
    requires Deviation(t1) <= Deviation(t2)
    ensures TemperatureScore(t2) <= TemperatureScore(t1)
  {
    var a1, a2 := Deviation(t1), Deviation(t2);
    SquareMonotone(a1, a2);
    var x1 := GaussianExponent(t1);
    var x2 := GaussianExponent(t2);
    ExpStandInMonotone(x1, x2);
    var e1, e2 := ExpStandIn(x1), ExpStandIn(x2);
    DivisionAntitone(33.0, e1, e2);
  }

  /** calculateWeatherScore: 70 without a log; otherwise temperature term plus
      condition points plus air term, clamped to [0,100], with null readings
      taken as 21 °C, PM10 30 and PM2.5 15. Each term is at most 33, so a log
      never scores above 99. */
  function WeatherScore(log: Option<WeatherLog>): (r: real)
    ensures 0.0 <= r <= 100.0
    ensures log.None? ==> r == 70.0
    ensures log.Some? ==> 15.0 < r <= 99.0
  {
    match log
    case None => 70.0
    case Some(w) =>
      var temperature := w.temperature.GetOr(21.0);
      var pm10 := if w.pm10.Some? then w.pm10.value as real else 30.0;
      var pm25 := if w.pm25.Some? then w.pm25.value as real else 15.0;
      var total := TemperatureScore(temperature) + ConditionScore(w.condition)
                   + AirQualityScore(pm10, pm25);
      Clamp(0.0, 100.0, total)
  }

  /** 21 °C, clear sky, PM10 30 and PM2.5 15 give the maximum 33 + 33 + 33. */
  lemma WeatherScoreIdeal(location: string, aqi: Option<int>)
    ensures WeatherScore(Some(WeatherLog(location, Some(21.0), Some(Clear), Some(30), Some(15), aqi))) == 99.0
  {
  }

  /** A log scores 99 exactly under ideal readings. */
  lemma WeatherScoreMaximumOnlyWhenIdeal(w: WeatherLog)
    requires WeatherScore(Some(w)) == 99.0
    ensures w.temperature.GetOr(21.0) == 21.0 && w.condition == Some(Clear)
    ensures (w.pm10.Some? ==> w.pm10.value <= 30) && (w.pm25.Some? ==> w.pm25.value <= 15)
  {
    var pm10 := if w.pm10.Some? then w.pm10.value as real else 30.0;
    var pm25 := if w.pm25.Some? then w.pm25.value as real else 15.0;
    assert TemperatureScore(w.temperature.GetOr(21.0)) + ConditionScore(w.condition)
           + AirQualityScore(pm10, pm25) == 99.0;
  }

  // -------------------------------------------------------------- final score

  /** Math.round(x·100)/100 for a non-negative score: Floor(x·100 + 0.5)/100.
      The result is a whole number of hundredths within half a hundredth of x. */
  function Round2(x: real): (r: real)
    ensures -0.005 < r - x <= 0.005
    ensures (r * 100.0).Floor as real == r * 100.0
  {
    var k := (x * 100.0 + 0.5).Floor;
    assert k as real / 100.0 * 100.0 == k as real;
    k as real / 100.0
  }

  /** Rounding keeps a value of [0,100] inside [0,100]. */
  lemma Round2Bounded(x: real)
    requires 0.0 <= x <= 100.0
    ensures 0.0 <= Round2(x) <= 100.0
  {
    var k := (x * 100.0 + 0.5).Floor;
    assert 0 <= k <= 10000;
  }

  /** A whole number of hundredths is left as it is. */
  lemma Round2Hundredths(k: int)
    ensures Round2(k as real / 100.0) == k as real / 100.0
  {
    assert k as real / 100.0 * 100.0 + 0.5 == k as real + 0.5;
    assert (k as real + 0.5).Floor == k;
  }

  /** The 40/30/30 weighted sum before clamping and rounding. */
  function WeightedSum(social: real, movement: real, weather: real): real {
    0.4 * social + 0.3 * movement + 0.3 * weather
  }

  /** calculateEnergyScore: the weighted sum, clamped to [0,100] and rounded to
      two decimals; within half a hundredth of the weighted sum. */
  function EnergyScore(req: RecordRequest, mode: TransportMode, log: Option<WeatherLog>): (r: real)
    ensures 0.0 <= r <= 100.0
    ensures (r * 100.0).Floor as real == r * 100.0
    ensures var s := WeightedSum(SocialScore(req), MovementScore(mode, req.congestionLevel), WeatherScore(log));
            -0.005 < r - s <= 0.005
  {
    var social := SocialScore(req);
    var movement := MovementScore(mode, req.congestionLevel);
    var weather := WeatherScore(log);
    var clamped := Clamp(0.0, 100.0, WeightedSum(social, movement, weather));
    Round2Bounded(clamped);
    Round2(clamped)
  }

  /** determineEnergyLevel: LOW below 33, MEDIUM below 67, HIGH from 67. */
  function Level(score: real): (l: EnergyLevel)
    ensures l == Low <==> score < 33.0
    ensures l == Medium <==> 33.0 <= score < 67.0
    ensures l == High <==> 67.0 <= score
  {
    if score < 33.0 then Low
    else if score < 67.0 then Medium
    else High
  }

  function LevelRank(l: EnergyLevel): nat {
    match l
    case Low => 0
    case Medium => 1
    case High => 2
  }

  /** A higher score never gets a lower band. */
  lemma LevelMonotone(s1: real, s2: real)
    requires s1 <= s2
    ensures LevelRank(Level(s1)) <= LevelRank(Level(s2))
  {
  }

  /** The worked end-to-end case: emotion 5, conversation 5, three meetings,
      walking at congestion 1 under 21 °C clear skies with PM10 30 and PM2.5 15
      score 0.4·100 + 0.3·100 + 0.3·99 = 99.7, which is HIGH. */
  lemma EndToEndExample(location: string, journal: Option<string>, aqi: Option<int>)
    ensures var req := RecordRequest(Some(5), Some(5), Some(3), Some("walk"), Some(1), Some(location), journal);
            var log := WeatherLog(location, Some(21.0), Some(Clear), Some(30), Some(15), aqi);
            var mode := ConvertTransportMode(req.transportMode);
            && mode == Walk
            && SocialScore(req) == 100.0
            && MovementScore(mode, req.congestionLevel) == 100.0
            && WeatherScore(Some(log)) == 99.0
            && EnergyScore(req, mode, Some(log)) == 99.7
            && Level(EnergyScore(req, mode, Some(log))) == High
  {
    var req := RecordRequest(Some(5), Some(5), Some(3), Some("walk"), Some(1), Some(location), journal);
    var log := WeatherLog(location, Some(21.0), Some(Clear), Some(30), Some(15), aqi);
    assert ToLower("walk") == "walk";
    WeatherScoreIdeal(location, aqi);
    assert WeightedSum(100.0, 100.0, 99.0) == 99.7;
    Round2Hundredths(9970);
  }
}
