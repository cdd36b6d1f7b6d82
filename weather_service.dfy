/**
 * WeatherService.fetchWeatherData: asks the air-quality provider and the
 * KMA weather provider for the (normalised) location, falls back on fixed
 * values when either fails, labels mock air-quality data in the stored
 * location, and saves exactly one WeatherLog.
 *
 * The two providers are parameters: `air(d)` is None when getAirQuality
 * throws, and `weather(nx, ny)` is a Failure when getWeather throws.
 */
module WeatherService {
  import opened Wrappers
  import opened JavaStrings
  import opened Domain
  import opened DistrictTable
  import opened CoordinateMapper
  import opened KmaWeatherClient
  import opened AirQualityClient
  import opened JsonNode
  import opened Store

  /** The location used when the caller passes null. */
  const DefaultLocation := "서울특별시"

  /** What a stored location starts with when the air-quality data is mock. */
  const MockPrefix := "mock데이터 - "

  /** mapCondition: precipitation decides first (1, 2 rain; 3 snow), then the
      sky code (1 clear; 3, 4 clouds), and anything else is other. */
  function MapCondition(skyCode: int, precipitationType: int): (c: WeatherCondition)
    ensures c == Rain <==> precipitationType == 1 || precipitationType == 2
    ensures c == Snow <==> precipitationType == 3
    ensures c == Clear <==> precipitationType !in {1, 2, 3} && skyCode == 1
    ensures c == Clouds <==> precipitationType !in {1, 2, 3} && (skyCode == 3 || skyCode == 4)
  {
    if precipitationType == 1 || precipitationType == 2 then Rain
    else if precipitationType == 3 then Snow
    else if skyCode == 1 then Clear
    else if skyCode == 3 || skyCode == 4 then Clouds
    else Other
  }

  /** The location the providers are asked for: the default for null, else
      the trimmed location. */
  function NormalizedLocation(location: Option<string>): (n: string)
    ensures location.None? ==> n == DefaultLocation
    ensures location.Some? ==> n == Trim(location.value)
  {
    if location.Some? then Trim(location.value) else DefaultLocation
  }

  /** A blank location is not replaced by the default: it stays blank, and the
      grid lookup falls back to its default coordinate. */
  lemma BlankLocationKept(s: string)
    requires IsBlank(s)
    ensures IsBlank(NormalizedLocation(Some(s)))
    ensures ToGridXY(Some(NormalizedLocation(Some(s)))) == DefaultCoordinate
  {
    BlankTrimsToBlank(s);
    TableKeysAreHangul();
  }

  /** The test that flags a reading as mock data: 30, 15 and 50, none null. */
  predicate IsMockTriple(aq: AirQuality) {
    && aq.pm10.Some? && aq.pm10.value == 30
    && aq.pm25.Some? && aq.pm25.value == 15
    && aq.airQualityIndex.Some? && aq.airQualityIndex.value == 50
  }

  /** The test accepts exactly the client's own fallback reading. */
  lemma MockTripleIsFallback(aq: AirQuality)
    ensures IsMockTriple(aq) <==> aq == MockAirQuality
  {
  }

  /** The reading used, and whether it is mock: the fallback when the call
      throws, else the provider's reading, mock when it is 30/15/50. */
  function AirReading(r: Option<AirQuality>): (m: (AirQuality, bool))
    ensures m.1 <==> r.None? || IsMockTriple(r.value)
    ensures r.None? ==> m.0 == MockAirQuality
    ensures r.Some? ==> m.0 == r.value
  {
    match r
    case None => (MockAirQuality, true)
    case Some(aq) => (aq, IsMockTriple(aq))
  }

  /** The temperature and condition: the provider's reading with its condition
      mapped, or neither when the call throws. */
  function WeatherReading(r: Result<Reading, WeatherFailure>): (m: (Option<real>, Option<WeatherCondition>))
    ensures r.Failure? ==> m == (None, None)
    ensures r.Success? ==> m == (Some(r.value.temperature), Some(MapCondition(r.value.skyCode, r.value.precipitationType)))
  {
    match r
    case Failure(_) => (None, None)
    case Success(reading) => (Some(reading.temperature), Some(MapCondition(reading.skyCode, reading.precipitationType)))
  }

  /** The log fetchWeatherData saves. No column is left null. */
  function WeatherLogOf(location: Option<string>, air: string -> Option<AirQuality>,
                        weather: (int, int) -> Result<Reading, WeatherFailure>): (w: WeatherLog)
    ensures w.temperature.Some? && w.condition.Some?
    ensures w.pm10.Some? && w.pm25.Some? && w.airQualityIndex.Some?
  {
    var normalized := NormalizedLocation(location);
    var (aq, isMock) := AirReading(air(normalized));
    var coordinate := ToGridXY(Some(normalized));
    var (temperature, condition) := WeatherReading(weather(coordinate.nx, coordinate.ny));
    WeatherLog(
      if isMock then MockPrefix + normalized else normalized,
      Some(temperature.GetOr(21.0)),
      Some(condition.GetOr(Other)),
      Some(aq.pm10.GetOr(30)),
      Some(aq.pm25.GetOr(15)),
      Some(aq.airQualityIndex.GetOr(50)))
  }

  /** The stored location carries the mock label exactly when the provider
      threw or answered 30/15/50, and is the bare normalised location
      otherwise. */
  lemma MockLabel(location: Option<string>, air: string -> Option<AirQuality>,
                  weather: (int, int) -> Result<Reading, WeatherFailure>)
    ensures var n := NormalizedLocation(location);
            var stored := WeatherLogOf(location, air, weather).location;
            && (stored == MockPrefix + n <==> air(n).None? || air(n) == Some(MockAirQuality))
            && (stored == n <==> !(air(n).None? || air(n) == Some(MockAirQuality)))
  {
    var n := NormalizedLocation(location);
    MockTripleIsFallback(if air(n).Some? then air(n).value else MockAirQuality);
    assert |MockPrefix + n| > |n|;
  }

  /** When the provider answers, each air column stores the value it read,
      and a null one gets its own default: 30 for PM10, 15 for PM2.5 and 50
      for the air-quality index. */
  lemma AirColumnsStored(location: Option<string>, air: string -> Option<AirQuality>,
                         weather: (int, int) -> Result<Reading, WeatherFailure>)
    requires air(NormalizedLocation(location)).Some?
    ensures var aq := air(NormalizedLocation(location)).value;
            var w := WeatherLogOf(location, air, weather);
            && (aq.pm10.Some? ==> w.pm10 == aq.pm10)
            && (aq.pm10.None? ==> w.pm10 == Some(30))
            && (aq.pm25.Some? ==> w.pm25 == aq.pm25)
            && (aq.pm25.None? ==> w.pm25 == Some(15))
            && (aq.airQualityIndex.Some? ==> w.airQualityIndex == aq.airQualityIndex)
            && (aq.airQualityIndex.None? ==> w.airQualityIndex == Some(50))
  {
  }

  /** A provider that throws gives the fallback values and the mock label. */
  lemma ThrowingAirProvider(location: Option<string>, air: string -> Option<AirQuality>,
                            weather: (int, int) -> Result<Reading, WeatherFailure>)
    requires air(NormalizedLocation(location)).None?
    ensures var w := WeatherLogOf(location, air, weather);
            && w.pm10 == Some(30) && w.pm25 == Some(15) && w.airQualityIndex == Some(50)
            && w.location == MockPrefix + NormalizedLocation(location)
  {
  }

  /** A reading with every value null is stored as 30/15/50 yet is not
      labelled mock. */
  lemma NullReadingDefaulted(location: Option<string>, air: string -> Option<AirQuality>,
                             weather: (int, int) -> Result<Reading, WeatherFailure>)
    requires air(NormalizedLocation(location)) == Some(AirQuality(None, None, None))
    ensures var w := WeatherLogOf(location, air, weather);
            && w.pm10 == Some(30) && w.pm25 == Some(15) && w.airQualityIndex == Some(50)
            && w.location == NormalizedLocation(location)
  {
  }

  /** The weather call is made for the grid point of the normalised location;
      when it fails the log holds 21.0 and other. */
  lemma WeatherFailureDefaults(location: Option<string>, air: string -> Option<AirQuality>,
                               weather: (int, int) -> Result<Reading, WeatherFailure>)
    requires var c := ToGridXY(Some(NormalizedLocation(location))); weather(c.nx, c.ny).Failure?
    ensures var w := WeatherLogOf(location, air, weather);
            w.temperature == Some(21.0) && w.condition == Some(Other)
  {
  }

  /** A successful weather call is stored as read, with its condition mapped. */
  lemma WeatherReadingStored(location: Option<string>, air: string -> Option<AirQuality>,
                             weather: (int, int) -> Result<Reading, WeatherFailure>)
    requires var c := ToGridXY(Some(NormalizedLocation(location))); weather(c.nx, c.ny).Success?
    ensures var c := ToGridXY(Some(NormalizedLocation(location)));
            var r := weather(c.nx, c.ny).value;
            var w := WeatherLogOf(location, air, weather);
            w.temperature == Some(r.temperature) && w.condition == Some(MapCondition(r.skyCode, r.precipitationType))
  {
  }

  /** The weather provider has no say in the mock label or the air columns. */
  lemma LabelIndependentOfWeather(location: Option<string>, air: string -> Option<AirQuality>,
                                  weather1: (int, int) -> Result<Reading, WeatherFailure>,
                                  weather2: (int, int) -> Result<Reading, WeatherFailure>)
    ensures var w1 := WeatherLogOf(location, air, weather1);
            var w2 := WeatherLogOf(location, air, weather2);
            && w1.location == w2.location && w1.pm10 == w2.pm10
            && w1.pm25 == w2.pm25 && w1.airQualityIndex == w2.airQualityIndex
  {
  }

  /** The provider the application wires in: AirQualityClient.getAirQuality
      answering each district with the given response. It never throws. */
  function ClientAir(responses: string -> Response): string -> Option<AirQuality> {
    d => Some(AirQualityOf(Some(d), responses(d)))
  }

  /** The station's first row reading PM10 30, PM2.5 15 and CAI 50 makes the
      real client answer exactly its own fallback reading. */
  lemma ClientAnswersFallbackTriple(n: string, responses: string -> Response, body: Node)
    requires responses(n) == Received(Some(body))
    requires var rows := Rows(body);
             && |rows| > 0 && StationKey(rows[0]) == TargetName(Some(n))
             && Path(rows[0], "PM10") == Number(30) && Path(rows[0], "PM25") == Number(15)
             && Path(rows[0], "CAI") == Number(50)
    ensures ClientAir(responses)(n) == Some(MockAirQuality)
  {
    MatchedRowRead(Rows(body), TargetName(Some(n)), 30, 15, 50);
  }

  /** The real client's fallback and a real measurement of 30/15/50 look the
      same here: the station's first row reading PM10 30, PM2.5 15 and CAI 50
      is stored with the mock label. */
  lemma RealReadingLabelledMock(location: Option<string>, responses: string -> Response,
                                weather: (int, int) -> Result<Reading, WeatherFailure>,
                                body: Node)
    requires responses(NormalizedLocation(location)) == Received(Some(body))
    requires var rows := Rows(body);
             && |rows| > 0 && StationKey(rows[0]) == TargetName(Some(NormalizedLocation(location)))
             && Path(rows[0], "PM10") == Number(30) && Path(rows[0], "PM25") == Number(15)
             && Path(rows[0], "CAI") == Number(50)
    ensures WeatherLogOf(location, ClientAir(responses), weather).location
            == MockPrefix + NormalizedLocation(location)
  {
    ClientAnswersFallbackTriple(NormalizedLocation(location), responses, body);
    MockLabel(location, ClientAir(responses), weather);
  }

  /** The body of fetchWeatherData up to the save: the air-quality call with
      its fallback, the weather call with its fallback, the label and the
      defaults. */
  method BuildWeatherLog(location: Option<string>, air: string -> Option<AirQuality>,
                         weather: (int, int) -> Result<Reading, WeatherFailure>)
    returns (w: WeatherLog)
    ensures w == WeatherLogOf(location, air, weather)
  {
    var normalizedLocation := if location.Some? then Trim(location.value) else DefaultLocation;
    var isMockData := false;
    var airQuality: AirQuality;
    var fetched := air(normalizedLocation);
    if fetched.Some? {
      airQuality := fetched.value;
      if IsMockTriple(airQuality) {
        isMockData := true;
      }
    } else {
      airQuality := MockAirQuality;
      isMockData := true;
    }

    var coordinate := ToGridXY(Some(normalizedLocation));
    var temperature: Option<real> := None;
    var condition: Option<WeatherCondition> := None;
    var reading := weather(coordinate.nx, coordinate.ny);
    if reading.Success? {
      temperature := Some(reading.value.temperature);
      condition := Some(MapCondition(reading.value.skyCode, reading.value.precipitationType));
    }

    assert (airQuality, isMockData) == AirReading(fetched);
    assert (temperature, condition) == WeatherReading(reading);
    var locationWithMock := if isMockData then MockPrefix + normalizedLocation else normalizedLocation;
    var finalCondition := if condition.Some? then condition.value else Other;
    var finalTemperature := if temperature.Some? then temperature.value else 21.0;
    var finalPm10 := if airQuality.pm10.Some? then airQuality.pm10.value else 30;
    var finalPm25 := if airQuality.pm25.Some? then airQuality.pm25.value else 15;
    var finalAirQualityIndex := if airQuality.airQualityIndex.Some? then airQuality.airQualityIndex.value else 50;

    w := WeatherLog(locationWithMock, Some(finalTemperature), Some(finalCondition),
                    Some(finalPm10), Some(finalPm25), Some(finalAirQualityIndex));
  }

  /** fetchWeatherData: the log, then exactly one save. */
  method FetchWeatherData(db: Database, location: Option<string>, air: string -> Option<AirQuality>,
                          weather: (int, int) -> Result<Reading, WeatherFailure>)
    returns (w: WeatherLog)
    requires db.Valid()
    modifies db
    ensures db.Valid()
    ensures w == WeatherLogOf(location, air, weather)
    ensures db.weatherLogs == old(db.weatherLogs) + [w]
    ensures db.history == old(db.history) + [WeatherLogSaved]
    ensures db.users == old(db.users) && db.records == old(db.records)
    ensures db.prescriptions == old(db.prescriptions) && db.nextId == old(db.nextId)
  {
    w := BuildWeatherLog(location, air, weather);
    db.SaveWeatherLog(w);
  }
}
