/**
 * AirQualityClient: picks the Seoul district's row out of the
 * ListAirQualityByDistrictService response and reads PM10, PM2.5 and the
 * integrated air-quality index (CAI) from it, falling back to a fixed mock
 * reading when the call fails or no row matches.
 */
module AirQualityClient {
  import opened Wrappers
  import opened JavaStrings
  import opened JsonNode

  /** AirQualityResponseDto: three nullable Short columns. */
  datatype AirQuality = AirQuality(pm10: Option<int>, pm25: Option<int>, airQualityIndex: Option<int>)

  /** The reading returned when no real one is available. */
  const MockAirQuality := AirQuality(Some(30), Some(15), Some(50))

  /** The district searched for when the caller passes null. */
  const DefaultDistrict := "종로구"

  /** The district the rows are searched for: the default for null, else the
      trimmed name. */
  function TargetName(districtName: Option<string>): (t: string)
    ensures districtName.None? ==> t == DefaultDistrict
    ensures districtName.Some? ==> t == Trim(districtName.value)
  {
    if districtName.None? then DefaultDistrict else Trim(districtName.value)
  }

  /** The Java (short) cast: the value congruent to x modulo 2^16 in the
      short range. */
  function ToShort(x: int): (s: int)
    ensures -32768 <= s < 32768
    ensures (x - s) % 65536 == 0
    ensures -32768 <= x < 32768 ==> s == x
  {
    (x + 32768) % 65536 - 32768
  }

  /** A row's station name: MSRSTENAME, else MSRSTN_NM, else "". */
  function StationName(row: Node): string {
    AsText(Path(row, "MSRSTENAME"), AsText(Path(row, "MSRSTN_NM"), ""))
  }

  /** MSRSTENAME is preferred; with neither column the name is empty. */
  lemma StationNameColumns(row: Node)
    ensures Path(row, "MSRSTENAME").Text? ==> StationName(row) == Path(row, "MSRSTENAME").text
    ensures IsMissing(Path(row, "MSRSTENAME")) ==> StationName(row) == AsText(Path(row, "MSRSTN_NM"), "")
    ensures IsMissing(Path(row, "MSRSTENAME")) && IsMissing(Path(row, "MSRSTN_NM")) ==> StationName(row) == ""
  {
  }

  /** A row's station name after trimming: what the target is compared with. */
  function StationKey(row: Node): string {
    Trim(StationName(row))
  }

  /** The images of the rows under f, in order. */
  function Project(rows: seq<Node>, f: Node -> string): (names: seq<string>)
    ensures |names| == |rows|
    ensures forall i :: 0 <= i < |rows| ==> names[i] == f(rows[i])
  {
    if rows == [] then [] else [f(rows[0])] + Project(rows[1..], f)
  }

  /** The trimmed station names of the rows, in order. */
  function StationNames(rows: seq<Node>): seq<string> {
    Project(rows, StationKey)
  }

  /** The index of the first name equal to the target, or -1. */
  function FirstStation(names: seq<string>, target: string): (i: int)
    ensures -1 <= i < |names|
    ensures i >= 0 ==> names[i] == target
    ensures forall j :: 0 <= j < i ==> names[j] != target
    ensures i < 0 ==> NoMatch(names, target)
  {
    if names == [] then -1
    else if names[0] == target then 0
    else
      var k := FirstStation(names[1..], target);
      if k < 0 then -1 else k + 1
  }

  /** No name equals the target. */
  predicate NoMatch(names: seq<string>, target: string) {
    forall j :: 0 <= j < |names| ==> names[j] != target
  }

  /** Position i holds the first name equal to the target. */
  predicate FirstMatchAt(names: seq<string>, target: string, i: int) {
    0 <= i < |names| && names[i] == target && forall j :: 0 <= j < i ==> names[j] != target
  }

  /** The search finds exactly the first match. */
  lemma FirstStationFound(names: seq<string>, target: string, i: int)
    requires FirstMatchAt(names, target, i)
    ensures FirstStation(names, target) == i
  {
  }

  /** Rows after the first match are never looked at. */
  lemma LaterRowsIgnored(names: seq<string>, more: seq<string>, target: string)
    requires FirstStation(names, target) >= 0
    ensures FirstStation(names + more, target) == FirstStation(names, target)
  {
    var i := FirstStation(names, target);
    assert (names + more)[i] == names[i];
  }

  /** One measurement column: asInt(-1) narrowed to short, absent when negative. */
  function Measure(row: Node, column: string): (m: Option<int>)
    ensures m.Some? ==> 0 <= m.value < 32768 && m.value == ToShort(AsInt(Path(row, column), -1))
    ensures m.None? <==> ToShort(AsInt(Path(row, column), -1)) < 0
  {
    var v := ToShort(AsInt(Path(row, column), -1));
    if v >= 0 then Some(v) else None
  }

  /** A missing column reads as -1 and so is absent. */
  lemma MissingMeasureAbsent(row: Node, column: string)
    requires IsMissing(Path(row, column))
    ensures Measure(row, column) == None
  {
  }

  /** A number in the short range is kept when non-negative and dropped when
      negative. */
  lemma NumberMeasure(row: Node, column: string, v: int)
    requires Path(row, column) == Number(v) && -32768 <= v < 32768
    ensures v >= 0 ==> Measure(row, column) == Some(v)
    ensures v < 0 ==> Measure(row, column) == None
  {
  }

  /** A value above the short range wraps: 40000 becomes -25536, and is
      reported as absent. */
  lemma OverflowingMeasureAbsent(row: Node, column: string)
    requires Path(row, column) == Number(40000)
    ensures Measure(row, column) == None
  {
    assert ToShort(40000) == -25536;
  }

  /** The reading of a matching row. */
  function ReadRow(row: Node): AirQuality {
    AirQuality(Measure(row, "PM10"), Measure(row, "PM25"), Measure(row, "CAI"))
  }

  /** The rows of a response body: the children of
      ListAirQualityByDistrictService.row. */
  function Rows(body: Node): seq<Node> {
    Children(Path(Path(body, "ListAirQualityByDistrictService"), "row"))
  }

  /** The reading of the first row of the target district, or the mock
      reading when there is none. */
  function SelectRow(rows: seq<Node>, target: string): AirQuality {
    var i := FirstStation(StationNames(rows), target);
    if i < 0 then MockAirQuality else ReadRow(rows[i])
  }

  /** No row of the target district: the mock reading. */
  lemma NoMatchMock(rows: seq<Node>, target: string)
    requires forall j :: 0 <= j < |rows| ==> StationKey(rows[j]) != target
    ensures SelectRow(rows, target) == MockAirQuality
  {
  }

  /** Otherwise the first row of the target district is read, and the rows
      after it do not matter. */
  lemma FirstMatchRead(rows: seq<Node>, target: string, i: int)
    requires 0 <= i < |rows| && StationKey(rows[i]) == target
    requires forall j :: 0 <= j < i ==> StationKey(rows[j]) != target
    ensures SelectRow(rows, target) == ReadRow(rows[i])
  {
    FirstStationFound(StationNames(rows), target, i);
  }

  /** A matching first row whose columns are all in range is read as it is. */
  lemma MatchedRowRead(rows: seq<Node>, target: string, pm10: int, pm25: int, cai: int)
    requires |rows| > 0 && StationKey(rows[0]) == target
    requires Path(rows[0], "PM10") == Number(pm10) && 0 <= pm10 < 32768
    requires Path(rows[0], "PM25") == Number(pm25) && 0 <= pm25 < 32768
    requires Path(rows[0], "CAI") == Number(cai) && 0 <= cai < 32768
    ensures SelectRow(rows, target) == AirQuality(Some(pm10), Some(pm25), Some(cai))
  {
    FirstMatchRead(rows, target, 0);
    NumberMeasure(rows[0], "PM10", pm10);
    NumberMeasure(rows[0], "PM25", pm25);
    NumberMeasure(rows[0], "CAI", cai);
  }

  /** getAirQuality as a function of the response: a call that throws or a
      null body (whose dereference throws) gives the mock reading, otherwise
      the rows are searched. There is no failure outcome. */
  function AirQualityOf(districtName: Option<string>, response: Response): (aq: AirQuality)
    ensures response.Threw? || response.body.None? ==> aq == MockAirQuality
  {
    if response.Threw? || response.body.None? then MockAirQuality
    else SelectRow(Rows(response.body.value), TargetName(districtName))
  }

  /** The loop of getAirQuality: a linear search for the first row of the
      target district, by its trimmed station name. */
  method FindStation(names: seq<string>, target: string) returns (k: int)
    ensures k == FirstStation(names, target)
  {
    for i := 0 to |names|
      invariant forall j :: 0 <= j < i ==> names[j] != target
    {
      if names[i] == target {
        FirstStationFound(names, target, i);
        return i;
      }
    }
    return -1;
  }

  /** getAirQuality. */
  method GetAirQuality(districtName: Option<string>, response: Response) returns (aq: AirQuality)
    ensures aq == AirQualityOf(districtName, response)
  {
    var target := if districtName.Some? then Trim(districtName.value) else DefaultDistrict;
    if response.Threw? || response.body.None? {
      return MockAirQuality;
    }
    var rows := Rows(response.body.value);
    var k := FindStation(StationNames(rows), target);
    if k < 0 {
      return MockAirQuality;
    }
    return ReadRow(rows[k]);
  }
}
