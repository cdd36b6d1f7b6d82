/**
 * KmaWeatherClient: the base time of the ultra-short-term observation request,
 * and the validation and item scan of the response. The HTTP call is the
 * `response` parameter; the base date and the current hour are parameters too.
 */
module KmaWeatherClient {
  import opened Wrappers
  import opened JsonNode

  /** The hour before the current one, wrapping from 0 to 23. */
  function BaseHour(hour: int): (b: int)
    requires 0 <= hour < 24
    ensures 0 <= b < 24
    ensures (b + 1) % 24 == hour
  {
    (hour - 1 + 24) % 24
  }

  /** String.format("%02d00", baseHour). */
  function BaseTime(hour: int): (t: string)
    requires 0 <= hour < 24
    ensures |t| == 4 && t[2..] == "00"
    ensures AllDigits(t[..2]) && DigitsValue(t[..2]) == BaseHour(hour)
  {
    var b := BaseHour(hour);
    var t := [DigitChar(b / 10), DigitChar(b % 10), '0', '0'];
    assert t[..2][..1] == [DigitChar(b / 10)] && t[..2][..1][..0] == [];
    assert DigitsValue(t[..2][..1]) == b / 10;
    t
  }

  /** Sample hours. At 00:xx the base time is "2300" while getWeather pairs
      it with today's date as base_date, so the request names 23:00 of a day
      that has not reached it yet (the date is not part of this model). */
  lemma BaseTimeExamples()
    ensures BaseTime(0) == "2300"
    ensures BaseTime(1) == "0000"
    ensures BaseTime(10) == "0900"
  {
  }

  /** Why getWeather throws. */
  datatype WeatherFailure =
    | CallFailed
    | NullBody
    | NoResponseNode
    | ErrorResult(resultCode: string)
    | NoBodyNode
    | NoData
    | NoItemsNode
    | NoItemNode
    | NoTemperature

  /** KmaWeatherResponseDto. */
  datatype Reading = Reading(temperature: real, skyCode: int, precipitationType: int)

  /** The checks getWeather makes before scanning, in order; on success the
      `item` node and the list of items it stands for (an array's elements, or
      the node itself when it is not an array). */
  function Validate(response: Response): (r: Result<seq<Node>, WeatherFailure>)
    ensures r.Success? ==> response.Received? && response.body.Some?
    ensures r.Success? ==>
              var root := Path(response.body.value, "response");
              && !IsMissing(root)
              && AsText(Path(Path(root, "header"), "resultCode"), "") == "00"
              && AsInt(Path(Path(root, "body"), "totalCount"), 0) != 0
              && !IsMissing(Path(Path(Path(root, "body"), "items"), "item"))
  {
    match response
    case Threw => Failure(CallFailed)
    case Received(None) => Failure(NullBody)
    case Received(Some(body)) =>
      var root := Path(body, "response");
      if IsMissing(root) then Failure(NoResponseNode)
      else
        var code := AsText(Path(Path(root, "header"), "resultCode"), "");
        if code != "00" then Failure(ErrorResult(code))
        else
          var bodyNode := Path(root, "body");
          if IsMissing(bodyNode) then Failure(NoBodyNode)
          else if AsInt(Path(bodyNode, "totalCount"), 0) == 0 then Failure(NoData)
          else
            var itemsNode := Path(bodyNode, "items");
            if IsMissing(itemsNode) then Failure(NoItemsNode)
            else
              var itemNode := Path(itemsNode, "item");
              if IsMissing(itemNode) then Failure(NoItemNode)
              else Success(if itemNode.Array? then itemNode.elements else [itemNode])
  }

  /** The three locals of the scan: temperature (None standing for NaN), sky
      and precipitation type. */
  datatype ScanState = ScanState(temperature: Option<real>, sky: int, pty: int)

  const Initial := ScanState(None, 1, 0)

  /** One item of the switch over `category`: T1H, SKY and PTY overwrite their
      variable with the item's obsrValue, any other category is ignored. */
  function Step(st: ScanState, item: Node): (r: ScanState)
    ensures AsText(Path(item, "category"), "") !in {"T1H", "SKY", "PTY"} ==> r == st
  {
    var value := Path(item, "obsrValue");
    match AsText(Path(item, "category"), "")
    case "T1H" => st.(temperature := AsDouble(value))
    case "SKY" => st.(sky := AsInt(value, 1))
    case "PTY" => st.(pty := AsInt(value, 0))
    case _ => st
  }

  /** The state after scanning `items` from left to right. */
  function ScanAll(items: seq<Node>): ScanState {
    if items == [] then Initial else Step(ScanAll(items[..|items| - 1]), items[|items| - 1])
  }

  function Category(item: Node): string {
    AsText(Path(item, "category"), "")
  }

  /** The index of the last item with the given category, or -1. */
  function LastWithCategory(items: seq<Node>, category: string): (k: int)
    ensures -1 <= k < |items|
    ensures k >= 0 ==> Category(items[k]) == category
    ensures forall j :: k < j < |items| ==> Category(items[j]) != category
  {
    if items == [] then -1
    else if Category(items[|items| - 1]) == category then |items| - 1
    else
      var prefix := items[..|items| - 1];
      var k := LastWithCategory(prefix, category);
      assert forall j :: 0 <= j < |prefix| ==> prefix[j] == items[j];
      k
  }

  /** Last write wins: each variable holds the value of the last item of its
      category, or its initial value when there is none. */
  lemma ScanIsLastWrite(items: seq<Node>)
    ensures var st := ScanAll(items);
            var t, s, p := LastWithCategory(items, "T1H"), LastWithCategory(items, "SKY"), LastWithCategory(items, "PTY");
            && st.temperature == (if t == -1 then None else AsDouble(Path(items[t], "obsrValue")))
            && st.sky == (if s == -1 then 1 else AsInt(Path(items[s], "obsrValue"), 1))
            && st.pty == (if p == -1 then 0 else AsInt(Path(items[p], "obsrValue"), 0))
  {
    TemperatureIsLastWrite(items);
    SkyIsLastWrite(items);
    PrecipitationIsLastWrite(items);
  }

  lemma {:induction false} TemperatureIsLastWrite(items: seq<Node>)
    ensures var t := LastWithCategory(items, "T1H");
            ScanAll(items).temperature == (if t == -1 then None else AsDouble(Path(items[t], "obsrValue")))
  {
    if items != [] {
      var prefix := items[..|items| - 1];
      TemperatureIsLastWrite(prefix);
      var k := LastWithCategory(prefix, "T1H");
      if Category(items[|items| - 1]) != "T1H" && k != -1 {
        assert prefix[k] == items[k];
      }
    }
  }

  lemma {:induction false} SkyIsLastWrite(items: seq<Node>)
    ensures var s := LastWithCategory(items, "SKY");
            ScanAll(items).sky == (if s == -1 then 1 else AsInt(Path(items[s], "obsrValue"), 1))
  {
    if items != [] {
      var prefix := items[..|items| - 1];
      SkyIsLastWrite(prefix);
      var k := LastWithCategory(prefix, "SKY");
      if Category(items[|items| - 1]) != "SKY" && k != -1 {
        assert prefix[k] == items[k];
      }
    }
  }

  lemma {:induction false} PrecipitationIsLastWrite(items: seq<Node>)
    ensures var p := LastWithCategory(items, "PTY");
            ScanAll(items).pty == (if p == -1 then 0 else AsInt(Path(items[p], "obsrValue"), 0))
  {
    if items != [] {
      var prefix := items[..|items| - 1];
      PrecipitationIsLastWrite(prefix);
      var k := LastWithCategory(prefix, "PTY");
      if Category(items[|items| - 1]) != "PTY" && k != -1 {
        assert prefix[k] == items[k];
      }
    }
  }

  /** The loop over the items, updating the three locals. */
  method ScanItems(items: seq<Node>) returns (temperature: Option<real>, sky: int, pty: int)
    ensures ScanState(temperature, sky, pty) == ScanAll(items)
  {
    temperature, sky, pty := None, 1, 0;
    var i := 0;
    while i < |items|
      invariant 0 <= i <= |items|
      invariant ScanState(temperature, sky, pty) == ScanAll(items[..i])
    {
      var item := items[i];
      var category := AsText(Path(item, "category"), "");
      if category == "T1H" {
        temperature := AsDouble(Path(item, "obsrValue"));
      } else if category == "SKY" {
        sky := AsInt(Path(item, "obsrValue"), 1);
      } else if category == "PTY" {
        pty := AsInt(Path(item, "obsrValue"), 0);
      }
      assert items[..i + 1][..i] == items[..i];
      i := i + 1;
    }
    assert items[..i] == items;
  }

  /** getWeather as a function of the response: a failure from the checks,
      NoTemperature when the scan leaves the temperature NaN, else the reading. */
  function WeatherOf(response: Response): (r: Result<Reading, WeatherFailure>)
    ensures r.Success? <==> Validate(response).Success? && ScanAll(Validate(response).value).temperature.Some?
    ensures r.Success? ==> r.value == Reading(ScanAll(Validate(response).value).temperature.value,
                                              ScanAll(Validate(response).value).sky,
                                              ScanAll(Validate(response).value).pty)
  {
    match Validate(response)
    case Failure(e) => Failure(e)
    case Success(items) =>
      var st := ScanAll(items);
      if st.temperature.None? then Failure(NoTemperature)
      else Success(Reading(st.temperature.value, st.sky, st.pty))
  }

  /** A response without any T1H item is an error, whatever else it holds. */
  lemma NoTemperatureItemFails(response: Response)
    requires Validate(response).Success?
    requires forall j :: 0 <= j < |Validate(response).value| ==> Category(Validate(response).value[j]) != "T1H"
    ensures WeatherOf(response) == Failure(NoTemperature)
  {
    TemperatureIsLastWrite(Validate(response).value);
  }

  /** A result code other than "00" is reported as such. */
  lemma ErrorResultReported(body: Node)
    requires !IsMissing(Path(body, "response"))
    requires AsText(Path(Path(Path(body, "response"), "header"), "resultCode"), "") != "00"
    ensures WeatherOf(Received(Some(body)))
            == Failure(ErrorResult(AsText(Path(Path(Path(body, "response"), "header"), "resultCode"), "")))
  {
  }

  /** getWeather: the checks, then the loop over the items. */
  method GetWeather(response: Response) returns (r: Result<Reading, WeatherFailure>)
    ensures r == WeatherOf(response)
  {
    var checked := Validate(response);
    if checked.Failure? {
      return Failure(checked.error);
    }
    var temperature, sky, pty := ScanItems(checked.value);
    if temperature.None? {
      return Failure(NoTemperature);
    }
    return Success(Reading(temperature.value, sky, pty));
  }
}
