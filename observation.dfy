/** `Observation`: the weather observed at a station, and its construction
    from one item of the RSS feed. */
module ObservationData {
  import opened Wrappers
  import opened Errors
  import opened Pattern
  import opened Feed
  import opened WeatherData
  import opened StationData

  datatype Observation = Observation(receptionTime: Timestamp, station: Station, weather: Weather)

  /** The texts of the four elements of an RSS item the parser reads. */
  datatype FeedItem = FeedItem(title: string, link: string, pubDate: string, description: string)

  /** `datetime.strptime(text, "%a, %d %b %Y %H:%M:%S %z")`, with the date
      reading itself supplied by the caller. */
  function ParseReceptionTime(text: string, parseDate: string -> Option<Timestamp>): (r: Result<Timestamp, ValueError>)
    ensures r.Success? <==> parseDate(text).Some?
    ensures r.Success? ==> r.value == parseDate(text).value
    ensures r.Failure? ==> r.error == DateMismatch(text)
  {
    match parseDate(text)
    case None => Failure(DateMismatch(text))
    case Some(t) => Success(t)
  }

  /** The condition handed to `Weather`: the member whose value is the captured
      text, or else the text itself (None when nothing was captured). */
  function ConditionFromText(text: Option<string>): (c: ConditionValue)
    ensures c.Known? <==> text.Some? && ConditionOf(text.value).Some?
    ensures c.Known? ==> c.condition.Value() == text.value
    ensures c.Unrecognized? ==> c.text == text
  {
    if text.Some? && ConditionOf(text.value).Some? then Known(ConditionOf(text.value).value)
    else Unrecognized(text)
  }

  /** `Observation.from_feed_item`: find the station record, then build the
      observation from it; the first step to fail decides the error. */
  function FromFeedItem(item: FeedItem, parseDate: string -> Option<Timestamp>): (r: Result<Observation, ValueError>)
    ensures r.Failure? ==>
      || r.error == StationInformationNotFound || r.error == EmptyStationName
      || r.error == DateMismatch(item.pubDate) || r.error.IsRangeError()
    ensures r.Success? ==>
      && r.value.station == Station(item.title, r.value.station.code, Some(item.link))
      && r.value.station.Valid()
      && parseDate(item.pubDate) == Some(r.value.receptionTime)
      && r.value.weather.referenceTime == r.value.receptionTime && r.value.weather.Valid()
  {
    match NewHelper(item.description)
    case Failure(e) => Failure(e)
    case Success(helper) =>
      HelperHasCode(item.description);
      ObservationOf(helper, item, parseDate)
  }

  /** The rest of `from_feed_item` once the station record is found: build the
      station, read the date, then the weather at that date. */
  function ObservationOf(helper: FeedItemHelper, item: FeedItem, parseDate: string -> Option<Timestamp>)
    : (r: Result<Observation, ValueError>)
    ensures r.Failure? ==>
      || r.error == EmptyStationName || r.error == EmptyStationCode
      || r.error == DateMismatch(item.pubDate) || r.error.IsRangeError()
    ensures r == Failure(EmptyStationCode) ==> helper.GetText("station_code").None?
    ensures r.Success? ==>
      && helper.GetText("station_code") == Some(r.value.station.code)
      && r.value.station == Station(item.title, r.value.station.code, Some(item.link))
      && r.value.station.Valid()
      && parseDate(item.pubDate) == Some(r.value.receptionTime)
      && r.value.weather.referenceTime == r.value.receptionTime && r.value.weather.Valid()
  {
    var station :- NewStation(Some(item.title), helper.GetText("station_code"), Some(item.link));
    var time :- ParseReceptionTime(item.pubDate, parseDate);
    var weather :- WeatherOf(helper, time);
    Success(Observation(time, station, weather))
  }

  /** The weather of a found record: the condition looked up, then the thirteen
      numbers as `get_float` reads them. */
  function WeatherOf(helper: FeedItemHelper, time: Timestamp): (r: Result<Weather, ValueError>)
    ensures r.Failure? ==> r.error.IsRangeError()
    ensures r.Success? ==> r.value.referenceTime == time && r.value.Valid()
  {
    // The source reads `wind_max` a second time after `rain`; the value is the same.
    NewWeather(time, ConditionFromText(helper.GetText("condition")),
      helper.GetFloat("temp_current"), helper.GetFloat("temp_max"), helper.GetFloat("temp_min"),
      helper.GetFloat("humidity_current"), helper.GetFloat("humidity_max"), helper.GetFloat("humidity_min"),
      helper.GetFloat("pressure_current"), helper.GetFloat("pressure_max"), helper.GetFloat("pressure_min"),
      helper.GetFloat("wind_current"), helper.GetFloat("wind_max"), helper.GetFloat("wind_bearing"),
      helper.GetFloat("rain"))
  }

  /** Once the record is found, the errors come in this order: an empty title,
      then an unreadable date, then the weather ranges; with a station code
      present, the code check never fails. */
  lemma ObservationOfErrors(helper: FeedItemHelper, item: FeedItem, parseDate: string -> Option<Timestamp>)
    requires helper.GetText("station_code").Some?
    ensures item.title == "" ==> ObservationOf(helper, item, parseDate) == Failure(EmptyStationName)
    ensures item.title != "" && parseDate(item.pubDate).None? ==>
      ObservationOf(helper, item, parseDate) == Failure(DateMismatch(item.pubDate))
    ensures ObservationOf(helper, item, parseDate).Failure? ==>
      var e := ObservationOf(helper, item, parseDate).error;
      e == EmptyStationName || e == DateMismatch(item.pubDate) || e.IsRangeError()
  {
  }

  /** The two steps of `from_feed_item`: the helper's failure is the result,
      otherwise the observation is built from the helper. */
  lemma FromFeedItemSteps(item: FeedItem, parseDate: string -> Option<Timestamp>)
    ensures NewHelper(item.description).Failure? ==>
      FromFeedItem(item, parseDate) == Failure(StationInformationNotFound)
    ensures NewHelper(item.description).Success? ==>
      FromFeedItem(item, parseDate) == ObservationOf(NewHelper(item.description).value, item, parseDate)
  {
  }

  /** The errors and their order: no station record, then an empty title, then
      an unreadable date, then the weather ranges; no other error occurs, in
      particular never an empty station code. */
  lemma FromFeedItemErrors(item: FeedItem, parseDate: string -> Option<Timestamp>)
    ensures NewHelper(item.description).Failure? ==>
      FromFeedItem(item, parseDate) == Failure(StationInformationNotFound)
    ensures NewHelper(item.description).Success? && item.title == "" ==>
      FromFeedItem(item, parseDate) == Failure(EmptyStationName)
    ensures NewHelper(item.description).Success? && item.title != "" && parseDate(item.pubDate).None? ==>
      FromFeedItem(item, parseDate) == Failure(DateMismatch(item.pubDate))
    ensures FromFeedItem(item, parseDate).Failure? ==>
      var e := FromFeedItem(item, parseDate).error;
      e == StationInformationNotFound || e == EmptyStationName || e == DateMismatch(item.pubDate) || e.IsRangeError()
  {
    FromFeedItemSteps(item, parseDate);
    if NewHelper(item.description).Success? {
      StationCodeCaptured(item.description);
      ObservationOfErrors(NewHelper(item.description).value, item, parseDate);
    }
  }

  /** What an observation built from a found record holds: one timestamp, read
      from pubDate, for both the reception and the weather; the item's title
      and link with the captured code as the station; the captured condition;
      and every reading as `get_float` gives it, within range. */
  lemma ObservationOfContents(helper: FeedItemHelper, item: FeedItem, parseDate: string -> Option<Timestamp>)
    requires ObservationOf(helper, item, parseDate).Success?
    ensures var o := ObservationOf(helper, item, parseDate).value;
      && parseDate(item.pubDate) == Some(o.receptionTime)
      && o.weather.referenceTime == o.receptionTime
      && helper.GetText("station_code").Some?
      && o.station == Station(item.title, helper.GetText("station_code").value, Some(item.link))
      && o.station.Valid() && o.weather.Valid()
      && o.weather.condition == ConditionFromText(helper.GetText("condition"))
      && o.weather.tempCurrent == helper.GetFloat("temp_current")
      && o.weather.tempMax == helper.GetFloat("temp_max")
      && o.weather.tempMin == helper.GetFloat("temp_min")
      && o.weather.humidityCurrent == helper.GetFloat("humidity_current")
      && o.weather.humidityMax == helper.GetFloat("humidity_max")
      && o.weather.humidityMin == helper.GetFloat("humidity_min")
      && o.weather.pressureCurrent == helper.GetFloat("pressure_current")
      && o.weather.pressureMax == helper.GetFloat("pressure_max")
      && o.weather.pressureMin == helper.GetFloat("pressure_min")
      && o.weather.windCurrent == helper.GetFloat("wind_current")
      && o.weather.windMax == helper.GetFloat("wind_max")
      && o.weather.windBearing == helper.GetFloat("wind_bearing")
      && o.weather.rain == helper.GetFloat("rain")
  {
  }

  /** A parsed observation is the one built from the captures of the leftmost
      station record of the description. */
  lemma FromFeedItemContents(item: FeedItem, parseDate: string -> Option<Timestamp>)
    requires FromFeedItem(item, parseDate).Success?
    ensures NewHelper(item.description).Success?
    ensures LeftmostCaptures(item.description, Grammar, NewHelper(item.description).value.groups)
    ensures FromFeedItem(item, parseDate) == ObservationOf(NewHelper(item.description).value, item, parseDate)
  {
    var helper := NewHelper(item.description).value;
    HelperFindsLeftmost(item.description);
    assert FromFeedItem(item, parseDate) == ObservationOf(helper, item, parseDate);
    ObservationOfContents(helper, item, parseDate);
  }

  /** The weather the values of a rendered record stand for: the condition
      text looked up, and each number read as `get_float` reads it. */
  function RenderedWeather(values: seq<string>, time: Timestamp): Result<Weather, ValueError>
    requires |values| == |FieldNames|
  {
    NewWeather(time, ConditionFromText(TextOf(values[4])),
      ReadFloat(values[1]), ReadFloat(values[2]), ReadFloat(values[3]),
      ReadFloat(values[5]), ReadFloat(values[6]), ReadFloat(values[7]),
      ReadFloat(values[8]), ReadFloat(values[9]), ReadFloat(values[10]),
      ReadFloat(values[11]), ReadFloat(values[12]), ReadFloat(values[13]),
      ReadFloat(values[14]))
  }

  /** The weather of a helper carrying `values` is the weather they stand for:
      each field is read under its own name. */
  lemma WeatherOfCarried(helper: FeedItemHelper, values: seq<string>, time: Timestamp)
    requires Carries(helper, values)
    ensures WeatherOf(helper, time) == RenderedWeather(values, time)
  {
    assert FieldNames[1] == "temp_current";
    assert FieldNames[2] == "temp_max";
    assert FieldNames[3] == "temp_min";
    assert FieldNames[4] == "condition";
    assert FieldNames[5] == "humidity_current";
    assert FieldNames[6] == "humidity_max";
    assert FieldNames[7] == "humidity_min";
    assert FieldNames[8] == "pressure_current";
    assert FieldNames[9] == "pressure_max";
    assert FieldNames[10] == "pressure_min";
    assert FieldNames[11] == "wind_current";
    assert FieldNames[12] == "wind_max";
    assert FieldNames[13] == "wind_bearing";
    assert FieldNames[14] == "rain";
    assert ReadFloat("") == None;
  }

  /** Once the station code is known and the title and date are good, the
      observation is the weather at the date, with the item's station. */
  lemma ObservationOfGoodItem(helper: FeedItemHelper, item: FeedItem, parseDate: string -> Option<Timestamp>)
    requires helper.GetText("station_code").Some?
    requires item.title != "" && parseDate(item.pubDate).Some?
    ensures var time := parseDate(item.pubDate).value;
      var weather := WeatherOf(helper, time);
      var station := Station(item.title, helper.GetText("station_code").value, Some(item.link));
      ObservationOf(helper, item, parseDate)
      == if weather.Failure? then Failure(weather.error) else Success(Observation(time, station, weather.value))
  {
  }

  /** The observation built from a helper carrying `values`: the title and
      link with `values[0]` as the station code, and the weather the values
      stand for, at the one timestamp of the pubDate. */
  lemma ObservationOfCarried(helper: FeedItemHelper, item: FeedItem, values: seq<string>,
                             parseDate: string -> Option<Timestamp>)
    requires Carries(helper, values) && values[0] != ""
    requires item.title != "" && parseDate(item.pubDate).Some?
    ensures var time := parseDate(item.pubDate).value;
      var weather := RenderedWeather(values, time);
      ObservationOf(helper, item, parseDate)
      == if weather.Failure? then Failure(weather.error)
         else Success(Observation(time, Station(item.title, values[0], Some(item.link)), weather.value))
  {
    assert FieldNames[0] == "station_code";
    ObservationOfGoodItem(helper, item, parseDate);
    WeatherOfCarried(helper, values, parseDate(item.pubDate).value);
  }

  /** An item whose description holds a rendered record is built from the
      helper holding the rendered values. */
  lemma FromRenderedDescription(item: FeedItem, pre: string, values: seq<string>, post: string,
                                parseDate: string -> Option<Timestamp>)
    requires WellShaped(values) && item.description == pre + Render(values) + post
    requires forall k | 0 <= k < |pre| :: pre[k] != '['
    ensures FromFeedItem(item, parseDate) == ObservationOf(FeedItemHelper(Zip(FieldNames, values)), item, parseDate)
  {
    DecodeRender(pre, values, post);
    FromFeedItemSteps(item, parseDate);
  }

  /** The full round trip: an item whose description holds a rendered record,
      after text without a `[`, with a title and a readable date, becomes the
      observation of the rendered values. */
  lemma FromRenderedItem(item: FeedItem, pre: string, values: seq<string>, post: string,
                         parseDate: string -> Option<Timestamp>)
    requires WellShaped(values) && item.description == pre + Render(values) + post
    requires forall k | 0 <= k < |pre| :: pre[k] != '['
    requires item.title != "" && parseDate(item.pubDate).Some?
    ensures values[0] != ""
    ensures var time := parseDate(item.pubDate).value;
      var weather := RenderedWeather(values, time);
      FromFeedItem(item, parseDate)
      == if weather.Failure? then Failure(weather.error)
         else Success(Observation(time, Station(item.title, values[0], Some(item.link)), weather.value))
  {
    var helper := FeedItemHelper(Zip(FieldNames, values));
    FromRenderedDescription(item, pre, values, post, parseDate);
    RenderedCodeNonEmpty(values);
    ZipCarries(values);
    ObservationOfCarried(helper, item, values, parseDate);
  }
}
