/** Worked examples: numbers as the feed writes them, and two station records
    rebuilt from the observations the repository's tests expect. */
module Samples {
  import opened Wrappers
  import opened Errors
  import opened Decimal
  import opened Pattern
  import opened Feed
  import opened WeatherData
  import opened StationData
  import opened ObservationData

  /** Reading a negative comma number: the digits around the comma fix its
      magnitude, and the magnitude 99 is the "no value" marker. */
  lemma ReadsNegativeParts(whole: string, frac: string, v: real)
    requires AllDigits(whole) && AllDigits(frac) && |whole| > 0
    requires Magnitude(whole, frac) == v
    ensures ReadFloat("-" + whole + "," + frac) == if v == 99.0 then None else Some(-v)
  {
    ReplaceCommaOfParts("-", whole, frac);
    NegativePointParse(whole, frac);
  }

  lemma NegativePointParse(whole: string, frac: string)
    requires AllDigits(whole) && AllDigits(frac) && |whole| > 0
    ensures ParseDecimal("-" + whole + "." + frac) == Some(-Magnitude(whole, frac))
  {
    MagnitudeScaled(whole, frac);
    var scaled := DigitsValue(whole + frac) as real / Pow10(|frac|) as real;
    assert ParseDecimal("-" + whole + "." + frac) == Some(Signed(true, scaled)) by {
      ParseDecimalOfParts(true, whole, frac);
    }
  }

  /** Reading a comma number with no sign: the digits around the comma fix the value. */
  lemma ReadsParts(whole: string, frac: string, v: real)
    requires AllDigits(whole) && AllDigits(frac) && |whole| > 0
    requires Magnitude(whole, frac) == v
    ensures ReadFloat(whole + "," + frac) == Some(v)
  {
    CommaRewrite(whole, frac);
    PointParse(whole, frac);
    MagnitudeNonNegative(whole, frac);
  }

  lemma CommaRewrite(whole: string, frac: string)
    requires AllDigits(whole) && AllDigits(frac)
    ensures ReplaceCommas(whole + "," + frac) == whole + "." + frac
  {
    ReplaceCommaOfParts("", whole, frac);
    assert "" + whole + "," + frac == whole + "," + frac;
    assert "" + whole + "." + frac == whole + "." + frac;
  }

  lemma PointParse(whole: string, frac: string)
    requires AllDigits(whole) && AllDigits(frac) && |whole| > 0
    ensures ParseDecimal(whole + "." + frac) == Some(Magnitude(whole, frac))
  {
    ParseDecimalOfParts(false, whole, frac);
    MagnitudeScaled(whole, frac);
    assert "" + whole + "." + frac == whole + "." + frac;
  }

  lemma MagnitudeNonNegative(whole: string, frac: string)
    requires AllDigits(whole) && AllDigits(frac)
    ensures Magnitude(whole, frac) >= 0.0
  {
    assert DigitsValue(frac) as real >= 0.0 && Pow10(|frac|) as real > 0.0;
  }

  /** Reading a number with no comma and no sign: the integer its digits spell. */
  lemma ReadsWhole(whole: string, n: nat)
    requires AllDigits(whole) && |whole| > 0 && DigitsValue(whole) == n
    ensures ReadFloat(whole) == Some(n as real)
  {
    ReadFloatOfWhole(false, whole);
    assert "" + whole == whole;
  }

  /** A record is well shaped when its code is a word, its temperatures are
      numbers, its condition is a possibly empty word and the rest are possibly
      empty numbers. */
  lemma ShapedByParts(values: seq<string>)
    requires |values| == |FieldNames|
    requires InLanguage(values[0], WordPlus) && InLanguage(values[4], WordStar)
    requires forall k | 1 <= k < 4 :: InLanguage(values[k], NumberPlus)
    requires forall k | 5 <= k < 15 :: InLanguage(values[k], NumberStar)
    ensures WellShaped(values)
  {
  }

  /** An item whose description holds a rendered record, after text without a
      `[`, read on a day its date reader recognises, becomes the observation of
      that record, whatever follows the record. */
  lemma RenderedObservation(item: FeedItem, pre: string, values: seq<string>, post: string,
                            time: Timestamp, weather: Weather, parseDate: string -> Option<Timestamp>)
    requires WellShaped(values) && item.description == pre + Render(values) + post
    requires forall k | 0 <= k < |pre| :: pre[k] != '['
    requires item.title != "" && parseDate(item.pubDate) == Some(time)
    requires RenderedWeather(values, time) == Success(weather)
    ensures FromFeedItem(item, parseDate)
      == Success(Observation(time, Station(item.title, values[0], Some(item.link)), weather))
  {
    FromRenderedItem(item, pre, values, post, parseDate);
  }

  /** A comma may end the number or start it: "1," reads as 1 and ",5" as 0.5,
      as Python's `float` reads "1." and ".5". */
  lemma ReadsTrailingComma()
    ensures ReadFloat("1,") == Some(1.0)
  {
  }

  lemma ReadsLeadingComma()
    ensures ReadFloat(",5") == Some(0.5)
  {
  }

  /** Texts that are no number give None rather than an error. */
  lemma RejectsMalformed()
    ensures ReadFloat("") == None
    ensures ReadFloat("-") == None
    ensures ReadFloat(",") == None
    ensures ReadFloat("1,2,3") == None
  {
  }

  /** The marker -99 gives None however many zero decimals follow it. */
  lemma MissingMarker()
    ensures ReadFloat("-99") == None
  {
  }

  lemma MissingMarkerWithDecimal()
    ensures ReadFloat("-99,0") == None
  {
    ReadsNegativeParts("99", "0", 99.0);
    assert "-" + "99" + "," + "0" == "-99,0";
  }

  lemma MissingMarkerWithDecimals()
    ensures ReadFloat("-99,00") == None
  {
    ReadsNegativeParts("99", "00", 99.0);
    assert "-" + "99" + "," + "00" == "-99,00";
  }

  /** The record of a station that reports every field. */
  const FullStationValues: seq<string> := [
    "ESCAT4300000043206B", "17,6", "17,9", "16,0", "hazesun",
    "77,0", "96,0", "74,0", "1002,0", "1003,8", "1000,9", "0,0", "29,0", "300,0", "3,2"
  ]

  /** The station the tests expect, as its constructor would build it. */
  const FullStationSite := Station("Reus - Nord (Tarragona)", "ESCAT4300000043206B",
    Some("http://www.meteoclimatic.net/perfil/ESCAT4300000043206B"))

  const FullStationTime := Timestamp(2020, 6, 4, 10, 48, 1, 0, 0)

  lemma FullStationNumbersShaped()
    ensures forall k | 5 <= k < 15 :: InLanguage(FullStationValues[k], NumberStar)
  {
  }

  lemma FullStationCodeShaped()
    ensures InLanguage(FullStationValues[0], WordPlus)
  {
    assert FullStationValues[0] == "ESCAT4300000043206B";
  }

  lemma FullStationLeadShaped()
    ensures InLanguage(FullStationValues[4], WordStar)
    ensures forall k | 1 <= k < 4 :: InLanguage(FullStationValues[k], NumberPlus)
  {
    assert FullStationValues[4] == "hazesun";
  }

  lemma FullStationShaped()
    ensures WellShaped(FullStationValues)
  {
    FullStationCodeShaped();
    FullStationLeadShaped();
    FullStationNumbersShaped();
    ShapedByParts(FullStationValues);
  }

  lemma FullStationTempCurrent()
    ensures ReadFloat("17,6") == Some(17.6)
  {
    ReadsParts("17", "6", 17.6);
    assert "17" + "," + "6" == "17,6";
  }

  lemma FullStationTempMax()
    ensures ReadFloat("17,9") == Some(17.9)
  {
    ReadsParts("17", "9", 17.9);
    assert "17" + "," + "9" == "17,9";
  }

  lemma FullStationTempMin()
    ensures ReadFloat("16,0") == Some(16.0)
  {
    ReadsParts("16", "0", 16.0);
    assert "16" + "," + "0" == "16,0";
  }

  lemma FullStationHumidityCurrent()
    ensures ReadFloat("77,0") == Some(77.0)
  {
    ReadsParts("77", "0", 77.0);
    assert "77" + "," + "0" == "77,0";
  }

  lemma FullStationHumidityMax()
    ensures ReadFloat("96,0") == Some(96.0)
  {
    ReadsParts("96", "0", 96.0);
    assert "96" + "," + "0" == "96,0";
  }

  lemma FullStationHumidityMin()
    ensures ReadFloat("74,0") == Some(74.0)
  {
    ReadsParts("74", "0", 74.0);
    assert "74" + "," + "0" == "74,0";
  }

  lemma FullStationPressureCurrent()
    ensures ReadFloat("1002,0") == Some(1002.0)
  {
    ReadsParts("1002", "0", 1002.0);
    assert "1002" + "," + "0" == "1002,0";
  }

  lemma FullStationPressureMax()
    ensures ReadFloat("1003,8") == Some(1003.8)
  {
    ReadsParts("1003", "8", 1003.8);
    assert "1003" + "," + "8" == "1003,8";
  }

  lemma FullStationPressureMin()
    ensures ReadFloat("1000,9") == Some(1000.9)
  {
    ReadsParts("1000", "9", 1000.9);
    assert "1000" + "," + "9" == "1000,9";
  }

  lemma FullStationWindCurrent()
    ensures ReadFloat("0,0") == Some(0.0)
  {
    ReadsParts("0", "0", 0.0);
    assert "0" + "," + "0" == "0,0";
  }

  lemma FullStationWindMax()
    ensures ReadFloat("29,0") == Some(29.0)
  {
    ReadsParts("29", "0", 29.0);
    assert "29" + "," + "0" == "29,0";
  }

  lemma FullStationWindBearing()
    ensures ReadFloat("300,0") == Some(300.0)
  {
    ReadsParts("300", "0", 300.0);
    assert "300" + "," + "0" == "300,0";
  }

  lemma FullStationRain()
    ensures ReadFloat("3,2") == Some(3.2)
  {
    ReadsParts("3", "2", 3.2);
    assert "3" + "," + "2" == "3,2";
  }

  /** The full station's weather as built from its texts, before reading them. */
  lemma FullStationFields(time: Timestamp)
    ensures RenderedWeather(FullStationValues, time)
      == NewWeather(time, Known(Hazesun),
           ReadFloat("17,6"), ReadFloat("17,9"), ReadFloat("16,0"),
           ReadFloat("77,0"), ReadFloat("96,0"), ReadFloat("74,0"),
           ReadFloat("1002,0"), ReadFloat("1003,8"), ReadFloat("1000,9"),
           ReadFloat("0,0"), ReadFloat("29,0"), ReadFloat("300,0"), ReadFloat("3,2"))
  {
    var v := FullStationValues;
    assert ConditionFromText(TextOf(v[4])) == Known(Hazesun) by {
      assert v[4] == "hazesun";
      assert ConditionOf("hazesun") == Some(Hazesun);
    }
    assert v[1] == "17,6" && v[2] == "17,9" && v[3] == "16,0";
    assert v[5] == "77,0" && v[6] == "96,0" && v[7] == "74,0";
    assert v[8] == "1002,0" && v[9] == "1003,8" && v[10] == "1000,9";
    assert v[11] == "0,0" && v[12] == "29,0" && v[13] == "300,0" && v[14] == "3,2";
  }

  /** The weather the tests expect of the full station. */
  const FullStationReport := Weather(FullStationTime, Known(Hazesun),
    Some(17.6), Some(17.9), Some(16.0), Some(77.0), Some(96.0), Some(74.0),
    Some(1002.0), Some(1003.8), Some(1000.9), Some(0.0), Some(29.0), Some(300.0), Some(3.2))

  lemma FullStationWeather()
    ensures RenderedWeather(FullStationValues, FullStationTime) == Success(FullStationReport)
  {
    FullStationFields(FullStationTime);
    FullStationTempCurrent();
    FullStationTempMax();
    FullStationTempMin();
    FullStationHumidityCurrent();
    FullStationHumidityMax();
    FullStationHumidityMin();
    FullStationPressureCurrent();
    FullStationPressureMax();
    FullStationPressureMin();
    FullStationWindCurrent();
    FullStationWindMax();
    FullStationWindBearing();
    FullStationRain();
  }

  /** An item of the full station, its description holding the station's record
      after text without a `[`, becomes the observation the tests expect, given
      a date reader that reads its publication date as 2020-06-04 10:48:01 UTC. */
  lemma FullStationObservation(item: FeedItem, pre: string, post: string, parseDate: string -> Option<Timestamp>)
    requires item.title == FullStationSite.name && Some(item.link) == FullStationSite.url
    requires item.description == pre + Render(FullStationValues) + post
    requires forall k | 0 <= k < |pre| :: pre[k] != '['
    requires parseDate(item.pubDate) == Some(FullStationTime)
    ensures FromFeedItem(item, parseDate)
      == Success(Observation(FullStationTime,
           FullStationSite,
           FullStationReport))
  {
    FullStationShaped();
    FullStationWeather();
    assert FullStationValues[0] == FullStationSite.code;
    RenderedObservation(item, pre, FullStationValues, post, FullStationTime, FullStationReport, parseDate);
  }

  /** The record of a station without an anemometer, rebuilt from the values
      its test expects: its wind fields are empty. */
  const UnratedStationValues: seq<string> := [
    "ESPVA4600000046530D", "23,1", "25,4", "19,6", "sun",
    "49,0", "85,0", "47,0", "1002,2", "1002,8", "999,9", "", "", "", "0,2"
  ]

  /** The station the tests expect, as its constructor would build it. */
  const UnratedStationSite := Station("Puçol-Ciudad Jardín (Valencia)", "ESPVA4600000046530D",
    Some("http://www.meteoclimatic.net/perfil/ESPVA4600000046530D"))

  const UnratedStationTime := Timestamp(2020, 6, 4, 10, 45, 0, 0, 0)

  lemma UnratedStationNumbersShaped()
    ensures forall k | 5 <= k < 15 :: InLanguage(UnratedStationValues[k], NumberStar)
  {
  }

  lemma UnratedStationCodeShaped()
    ensures InLanguage(UnratedStationValues[0], WordPlus)
  {
    assert UnratedStationValues[0] == "ESPVA4600000046530D";
  }

  lemma UnratedStationLeadShaped()
    ensures InLanguage(UnratedStationValues[4], WordStar)
    ensures forall k | 1 <= k < 4 :: InLanguage(UnratedStationValues[k], NumberPlus)
  {
    assert UnratedStationValues[4] == "sun";
  }

  lemma UnratedStationShaped()
    ensures WellShaped(UnratedStationValues)
  {
    UnratedStationCodeShaped();
    UnratedStationLeadShaped();
    UnratedStationNumbersShaped();
    ShapedByParts(UnratedStationValues);
  }

  lemma UnratedStationTempCurrent()
    ensures ReadFloat("23,1") == Some(23.1)
  {
    ReadsParts("23", "1", 23.1);
    assert "23" + "," + "1" == "23,1";
  }

  lemma UnratedStationTempMax()
    ensures ReadFloat("25,4") == Some(25.4)
  {
    ReadsParts("25", "4", 25.4);
    assert "25" + "," + "4" == "25,4";
  }

  lemma UnratedStationTempMin()
    ensures ReadFloat("19,6") == Some(19.6)
  {
    ReadsParts("19", "6", 19.6);
    assert "19" + "," + "6" == "19,6";
  }

  lemma UnratedStationHumidityCurrent()
    ensures ReadFloat("49,0") == Some(49.0)
  {
    ReadsParts("49", "0", 49.0);
    assert "49" + "," + "0" == "49,0";
  }

  lemma UnratedStationHumidityMax()
    ensures ReadFloat("85,0") == Some(85.0)
  {
    ReadsParts("85", "0", 85.0);
    assert "85" + "," + "0" == "85,0";
  }

  lemma UnratedStationHumidityMin()
    ensures ReadFloat("47,0") == Some(47.0)
  {
    ReadsParts("47", "0", 47.0);
    assert "47" + "," + "0" == "47,0";
  }

  lemma UnratedStationPressureCurrent()
    ensures ReadFloat("1002,2") == Some(1002.2)
  {
    ReadsParts("1002", "2", 1002.2);
    assert "1002" + "," + "2" == "1002,2";
  }

  lemma UnratedStationPressureMax()
    ensures ReadFloat("1002,8") == Some(1002.8)
  {
    ReadsParts("1002", "8", 1002.8);
    assert "1002" + "," + "8" == "1002,8";
  }

  lemma UnratedStationPressureMin()
    ensures ReadFloat("999,9") == Some(999.9)
  {
    ReadsParts("999", "9", 999.9);
    assert "999" + "," + "9" == "999,9";
  }

  lemma UnratedStationRain()
    ensures ReadFloat("0,2") == Some(0.2)
  {
    ReadsParts("0", "2", 0.2);
    assert "0" + "," + "2" == "0,2";
  }

  /** The unrated station's weather as built from its texts, before reading them. */
  lemma UnratedStationFields(time: Timestamp)
    ensures RenderedWeather(UnratedStationValues, time)
      == NewWeather(time, Known(Sun),
           ReadFloat("23,1"), ReadFloat("25,4"), ReadFloat("19,6"),
           ReadFloat("49,0"), ReadFloat("85,0"), ReadFloat("47,0"),
           ReadFloat("1002,2"), ReadFloat("1002,8"), ReadFloat("999,9"),
           ReadFloat(""), ReadFloat(""), ReadFloat(""), ReadFloat("0,2"))
  {
    var v := UnratedStationValues;
    assert ConditionFromText(TextOf(v[4])) == Known(Sun) by {
      assert v[4] == "sun";
      assert ConditionOf("sun") == Some(Sun);
    }
    assert v[1] == "23,1" && v[2] == "25,4" && v[3] == "19,6";
    assert v[5] == "49,0" && v[6] == "85,0" && v[7] == "47,0";
    assert v[8] == "1002,2" && v[9] == "1002,8" && v[10] == "999,9";
    assert v[11] == "" && v[12] == "" && v[13] == "" && v[14] == "0,2";
  }

  /** The weather the tests expect of the unrated station: no wind readings. */
  const UnratedStationReport := Weather(UnratedStationTime, Known(Sun),
    Some(23.1), Some(25.4), Some(19.6), Some(49.0), Some(85.0), Some(47.0),
    Some(1002.2), Some(1002.8), Some(999.9), None, None, None, Some(0.2))

  /** The readings of the unrated station pass every range check. */
  lemma UnratedStationValid()
    ensures NewWeather(UnratedStationTime, Known(Sun),
      Some(23.1), Some(25.4), Some(19.6), Some(49.0), Some(85.0), Some(47.0),
      Some(1002.2), Some(1002.8), Some(999.9), None, None, None, Some(0.2))
      == Success(UnratedStationReport)
  {
    assert UnratedStationReport.Valid();
  }

  lemma UnratedStationWeather()
    ensures RenderedWeather(UnratedStationValues, UnratedStationTime) == Success(UnratedStationReport)
  {
    UnratedStationFields(UnratedStationTime);
    UnratedStationValid();
    UnratedStationTempCurrent();
    UnratedStationTempMax();
    UnratedStationTempMin();
    UnratedStationHumidityCurrent();
    UnratedStationHumidityMax();
    UnratedStationHumidityMin();
    UnratedStationPressureCurrent();
    UnratedStationPressureMax();
    UnratedStationPressureMin();
    RejectsMalformed();
    UnratedStationRain();
  }

  /** An item of the unrated station, its description holding the station's
      record after text without a `[`, becomes the observation the tests expect,
      given a date reader that reads its publication date as 2020-06-04 10:45:00 UTC. */
  lemma UnratedStationObservation(item: FeedItem, pre: string, post: string, parseDate: string -> Option<Timestamp>)
    requires item.title == UnratedStationSite.name && Some(item.link) == UnratedStationSite.url
    requires item.description == pre + Render(UnratedStationValues) + post
    requires forall k | 0 <= k < |pre| :: pre[k] != '['
    requires parseDate(item.pubDate) == Some(UnratedStationTime)
    ensures FromFeedItem(item, parseDate)
      == Success(Observation(UnratedStationTime,
           UnratedStationSite,
           UnratedStationReport))
  {
    UnratedStationShaped();
    UnratedStationWeather();
    assert UnratedStationValues[0] == UnratedStationSite.code;
    RenderedObservation(item, pre, UnratedStationValues, post, UnratedStationTime, UnratedStationReport, parseDate);
  }
}
