/** `Condition` and `Weather`: the single-word sky condition and the raw
    readings of one observation, validated when they are built. */
module WeatherData {
  import opened Wrappers
  import opened Errors

  /** A `datetime` with its UTC offset, as `strptime` returns it. */
  datatype Timestamp = Timestamp(
    year: int, month: int, day: int,
    hour: int, minute: int, second: int, microsecond: int,
    utcOffsetSeconds: int)

  /** The conditions Meteoclimatic reports; each enum member's value is its
      own name in lower case. */
  datatype Condition =
    | Fog | Hazemoon | Hazesun | Lightning | Mist | Moon
    | Mooncloud | Rain | Sun | Suncloud | Storm
  {
    /** The member's value, `name.lower()`. */
    function Value(): string {
      match this
      case Fog => "fog"
      case Hazemoon => "hazemoon"
      case Hazesun => "hazesun"
      case Lightning => "lightning"
      case Mist => "mist"
      case Moon => "moon"
      case Mooncloud => "mooncloud"
      case Rain => "rain"
      case Sun => "sun"
      case Suncloud => "suncloud"
      case Storm => "storm"
    }
  }

  /** The members in declaration order. */
  const AllConditions: seq<Condition> :=
    [Fog, Hazemoon, Hazesun, Lightning, Mist, Moon, Mooncloud, Rain, Sun, Suncloud, Storm]

  /** `Condition(value)`: the member whose value is `value`; None where Python
      raises `ValueError`. */
  function ConditionOf(value: string): (r: Option<Condition>)
    ensures r.Some? ==> r.value.Value() == value
    ensures r.None? ==> forall c: Condition :: c.Value() != value
  {
    if value == "fog" then Some(Fog)
    else if value == "hazemoon" then Some(Hazemoon)
    else if value == "hazesun" then Some(Hazesun)
    else if value == "lightning" then Some(Lightning)
    else if value == "mist" then Some(Mist)
    else if value == "moon" then Some(Moon)
    else if value == "mooncloud" then Some(Mooncloud)
    else if value == "rain" then Some(Rain)
    else if value == "sun" then Some(Sun)
    else if value == "suncloud" then Some(Suncloud)
    else if value == "storm" then Some(Storm)
    else None
  }

  /** Looking a member up by its value gives the member back, so no two
      members share a value. */
  lemma ConditionRoundTrip(c: Condition)
    ensures ConditionOf(c.Value()) == Some(c)
    ensures forall d: Condition :: d.Value() == c.Value() ==> d == c
  {
  }

  /** The enum lists every member once, eleven in all. */
  lemma AllConditionsComplete()
    ensures |AllConditions| == 11
    ensures forall c: Condition :: c in AllConditions
    ensures forall j, k | 0 <= j < k < |AllConditions| :: AllConditions[j] != AllConditions[k]
  {
    forall c: Condition
      ensures c in AllConditions
    {
      var k := match c
        case Fog => 0 case Hazemoon => 1 case Hazesun => 2 case Lightning => 3
        case Mist => 4 case Moon => 5 case Mooncloud => 6 case Rain => 7
        case Sun => 8 case Suncloud => 9 case Storm => 10;
      assert AllConditions[k] == c;
    }
  }

  /** Values are lower-case: an upper-case spelling is not recognised. */
  lemma ConditionIsCaseSensitive()
    ensures ConditionOf("sun") == Some(Sun)
    ensures ConditionOf("Sun") == None
    ensures ConditionOf("") == None
  {
  }

  /** What `Weather.condition` may hold: a member, or (when the text was not a
      member's value) the literal text, or `None` when there was none. */
  datatype ConditionValue = Known(condition: Condition) | Unrecognized(text: Option<string>)

  predicate HumidityInRange(h: Option<real>) {
    h.None? || (0.0 <= h.value && h.value <= 100.0)
  }

  predicate WindNonNegative(w: Option<real>) {
    w.None? || w.value >= 0.0
  }

  predicate BearingInRange(b: Option<real>) {
    b.None? || (0.0 <= b.value && b.value <= 360.0)
  }

  predicate RainNonNegative(r: Option<real>) {
    r.None? || r.value >= 0.0
  }

  /** The readings of one observation; a missing reading is `None`. */
  datatype Weather = Weather(
    referenceTime: Timestamp,
    condition: ConditionValue,
    tempCurrent: Option<real>, tempMax: Option<real>, tempMin: Option<real>,
    humidityCurrent: Option<real>, humidityMax: Option<real>, humidityMin: Option<real>,
    pressureCurrent: Option<real>, pressureMax: Option<real>, pressureMin: Option<real>,
    windCurrent: Option<real>, windMax: Option<real>, windBearing: Option<real>,
    rain: Option<real>)
  {
    /** The ranges the constructor enforces: humidities within [0, 100],
        wind speeds and rain not negative, bearing within [0, 360]. The
        temperatures, the pressures and the condition are not checked. */
    predicate Valid() {
      && HumidityInRange(humidityCurrent) && HumidityInRange(humidityMax) && HumidityInRange(humidityMin)
      && WindNonNegative(windCurrent) && WindNonNegative(windMax)
      && BearingInRange(windBearing)
      && RainNonNegative(rain)
    }
  }

  /** `Weather(...)`: checks the humidities, then the wind speeds, then the
      bearing, then the rain, and fails with the message of the first group
      out of range; otherwise keeps every argument as given. */
  function NewWeather(
    referenceTime: Timestamp, condition: ConditionValue,
    tempCurrent: Option<real>, tempMax: Option<real>, tempMin: Option<real>,
    humidityCurrent: Option<real>, humidityMax: Option<real>, humidityMin: Option<real>,
    pressureCurrent: Option<real>, pressureMax: Option<real>, pressureMin: Option<real>,
    windCurrent: Option<real>, windMax: Option<real>, windBearing: Option<real>,
    rain: Option<real>): (r: Result<Weather, ValueError>)
    ensures var w := Weather(referenceTime, condition, tempCurrent, tempMax, tempMin,
      humidityCurrent, humidityMax, humidityMin, pressureCurrent, pressureMax, pressureMin,
      windCurrent, windMax, windBearing, rain);
      (r.Success? <==> w.Valid()) && (r.Success? ==> r.value == w)
    ensures r.Failure? ==> r.error.IsRangeError()
    ensures !(HumidityInRange(humidityCurrent) && HumidityInRange(humidityMax) && HumidityInRange(humidityMin))
      ==> r == Failure(HumidityOutOfRange)
    ensures HumidityInRange(humidityCurrent) && HumidityInRange(humidityMax) && HumidityInRange(humidityMin)
      && !(WindNonNegative(windCurrent) && WindNonNegative(windMax))
      ==> r == Failure(NegativeWind)
    ensures HumidityInRange(humidityCurrent) && HumidityInRange(humidityMax) && HumidityInRange(humidityMin)
      && WindNonNegative(windCurrent) && WindNonNegative(windMax) && !BearingInRange(windBearing)
      ==> r == Failure(WindBearingOutOfRange)
    ensures HumidityInRange(humidityCurrent) && HumidityInRange(humidityMax) && HumidityInRange(humidityMin)
      && WindNonNegative(windCurrent) && WindNonNegative(windMax) && BearingInRange(windBearing)
      && !RainNonNegative(rain)
      ==> r == Failure(NegativeRain)
  {
    if !(HumidityInRange(humidityCurrent) && HumidityInRange(humidityMax) && HumidityInRange(humidityMin)) then
      Failure(HumidityOutOfRange)
    else if !(WindNonNegative(windCurrent) && WindNonNegative(windMax)) then
      Failure(NegativeWind)
    else if !BearingInRange(windBearing) then
      Failure(WindBearingOutOfRange)
    else if !RainNonNegative(rain) then
      Failure(NegativeRain)
    else
      Success(Weather(referenceTime, condition, tempCurrent, tempMax, tempMin,
        humidityCurrent, humidityMax, humidityMin, pressureCurrent, pressureMax, pressureMin,
        windCurrent, windMax, windBearing, rain))
  }

  /** The constructor applied to the fields of `w`. */
  function Rebuild(w: Weather): Result<Weather, ValueError> {
    NewWeather(w.referenceTime, w.condition, w.tempCurrent, w.tempMax, w.tempMin,
      w.humidityCurrent, w.humidityMax, w.humidityMin, w.pressureCurrent, w.pressureMax, w.pressureMin,
      w.windCurrent, w.windMax, w.windBearing, w.rain)
  }

  /** Every valid weather is accepted and kept unchanged, and only valid ones:
      the constructor is the identity on its invariant and rejects the rest. */
  lemma RebuildIsIdentityOnValid(w: Weather)
    ensures Rebuild(w).Success? <==> w.Valid()
    ensures Rebuild(w).Success? ==> Rebuild(w).value == w
  {
  }

  /** The temperatures, the pressures, the condition and the time never decide
      whether the constructor fails, nor which error it raises. */
  lemma UncheckedFields(w: Weather, time: Timestamp, condition: ConditionValue,
                        temps: (Option<real>, Option<real>, Option<real>),
                        pressures: (Option<real>, Option<real>, Option<real>))
    ensures var v := w.(referenceTime := time, condition := condition,
        tempCurrent := temps.0, tempMax := temps.1, tempMin := temps.2,
        pressureCurrent := pressures.0, pressureMax := pressures.1, pressureMin := pressures.2);
      && (Rebuild(v).Success? <==> Rebuild(w).Success?)
      && (Rebuild(w).Failure? ==> Rebuild(v) == Rebuild(w))
  {
  }

  /** Every reading may be missing. */
  lemma AllMissingAccepted(time: Timestamp, condition: ConditionValue)
    ensures NewWeather(time, condition, None, None, None, None, None, None,
      None, None, None, None, None, None, None).Success?
  {
  }

  /** The range ends themselves are accepted. */
  lemma BoundsAreInclusive(w: Weather)
    requires w.Valid()
    ensures Rebuild(w.(humidityCurrent := Some(0.0), humidityMax := Some(100.0))).Success?
    ensures Rebuild(w.(windCurrent := Some(0.0), windMax := Some(0.0), rain := Some(0.0))).Success?
    ensures Rebuild(w.(windBearing := Some(0.0))).Success? && Rebuild(w.(windBearing := Some(360.0))).Success?
  {
  }

  /** The readings of a valid weather used as a reference below. */
  const Reference: Weather := Weather(
    Timestamp(2020, 6, 9, 10, 30, 56, 0, 0), Known(Suncloud),
    Some(20.9), Some(21.0), Some(13.7),
    Some(55.0), Some(80.0), Some(54.0),
    Some(1015.3), Some(1015.3), Some(1014.0),
    Some(16.0), Some(31.0), Some(268.0),
    Some(0.2))

  /** One reading out of range, the rest as in `Reference`: each is rejected
      with the message of its own group. */
  lemma OneFieldOutOfRange()
    ensures Rebuild(Reference) == Success(Reference)
    ensures Rebuild(Reference.(humidityCurrent := Some(-1.0))) == Failure(HumidityOutOfRange)
    ensures Rebuild(Reference.(humidityCurrent := Some(101.0))) == Failure(HumidityOutOfRange)
    ensures Rebuild(Reference.(humidityMax := Some(-1.0))) == Failure(HumidityOutOfRange)
    ensures Rebuild(Reference.(humidityMax := Some(101.0))) == Failure(HumidityOutOfRange)
    ensures Rebuild(Reference.(humidityMin := Some(-1.0))) == Failure(HumidityOutOfRange)
    ensures Rebuild(Reference.(humidityMin := Some(101.0))) == Failure(HumidityOutOfRange)
    ensures Rebuild(Reference.(windCurrent := Some(-1.0))) == Failure(NegativeWind)
    ensures Rebuild(Reference.(windMax := Some(-1.0))) == Failure(NegativeWind)
    ensures Rebuild(Reference.(windBearing := Some(-0.1))) == Failure(WindBearingOutOfRange)
    ensures Rebuild(Reference.(windBearing := Some(360.1))) == Failure(WindBearingOutOfRange)
    ensures Rebuild(Reference.(rain := Some(-1.0))) == Failure(NegativeRain)
  {
  }

  /** With several groups out of range, the first one checked is reported. */
  lemma FirstGroupReported()
    ensures Rebuild(Reference.(rain := Some(-1.0), humidityMin := Some(101.0))) == Failure(HumidityOutOfRange)
    ensures Rebuild(Reference.(windBearing := Some(400.0), windMax := Some(-3.0))) == Failure(NegativeWind)
    ensures Rebuild(Reference.(rain := Some(-1.0), windBearing := Some(-1.0))) == Failure(WindBearingOutOfRange)
  {
  }

  /** The message each rejected reading of the parametrised range cases is
      reported with, "greatear" spelling included. */
  lemma RangeErrorMessages()
    ensures Rebuild(Reference.(humidityCurrent := Some(-1.0))).error.Message() == "humidity must be between 0 and 100"
    ensures Rebuild(Reference.(humidityCurrent := Some(101.0))).error.Message() == "humidity must be between 0 and 100"
    ensures Rebuild(Reference.(humidityMax := Some(-1.0))).error.Message() == "humidity must be between 0 and 100"
    ensures Rebuild(Reference.(humidityMax := Some(101.0))).error.Message() == "humidity must be between 0 and 100"
    ensures Rebuild(Reference.(humidityMin := Some(-1.0))).error.Message() == "humidity must be between 0 and 100"
    ensures Rebuild(Reference.(humidityMin := Some(101.0))).error.Message() == "humidity must be between 0 and 100"
    ensures Rebuild(Reference.(windCurrent := Some(-1.0))).error.Message() == "wind must be greatear than 0"
    ensures Rebuild(Reference.(windMax := Some(-1.0))).error.Message() == "wind must be greatear than 0"
    ensures Rebuild(Reference.(windBearing := Some(-0.1))).error.Message() == "wind bearing must be between 0 and 360"
    ensures Rebuild(Reference.(windBearing := Some(360.1))).error.Message() == "wind bearing must be between 0 and 360"
    ensures Rebuild(Reference.(rain := Some(-1.0))).error.Message() == "rain must be greatear than 0"
  {
    OneFieldOutOfRange();
  }
}
