/** The `ValueError`s raised along the parsing pipeline, one constructor per
    distinct message. */
module Errors {

  /** The format string handed to `strptime` for the feed's pubDate. */
  const FeedDateFormat: string := "%a, %d %b %Y %H:%M:%S %z"

  datatype ValueError =
    | StationInformationNotFound
    | EmptyStationName
    | EmptyStationCode
    | DateMismatch(text: string)
    | HumidityOutOfRange
    | NegativeWind
    | WindBearingOutOfRange
    | NegativeRain
  {
    /** The errors `Weather` raises for a reading out of range. */
    predicate IsRangeError() {
      HumidityOutOfRange? || NegativeWind? || WindBearingOutOfRange? || NegativeRain?
    }

    /** The message raised for each error, spelling included; a date that
        does not read is always reported with the mismatch message, which
        quotes the text it was given. */
    function Message(): (m: string)
      ensures 0 < |m|
      ensures DateMismatch? ==> |m| > 11 + |text| && m[11..11 + |text|] == text
    {
      match this
      case StationInformationNotFound => "Could not parse station information"
      case EmptyStationName => "Station name cannot be empty"
      case EmptyStationCode => "Station code cannot be empty"
      case DateMismatch(text) => "time data '" + text + "' does not match format '" + FeedDateFormat + "'"
      case HumidityOutOfRange => "humidity must be between 0 and 100"
      case NegativeWind => "wind must be greatear than 0"
      case WindBearingOutOfRange => "wind bearing must be between 0 and 360"
      case NegativeRain => "rain must be greatear than 0"
    }
  }

  /** Each error has its own message: two errors read the same exactly when
      they are the same error, so a caller can tell every failure apart by
      its text alone. */
  lemma MessageIdentifiesError(a: ValueError, b: ValueError)
    ensures a.Message() == b.Message() <==> a == b
  {
  }
}
