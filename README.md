# pymeteoclimatic: the feed-item parser, modelled and verified in Dafny

This project models how pymeteoclimatic turns one item of a Meteoclimatic RSS
feed into an `Observation`. The steps are:

- `FeedItemHelper` searches the item's description for the station record, a
  fixed micro-format `[[<CODE;(T;T;T;COND);(H;H;H);(P;P;P);(W;W;B);(R);`. It
  takes the leftmost match of one regular expression. It gives each field back
  as text (`get_text`) or as a number (`get_float`). `get_float` reads commas as
  decimal points, and it treats -99 as "no value".
- `Condition` is the enumeration of eleven sky conditions. `Weather` is a
  constructor that checks the humidities, the wind speeds, the bearing and the
  rain, in that order.
- `Station` is a constructor that requires a name and a code.
- `Observation.from_feed_item` puts these together. The station is the item's
  title and link with the captured code. One timestamp, read from `pubDate`,
  serves as both the reception time and the weather's reference time. The
  condition is looked up, and an unknown text is kept as it is. The thirteen
  numbers are read with `get_float`.

Everything in this code is pure, so the model is written as datatypes,
functions and lemmas. The modules are:

- `Wrappers`: `Option` and `Result`.
- `Errors`: the `ValueError`s and their exact messages.
- `Decimal`: Python's `float` on strings of a sign, digits and points.
- `Pattern`: the fragment of regular expressions the grammar uses.
  - `Parses` states what a match is, as a relation.
  - `MatchCuts` is a greedy matcher. It is proved to find every match on the
    grammar's shape of pattern.
  - `SearchFrom` is `re.search`.
  - `Fill` renders values into the pattern's text and is the inverse of
    parsing.
- `Feed`: the grammar itself, `FeedItemHelper`, and the reading of numbers.
- `WeatherData`, `StationData` and `ObservationData`: the three value types
  and `from_feed_item`.
- `Samples`: worked examples. They cover numbers as the feed writes them, and
  two station records the repository's tests expect to parse.

Numbers are exact decimals (`real`), not IEEE doubles. Every comparison in the
source is against a small exact constant: 0, 100, 360 and -99. `strptime` is
passed in as a parameter `parseDate: string -> Option<Timestamp>`, because the
date parser belongs to the Python library.

## Model

| member | source | states |
|---|---|---|
| Errors.ValueError.Message | meteoclimatic/weather.py:83-103 | Each error's message as the source raises it, "greatear" included: the four range messages here, "Could not parse station information" (feed.py:13), the two station messages (station.py:18, 22) and `strptime`'s mismatch message. A date message quotes the text it was given, and no message is empty. |
| Errors.MessageIdentifiesError | meteoclimatic/weather.py:81-104 | Two errors have the same message exactly when they are the same error, so every failure of the pipeline is told apart by its message. |
| Pattern.MatchCuts | meteoclimatic/feed.py:7 | The cuts the greedy matcher returns always split the text from `i` into one piece per element, each piece in its element's language. The matcher never reports a match that is not one. |
| Pattern.MatchComplete | meteoclimatic/feed.py:7 | The grammar has one shape: each group is followed by a literal whose first character the group cannot take. On such a pattern, every way of matching at `i` is the one the greedy matcher finds, so the regex engine's backtracking never changes the captures. |
| Pattern.ParseIsUnique | meteoclimatic/feed.py:7 | On such a pattern a text matches at a given position in at most one way. |
| Pattern.SearchFrom | meteoclimatic/feed.py:11 | `re.search`: the position returned is one where the pattern matches, and it matches at no earlier position. When nothing is returned, it matches nowhere. |
| Pattern.SearchFindsLeftmostParse | meteoclimatic/feed.py:11-13 | The search succeeds exactly when the pattern matches somewhere in the text, and it then returns the leftmost match. |
| Pattern.GroupDict | meteoclimatic/feed.py:11-18 | `re.search(...)` followed by `group(name)`: no captures only when the pattern matches at no position, and otherwise captures keyed by exactly the group names. `GroupDictLeftmost` shows they are those of the leftmost match. |
| Pattern.GroupDictLeftmost | meteoclimatic/feed.py:11-13 | The captures exist exactly when the pattern matches somewhere. They are then the captures of the leftmost match. |
| Pattern.GroupDictShapes | meteoclimatic/feed.py:7 | Every capture belongs to the language of its group. |
| Pattern.TextsInLanguage | meteoclimatic/feed.py:7 | The text each group spans in a match belongs to the group's language. |
| Pattern.FillTexts | meteoclimatic/feed.py:7 | Texts rendered into the pattern are matched there, and the match captures exactly those texts, provided each text fits its group. |
| Pattern.GroupDictOfFill | meteoclimatic/feed.py:7-13 | Take a rendered record, put text before it that cannot start a match and any text after it. Searching the result gives back exactly the rendered values, under their group names. |
| Pattern.SlotsFacts | meteoclimatic/feed.py:7 | A pattern built as groups, each closed by a literal the group cannot take, has the grammar's shape. Its names and shapes are those of the groups. |
| Decimal.ReplaceCommas | meteoclimatic/feed.py:31 | `replace(",", ".")` keeps the length, turns every comma into a point and keeps every other character. |
| Decimal.ParseDecimal | meteoclimatic/feed.py:31 | Python's `float` on strings of a sign, digits and points. A negative result comes only from a `-` sign, and an unsigned text never reads negative. `ParseDecimalAccepts` and `ParseDecimalOfParts` state which texts it accepts and their values. |
| Decimal.ParseDecimalAccepts | meteoclimatic/feed.py:31-33 | `float` accepts a string of a sign, digits and points exactly when it is an optional sign followed by digits and points, with at most one point and at least one digit. |
| Decimal.ParseDecimalOfParts | meteoclimatic/feed.py:31 | The value of `[-]whole.frac` is the integer spelled by `whole` and `frac` together, divided by 10 to the length of `frac`, with the sign applied. |
| Decimal.ParseDecimalOfWhole | meteoclimatic/feed.py:31 | The value of `[-]digits` is the integer the digits spell, with the sign applied. |
| Feed.GrammarFacts | meteoclimatic/feed.py:7 | The grammar has the shape `MatchComplete` needs. It has fifteen groups, in the field order, with distinct names and the shapes of the regex (`\w+`, `-?[0-9,]+`, `\w*`, `-?[0-9,]*`). |
| Feed.NewHelper | meteoclimatic/feed.py:9-13 | When no record is found, building the helper fails with "Could not parse station information", and with no other error. |
| Feed.FeedItemHelper.GetText | meteoclimatic/feed.py:15-23 | The result is a text exactly when the name is a group and its capture is not empty. The text is then the capture, verbatim. |
| Feed.FeedItemHelper.GetFloat | meteoclimatic/feed.py:25-37 | A missing text gives None. A present text gives exactly its `ReadFloat` reading, so never -99. |
| Feed.ReadFloat | meteoclimatic/feed.py:30-37 | The result is never -99. A number result is `float` of the text with commas made points. When `float` accepts that text with a value other than -99, the result is that value. |
| Feed.TextOf | meteoclimatic/feed.py:21-23 | A captured value gives None exactly when it is empty, and otherwise itself. |
| Feed.HelperFindsLeftmost | meteoclimatic/feed.py:11-13 | The helper is built exactly when the grammar matches somewhere in the description. It then holds the captures of the leftmost match. |
| Feed.CaptureShapes | meteoclimatic/feed.py:7 | Every one of the fifteen fields is captured, each in its group's shape. The code is a non-empty word, the condition a word, the temperatures non-empty numbers and the rest possibly empty numbers. |
| Feed.StationCodeCaptured | meteoclimatic/feed.py:7 | A found record always has a station code, a non-empty word, so `get_text("station_code")` is never None. |
| Feed.HelperHasCode | meteoclimatic/feed.py:7 | A built helper always has a station code. |
| Feed.HelperNames | meteoclimatic/feed.py:15-20 | The helper knows exactly the fifteen field names. Any other name gives no text and no number. |
| Feed.RenderedCodeNonEmpty | meteoclimatic/feed.py:7 | A well-shaped record has a non-empty station code. |
| Feed.DecodeRender | meteoclimatic/feed.py:7-13 | A description holding a rendered record parses back into exactly the rendered values. This holds whatever follows the record, after any text without a `[`. It is the round trip of the helper. |
| Feed.ZippedText | meteoclimatic/feed.py:15-23 | The helper of a rendered record gives each field's value back as `get_text` would, None when empty. |
| Feed.ZipCarries | meteoclimatic/feed.py:15-23 | The helper holding rendered values gives back every one of them under its field name. |
| Feed.PointsForCommas | meteoclimatic/feed.py:31 | Take a run of digits and commas and the same run with points for commas. The latter is a decimal body exactly when the former has a digit and at most one comma. |
| Feed.NumberTextIsLiteral | meteoclimatic/feed.py:31 | A numeric capture, with commas made points, is a decimal literal exactly when it has a digit and at most one comma. |
| Feed.ReadFloatDefined | meteoclimatic/feed.py:30-36 | `float` accepts a numeric capture exactly when it has at least one digit and at most one comma. `get_float` gives a number exactly then and when the value is not -99. |
| Feed.ReplaceCommaOfParts | meteoclimatic/feed.py:31 | `[-]whole,frac` with the comma replaced is `[-]whole.frac`. |
| Feed.ReadFloatOfParts | meteoclimatic/feed.py:25-37 | `[-]whole,frac` reads as the integer of its digits divided by 10 to the length of `frac`, with the sign applied. It reads as None when that value is -99. |
| Feed.ReadFloatOfWhole | meteoclimatic/feed.py:25-37 | `[-]digits` reads as the integer the digits spell, with the sign applied. It reads as None when that value is -99. |
| WeatherData.ConditionOf | meteoclimatic/weather.py:5-21 | `Condition(value)` gives the member whose value is `value`. It gives None exactly when no member has that value. |
| WeatherData.ConditionRoundTrip | meteoclimatic/weather.py:5-21 | Looking a member up by its value gives the member back. No two members share a value. |
| WeatherData.AllConditionsComplete | meteoclimatic/weather.py:10-21 | There are eleven members, each listed once, and every member is listed. |
| WeatherData.ConditionIsCaseSensitive | meteoclimatic/weather.py:5-7 | Values are the lower-case names. "sun" is a member, and "Sun" and "" are not. |
| WeatherData.NewWeather | meteoclimatic/weather.py:63-104 | Construction succeeds exactly when the humidities are within [0, 100], the wind speeds and the rain are not negative, and the bearing is within [0, 360]. Missing readings always pass. On success every field holds its argument. On failure the error is that of the first group out of range, in the order humidity, wind, bearing, rain. |
| WeatherData.RebuildIsIdentityOnValid | meteoclimatic/weather.py:73-104 | Constructing from the fields of a weather succeeds exactly when it is valid, and then gives the same weather back. |
| WeatherData.UncheckedFields | meteoclimatic/weather.py:73-90 | The time, the condition, the temperatures and the pressures never decide whether construction fails, nor which error it raises. |
| WeatherData.AllMissingAccepted | tests/test_weather.py:50-56 | Every reading may be missing. |
| WeatherData.BoundsAreInclusive | meteoclimatic/weather.py:81-104 | The range ends are accepted: humidity 0 and 100, wind and rain 0, bearing 0 and 360. |
| WeatherData.OneFieldOutOfRange | tests/test_weather.py:29-48 | The test's reference weather is accepted. Each single reading out of range is rejected with the message of its group. |
| WeatherData.FirstGroupReported | meteoclimatic/weather.py:81-104 | With several groups out of range, the first group checked is the one reported. |
| WeatherData.RangeErrorMessages | tests/test_weather.py:29-48 | Every parametrised out-of-range case of the test is reported with the exact message the test expects, such as "wind must be greatear than 0". |
| StationData.NewStation | meteoclimatic/station.py:15-24 | Construction succeeds exactly when the name and the code are present and not empty; whitespace counts as content. It then holds the three arguments, the url unchecked. A blank name is reported before a blank code. |
| StationData.StationRebuild | meteoclimatic/station.py:15-24 | Constructing from a station's fields succeeds exactly when both are non-empty, and then gives the same station back. |
| StationData.StationExamples | tests/test_station.py:7-28 | The test's station is accepted as given. An empty or missing name or code is rejected with its message. |
| StationData.StationErrorMessages | tests/test_station.py:17-28 | An empty or missing name is reported as "Station name cannot be empty", and an empty or missing code as "Station code cannot be empty", whatever the url. |
| ObservationData.ParseReceptionTime | meteoclimatic/observation.py:60-61 | The date read is the date reader's result. When the reader fails, the error names the text and the format. |
| ObservationData.ConditionFromText | meteoclimatic/observation.py:63-69 | A text that is a member's value becomes that member. Any other text, or no text, is kept as given. |
| ObservationData.WeatherOf | meteoclimatic/observation.py:70-90 | The weather of a found record, when built, is valid and dated with the given time. When it is not built, the error is a range error. |
| ObservationData.FromFeedItem | meteoclimatic/observation.py:44-92 | `from_feed_item`. Its only errors are a missing station record, an empty title, an unreadable `pubDate` and a weather range. The empty-code error never occurs. A parsed observation has the item's title and link with a non-empty code. Its reception time is `pubDate` as read, and the weather, dated with that time, is valid. `FromFeedItemErrors` gives the order of the errors, and `FromFeedItemContents` with `ObservationOfContents` gives every field. |
| ObservationData.ObservationOf | meteoclimatic/observation.py:55-92 | The steps of `from_feed_item` after the record is found. The errors are limited to the station's, the date's and the weather's. The empty-code error occurs only when no code was captured. A built observation has the captured code, the item's title and link, and one time for both stamps. |
| ObservationData.ObservationOfErrors | meteoclimatic/observation.py:55-92 | Once a record with a code is found, the errors come in this order: an empty title, then an unreadable date, then a weather range. No other error is possible. |
| ObservationData.FromFeedItemSteps | meteoclimatic/observation.py:53-58 | The helper's failure is the result, unchanged. Otherwise the observation is built from the helper. |
| ObservationData.FromFeedItemErrors | meteoclimatic/observation.py:53-92 | The errors come in this order: no station record, then an empty title, then an unreadable date, then a weather range. The empty-code error never occurs on this path. |
| ObservationData.ObservationOfContents | meteoclimatic/observation.py:55-92 | A built observation has one timestamp, read from `pubDate`, for both the reception and the weather. Its station is the title, the captured code and the link. Its condition is the looked-up text, and each of the thirteen readings is `get_float` of its own field. |
| ObservationData.FromFeedItemContents | meteoclimatic/observation.py:53-92 | A parsed observation is built from the captures of the leftmost station record in the description. |
| ObservationData.WeatherOfCarried | meteoclimatic/observation.py:70-90 | The weather of a helper carrying a record's values is those values read field by field. The second read of `wind_max` changes nothing. |
| ObservationData.ObservationOfGoodItem | meteoclimatic/observation.py:55-92 | With a code captured, a title and a readable date, the result is the weather at that date, paired with the item's station. |
| ObservationData.ObservationOfCarried | meteoclimatic/observation.py:55-92 | The same, for a helper carrying a record's values: the station code is the first value. |
| ObservationData.FromRenderedDescription | meteoclimatic/observation.py:53 | An item whose description holds a rendered record is built from the helper holding exactly those values. |
| ObservationData.FromRenderedItem | meteoclimatic/observation.py:44-92 | The full round trip. Take an item whose description holds a rendered record, with a title and a readable date. Parsing it gives the observation of the record's values, or the weather's range error. |
| Samples.ReadsParts | meteoclimatic/feed.py:31-37 | An unsigned `whole,frac` reads as the decimal value of its digits. |
| Samples.ReadsNegativeParts | meteoclimatic/feed.py:31-36 | A negative `-whole,frac` reads as minus its magnitude. It reads as None when the magnitude is 99. |
| Samples.ReadsWhole | meteoclimatic/feed.py:31-37 | An unsigned run of digits reads as the integer it spells. |
| Samples.MissingMarker | meteoclimatic/feed.py:34-36 | "-99" reads as None. |
| Samples.MissingMarkerWithDecimal | meteoclimatic/feed.py:34-36 | "-99,0" reads as None. |
| Samples.MissingMarkerWithDecimals | meteoclimatic/feed.py:34-36 | "-99,00" reads as None. |
| Samples.ReadsTrailingComma | meteoclimatic/feed.py:31 | "1," reads as 1. |
| Samples.ReadsLeadingComma | meteoclimatic/feed.py:31 | ",5" reads as 0.5. |
| Samples.RejectsMalformed | meteoclimatic/feed.py:30-33 | "", "-", "," and "1,2,3" read as None. |
| Samples.FullStationTempCurrent | tests/test_observation.py:55-77 | "17,6" reads as 17.6. |
| Samples.FullStationPressureMin | tests/test_observation.py:55-77 | "1000,9" reads as 1000.9. |
| Samples.ShapedByParts | meteoclimatic/feed.py:7 | A record is well shaped when its code is a word, its temperatures are numbers, its condition is a possibly empty word, and the rest are possibly empty numbers. |
| Samples.FullStationShaped | meteoclimatic/feed.py:7 | The full station's record fits the grammar. |
| Samples.FullStationWeather | tests/test_observation.py:55-77 | The full station's values stand for the weather the test expects: hazesun, 17.6, 17.9, 16.0, 77, 96, 74, 1002.0, 1003.8, 1000.9, 0, 29, 300 and 3.2. |
| Samples.RenderedObservation | meteoclimatic/observation.py:44-92 | An item whose description holds a rendered record after text without a `[`, with a title, a readable date and valid weather, parses to the observation of the record. |
| Samples.FullStationObservation | tests/test_observation.py:55-77 | An item of the full station parses to the observation the test expects. Its description holds the record `[[<ESCAT4300000043206B;(17,6;17,9;16,0;hazesun);(77,0;96,0;74,0);(1002,0;1003,8;1000,9);(0,0;29,0;300,0);(3,2);`, after any text without a `[` and before any text. The observation has station "Reus - Nord (Tarragona)", code ESCAT4300000043206B, the item's link, the `pubDate` time and the weather above. |
| Samples.UnratedStationShaped | meteoclimatic/feed.py:7 | The unrated station's record fits the grammar. |
| Samples.UnratedStationValid | meteoclimatic/weather.py:81-104 | The unrated station's readings, with the winds missing, pass every range check. |
| Samples.UnratedStationWeather | tests/test_observation.py:147-169 | The unrated station's values stand for the weather the test expects. Its empty wind fields give None, and the rain gives 0.2. |
| Samples.UnratedStationObservation | tests/test_observation.py:147-169 | An item of the unrated station parses to the observation the test expects. Its description holds the record rebuilt from the expected values, with empty wind fields, `...;(;;);(0,2);`, after any text without a `[` and before any text. |

## Left out

- meteoclimatic/client.py (fetching the feed over HTTP, BeautifulSoup's XML parsing and the "station not found" case) and meteoclimatic/exceptions.py are not part of this model. They are network I/O and glue around it.
- `datetime.strptime` with "%a, %d %b %Y %H:%M:%S %z" is the parameter `parseDate`. Its acceptance rules belong to the Python library. The error message for a mismatch is modelled.
- ObservationData.ParseReceptionTime: every date that does not read is reported as the mismatch error, `time data '<text>' does not match format '<format>'`. `strptime` has other messages too, such as "unconverted data remains: ..." for text after a full date and "day is out of range for month". It also quotes the text with `%r`, so a text holding a quote, a backslash or a newline is written differently. The date reader here only says whether it read a date.
- Decimal.ParseDecimal: models Python's `float` only on strings of a sign, digits and points, which is every string a numeric capture can be. `inf`, `nan`, exponents, underscores, surrounding whitespace and non-ASCII digits never reach it from a numeric group.
- Feed.FeedItemHelper.GetFloat: on the word groups `station_code` and `condition`, Python's `float` also reads texts such as `inf`, `nan`, `infinity`, `1e5` and `1_0` (giving inf, nan, 100000.0 and 10.0); the model gives None there. `from_feed_item` never reads those two groups as numbers, so observations are unaffected.
- Feed.ReadFloat: reads exact decimals, not IEEE doubles. A text that differs from -99 only beyond double precision would round to -99 in Python and give None; here it gives its exact value. The same rounding moves the range checks of `Weather`. `"100,000000000000001"` is 100.0 in Python and passes the humidity check, but here it is rejected. The same holds just past 360 for the bearing, and for tiny negative winds and rain, which round to -0.0 in Python and pass.
- `\w` is taken as ASCII letters, digits and underscore. Python's Unicode `\w` also admits other letters and digits in the station code and the condition.
- The `isinstance` checks of `Weather.__init__` and `Observation.__init__`, and their error messages, are enforced by Dafny's types instead.
- The `Observation` constructor is the datatype constructor: it stores its three arguments unchanged. `__eq__` of `Observation`, `Station` and `Weather` is datatype equality, which compares field by field.
- WeatherData.Timestamp: equality compares the date, the clock time and the UTC offset field by field. Python compares aware datetimes as instants, so 10:48:01+00:00 equals 12:48:01+02:00 there. This affects `__eq__` of `Weather` and `Observation`, and here those two times are different.
- `logging.info` for an unrecognised condition, the `__repr__` methods and setup.py are not modelled.
- The item is its four texts: title, link, pubDate and description. `str(tag)` of a BeautifulSoup element, and an item missing any of its four elements, are not modelled (without a `pubDate`, meteoclimatic/observation.py:61 raises `AttributeError`). A missing `description` reads as the text "None", which holds no record and gives the parse error.
- The sample feed files of the tests are not part of this model. The full station's item carries its record as that item writes it. The unrated station's record is rebuilt from the values its test expects, written in the same style (`49,0`, ...), with empty wind fields. They allow any text around the record, provided the text before it has no `[`.
- The tests for the thermoeolic, thermometric and thermopluviometric sample stations are not restated. `FromRenderedItem` covers every rendered record.
- The source reads `wind_max` a second time after `rain`. The model reads it once, because the same helper gives the same value.
- Two behaviours are kept as the code has them. The helper's "Could not parse station information" error is raised unchanged by `from_feed_item`, without naming the item. The emptiness checks on the name and the code do not trim whitespace.
