/** `Station`: a Meteoclimatic station, named and coded. */
module StationData {
  import opened Wrappers
  import opened Errors

  datatype Station = Station(name: string, code: string, url: Option<string>) {
    /** What the constructor enforces: a name and a code that are not empty.
        The url is not checked and may be missing. */
    predicate Valid() {
      name != "" && code != ""
    }
  }

  /** Python's `None or len(s) == 0`. */
  predicate Blank(s: Option<string>) {
    s.None? || s.value == ""
  }

  /** `Station(name, code, url)`: the name is checked first, then the code;
      each must be present and non-empty (whitespace counts as content). */
  function NewStation(name: Option<string>, code: Option<string>, url: Option<string>): (r: Result<Station, ValueError>)
    ensures r.Success? <==> !Blank(name) && !Blank(code)
    ensures r.Success? ==> r.value.Valid() && r.value == Station(name.value, code.value, url)
    ensures Blank(name) ==> r == Failure(EmptyStationName)
    ensures !Blank(name) && Blank(code) ==> r == Failure(EmptyStationCode)
  {
    if name.None? || |name.value| == 0 then Failure(EmptyStationName)
    else if code.None? || |code.value| == 0 then Failure(EmptyStationCode)
    else Success(Station(name.value, code.value, url))
  }

  /** Every valid station is accepted back unchanged, and only valid ones. */
  lemma StationRebuild(s: Station)
    ensures NewStation(Some(s.name), Some(s.code), s.url).Success? <==> s.Valid()
    ensures s.Valid() ==> NewStation(Some(s.name), Some(s.code), s.url) == Success(s)
  {
  }

  /** The cases of the station tests: the reference station is accepted as
      given, and an empty or missing name or code is rejected with its message. */
  lemma StationExamples()
    ensures var name, code, url := "Reus - Nord (Tarragona)", "ESCAT4300000043206B",
        "http://www.meteoclimatic.net/perfil/ESCAT4300000043206B";
      && NewStation(Some(name), Some(code), Some(url)) == Success(Station(name, code, Some(url)))
      && NewStation(Some(""), Some(code), Some(url)) == Failure(EmptyStationName)
      && NewStation(None, Some(code), Some(url)) == Failure(EmptyStationName)
      && NewStation(Some(name), Some(""), Some(url)) == Failure(EmptyStationCode)
      && NewStation(Some(name), None, Some(url)) == Failure(EmptyStationCode)
      && NewStation(None, None, None) == Failure(EmptyStationName)
      && NewStation(Some(" "), Some(code), None).Success?
  {
  }

  /** The messages the empty-name and empty-code cases are reported with. */
  lemma StationErrorMessages(url: Option<string>)
    ensures NewStation(None, Some("ESCAT4300000043206B"), url).error.Message() == "Station name cannot be empty"
    ensures NewStation(Some(""), Some("ESCAT4300000043206B"), url).error.Message() == "Station name cannot be empty"
    ensures NewStation(Some("Reus - Nord (Tarragona)"), None, url).error.Message() == "Station code cannot be empty"
    ensures NewStation(Some("Reus - Nord (Tarragona)"), Some(""), url).error.Message() == "Station code cannot be empty"
  {
  }
}
