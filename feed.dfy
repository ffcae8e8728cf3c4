/** `FeedItemHelper`: finds the station record embedded in an RSS item's
    description and gives access to its fields, as raw text or as numbers. */
module Feed {
  import opened Wrappers
  import opened Errors
  import opened Decimal
  import opened Pattern

  /** The groups of the helper's regular expression, each with the literal
      that follows it. */
  const GrammarSlots: seq<Slot> := [
    Slot("station_code", WordPlus, ";("),
    Slot("temp_current", NumberPlus, ";"), Slot("temp_max", NumberPlus, ";"),
    Slot("temp_min", NumberPlus, ";"), Slot("condition", WordStar, ");("),
    Slot("humidity_current", NumberStar, ";"), Slot("humidity_max", NumberStar, ";"),
    Slot("humidity_min", NumberStar, ");("),
    Slot("pressure_current", NumberStar, ";"), Slot("pressure_max", NumberStar, ";"),
    Slot("pressure_min", NumberStar, ");("),
    Slot("wind_current", NumberStar, ";"), Slot("wind_max", NumberStar, ";"),
    Slot("wind_bearing", NumberStar, ");("),
    Slot("rain", NumberStar, ");")
  ]

  /** The regular expression of the helper, element by element:
      `[[<CODE;(T;T;T;COND);(H;H;H);(P;P;P);(W;W;B);(R);` */
  const Grammar: seq<Elem> := [Lit("[[<")] + Slots(GrammarSlots)

  /** The group names of the grammar, in order. This and `FieldShapes` are the
      columns of `GrammarSlots` written out, so that proofs read each name and
      shape directly; `SlotColumns` proves that they are those columns. */
  const FieldNames: seq<string> := [
    "station_code", "temp_current", "temp_max", "temp_min", "condition",
    "humidity_current", "humidity_max", "humidity_min",
    "pressure_current", "pressure_max", "pressure_min",
    "wind_current", "wind_max", "wind_bearing", "rain"
  ]

  /** The shape of each group, in the order of `FieldNames`. */
  const FieldShapes: seq<Field> := [
    WordPlus, NumberPlus, NumberPlus, NumberPlus, WordStar,
    NumberStar, NumberStar, NumberStar,
    NumberStar, NumberStar, NumberStar,
    NumberStar, NumberStar, NumberStar,
    NumberStar
  ]

  lemma FieldNamesDistinct()
    ensures Distinct(FieldNames)
  {
  }

  /** Every slot is closed by a literal its group cannot take, and the two
      lists above are the columns of `GrammarSlots`. */
  lemma SlotColumns()
    ensures forall k | 0 <= k < |GrammarSlots| :: Closes(GrammarSlots[k])
    ensures seq(|GrammarSlots|, k requires 0 <= k < |GrammarSlots| => GrammarSlots[k].name) == FieldNames
    ensures seq(|GrammarSlots|, k requires 0 <= k < |GrammarSlots| => GrammarSlots[k].field) == FieldShapes
  {
  }

  /** The grammar is well separated (so it matches deterministically) and its
      groups are the fifteen fields, each name once, with the shapes above. */
  lemma GrammarFacts()
    ensures WellSeparated(Grammar)
    ensures NamesOf(Grammar) == FieldNames && Distinct(FieldNames)
    ensures FieldsOf(Grammar) == FieldShapes
  {
    var opening: seq<Elem> := [Lit("[[<")];
    SlotColumns();
    FieldNamesDistinct();
    SlotsFacts(GrammarSlots);
    NamesOfAppend(opening, Slots(GrammarSlots));
    WellSeparatedAppend(opening, Slots(GrammarSlots));
    assert NamesOf(opening) == [] && FieldsOf(opening) == [];
  }

  /** The fifteen captures of a description, found by the helper. */
  datatype FeedItemHelper = FeedItemHelper(groups: map<string, string>) {

    /** `get_text`: the text captured by group `name`; None when `name` is no
        group of the grammar, or when the group captured nothing. */
    function GetText(name: string): (r: Option<string>)
      ensures r.Some? <==> name in groups && groups[name] != ""
      ensures r.Some? ==> r.value == groups[name]
    {
      if name in groups && |groups[name]| > 0 then Some(groups[name]) else None
    }

    /** `get_float`: the captured text read as a number, or None. */
    function GetFloat(name: string): (r: Option<real>)
      ensures r.Some? ==> GetText(name).Some? && ReadFloat(GetText(name).value) == r
      ensures GetText(name).Some? ==> r == ReadFloat(GetText(name).value)
      ensures GetText(name).None? ==> r.None?
      ensures r != Some(-99.0)
    {
      match GetText(name)
      case None => None
      case Some(t) => ReadFloat(t)
    }
  }

  /** `FeedItemHelper(feed_item)`: search the description for the station record. */
  function NewHelper(description: string): (r: Result<FeedItemHelper, ValueError>)
    ensures r.Failure? ==> r.error == StationInformationNotFound
  {
    GrammarFacts();
    match GroupDict(description, Grammar)
    case None => Failure(StationInformationNotFound)
    case Some(groups) => Success(FeedItemHelper(groups))
  }

  /** The float reading `get_float` gives a captured text: commas become points,
      the text is read as a decimal, and a text that does not read, or reads as
      the "no value" marker -99, gives None. */
  function ReadFloat(t: string): (r: Option<real>)
    ensures r != Some(-99.0)
    ensures r.Some? ==> ParseDecimal(ReplaceCommas(t)) == r
    ensures ParseDecimal(ReplaceCommas(t)).Some? && ParseDecimal(ReplaceCommas(t)).value != -99.0 ==> r.Some?
  {
    match ParseDecimal(ReplaceCommas(t))
    case None => None
    case Some(v) => if v == -99.0 then None else Some(v)
  }

  /** The helper is built exactly when the grammar matches somewhere in the
      description, and then it holds the captures of the leftmost match. */
  lemma HelperFindsLeftmost(description: string)
    ensures NewHelper(description).Success? <==> ParsesSomewhere(description, Grammar)
    ensures NewHelper(description).Success? ==>
      LeftmostCaptures(description, Grammar, NewHelper(description).value.groups)
  {
    GrammarFacts();
    GroupDictLeftmost(description, Grammar);
  }

  /** Every capture has its group's shape: a non-empty word for the station
      code, a word for the condition, and optionally signed runs of digits and
      commas for the numbers, non-empty for the three temperatures. */
  lemma CaptureShapes(description: string)
    requires NewHelper(description).Success?
    ensures var groups := NewHelper(description).value.groups;
      forall k | 0 <= k < |FieldNames| :: FieldNames[k] in groups && InLanguage(groups[FieldNames[k]], FieldShapes[k])
  {
    GrammarFacts();
    GroupDictShapes(description, Grammar);
  }

  /** The station code is always captured, as a non-empty word. */
  lemma StationCodeCaptured(description: string)
    requires NewHelper(description).Success?
    ensures var code := NewHelper(description).value.GetText("station_code");
      code.Some? && InLanguage(code.value, WordPlus)
  {
    GrammarFacts();
    GroupDictShapeAt(description, Grammar, 0);
  }

  /** A built helper always has a station code. */
  lemma HelperHasCode(description: string)
    ensures NewHelper(description).Success? ==> NewHelper(description).value.GetText("station_code").Some?
  {
    if NewHelper(description).Success? {
      StationCodeCaptured(description);
    }
  }

  /** The helper knows exactly the fifteen group names; any other name has
      no text and no number. */
  lemma HelperNames(description: string, name: string)
    requires NewHelper(description).Success?
    ensures NewHelper(description).value.groups.Keys == set n | n in FieldNames
    ensures name !in FieldNames ==> NewHelper(description).value.GetText(name) == None
    ensures name !in FieldNames ==> NewHelper(description).value.GetFloat(name) == None
  {
    GrammarFacts();
  }

  /** The station record carrying `values`, one text per field in the order of
      `FieldNames`: the inverse of the helper's parse. */
  function Render(values: seq<string>): (d: string)
    requires |values| == |FieldNames|
  {
    GrammarFacts();
    Fill(Grammar, values)
  }

  /** Values each in the shape of their field. */
  predicate WellShaped(values: seq<string>) {
    && |values| == |FieldNames|
    && forall k | 0 <= k < |values| :: InLanguage(values[k], FieldShapes[k])
  }

  /** The station code of well-shaped values is not empty. */
  lemma RenderedCodeNonEmpty(values: seq<string>)
    requires WellShaped(values)
    ensures values[0] != ""
  {
    assert InLanguage(values[0], FieldShapes[0]);
  }

  /** A description holding a rendered record, after text without a `[`, is
      parsed back into exactly the values rendered, whatever follows it. */
  lemma DecodeRender(pre: string, values: seq<string>, post: string)
    requires WellShaped(values)
    requires forall k | 0 <= k < |pre| :: pre[k] != '['
    ensures NewHelper(pre + Render(values) + post) == Success(FeedItemHelper(Zip(FieldNames, values)))
  {
    GrammarFacts();
    FitsByColumn(Grammar, values);
    GroupDictOfFill(pre, Grammar, values, post);
  }

  /** A helper holding `values` under the field names gives each value back
      as text, None when empty. */
  lemma ZippedText(values: seq<string>, k: nat)
    requires |values| == |FieldNames| && k < |FieldNames|
    ensures FeedItemHelper(Zip(FieldNames, values)).GetText(FieldNames[k])
      == TextOf(values[k])
  {
    FieldNamesDistinct();
    ZipAt(FieldNames, values, k);
  }

  /** The text `get_text` gives for a captured value: None when it is empty. */
  function TextOf(value: string): (r: Option<string>)
    ensures r.None? <==> value == ""
    ensures r.Some? ==> r.value == value
  {
    if value == "" then None else Some(value)
  }

  /** `helper` gives `values[k]` as the text of the `k`-th field. */
  ghost predicate Carries(helper: FeedItemHelper, values: seq<string>) {
    && |values| == |FieldNames|
    && forall k | 0 <= k < |FieldNames| :: helper.GetText(FieldNames[k]) == TextOf(values[k])
  }

  /** The helper holding `values` under the field names carries them. */
  lemma ZipCarries(values: seq<string>)
    requires |values| == |FieldNames|
    ensures Carries(FeedItemHelper(Zip(FieldNames, values)), values)
  {
    forall k | 0 <= k < |FieldNames|
      ensures FeedItemHelper(Zip(FieldNames, values)).GetText(FieldNames[k]) == TextOf(values[k])
    {
      ZippedText(values, k);
    }
  }

  /** The numeric captures `float()` accepts once commas become points: at
      least one digit, and at most one comma. */
  ghost predicate NumberText(t: string) {
    CommaNumber(Body(t, NumberStar))
  }

  /** Some digit, and no two commas. */
  ghost predicate CommaNumber(body: string) {
    && (exists k | 0 <= k < |body| :: IsDigit(body[k]))
    && (forall j, k | 0 <= j < k < |body| :: !(body[j] == ',' && body[k] == ','))
  }

  /** On a numeric capture, the comma-to-point replacement commutes with
      removing the sign. */
  lemma UnsignedOfReplaced(t: string)
    requires InLanguage(t, NumberStar)
    ensures Unsigned(ReplaceCommas(t)) == ReplaceCommas(Body(t, NumberStar))
    ensures IsNegative(ReplaceCommas(t)) <==> |t| > 0 && t[0] == '-'
  {
    var r := ReplaceCommas(t);
    if |t| > 0 && t[0] == '-' {
      assert r[1..] == ReplaceCommas(t[1..]);
    } else if |t| > 0 {
      assert Body(t, NumberStar) == t;
      assert NumberStar.Admits(t[0]);
    }
  }

  /** A run of digits and commas, and the same run with points for commas. */
  lemma PointsForCommas(body: string, u: string)
    requires |u| == |body|
    requires forall k | 0 <= k < |body| :: IsNumberChar(body[k])
    requires forall k | 0 <= k < |body| :: u[k] == if body[k] == ',' then '.' else body[k]
    ensures DecimalBody(u) <==> CommaNumber(body)
  {
    if exists k | 0 <= k < |body| :: IsDigit(body[k]) {
      var k :| 0 <= k < |body| && IsDigit(body[k]);
      assert IsDigit(u[k]);
    }
    if exists k | 0 <= k < |u| :: IsDigit(u[k]) {
      var k :| 0 <= k < |u| && IsDigit(u[k]);
      assert IsDigit(body[k]);
    }
  }

  /** `get_float` reads a numeric capture exactly when it has a digit and at
      most one comma, and the value read is not the -99 marker. */
  lemma ReadFloatDefined(t: string)
    requires InLanguage(t, NumberStar)
    ensures ParseDecimal(ReplaceCommas(t)).Some? <==> NumberText(t)
    ensures ReadFloat(t).Some? <==> NumberText(t) && ParseDecimal(ReplaceCommas(t)) != Some(-99.0)
  {
    ParseDecimalAccepts(ReplaceCommas(t));
    NumberTextIsLiteral(t);
  }

  /** With commas made points, a numeric capture is a decimal literal exactly
      when it is a number text. */
  lemma NumberTextIsLiteral(t: string)
    requires InLanguage(t, NumberStar)
    ensures IsDecimalLiteral(ReplaceCommas(t)) <==> NumberText(t)
  {
    var body := Body(t, NumberStar);
    var u := Unsigned(ReplaceCommas(t));
    UnsignedOfReplaced(t);
    assert u == ReplaceCommas(body);
    assert forall k | 0 <= k < |body| :: IsNumberChar(body[k]);
    PointsForCommas(body, u);
  }

  /** Replacing the comma of a number written with digits around a comma. */
  lemma ReplaceCommaOfParts(sign: string, whole: string, frac: string)
    requires sign == "" || sign == "-"
    requires AllDigits(whole) && AllDigits(frac)
    ensures ReplaceCommas(sign + whole + "," + frac) == sign + whole + "." + frac
  {
    var t := sign + whole + "," + frac;
    var r := ReplaceCommas(t);
    forall k | 0 <= k < |t|
      ensures r[k] == (sign + whole + "." + frac)[k]
    {
      if k < |sign| {
      } else if k < |sign| + |whole| {
        assert t[k] == whole[k - |sign|];
      } else if k > |sign| + |whole| {
        assert t[k] == frac[k - |sign| - |whole| - 1];
      }
    }
  }

  /** A number written `[-]WHOLE,FRAC` reads as the integer all its digits
      spell, scaled down by the number of digits after the comma, unless that
      is the -99 marker. */
  lemma ReadFloatOfParts(negative: bool, whole: string, frac: string)
    requires AllDigits(whole) && AllDigits(frac) && |whole| + |frac| > 0
    ensures AllDigits(whole + frac)
    ensures var sign := if negative then "-" else "";
      var v := Signed(negative, DigitsValue(whole + frac) as real / Pow10(|frac|) as real);
      ReadFloat(sign + whole + "," + frac) == if v == -99.0 then None else Some(v)
  {
    ReplaceCommaOfParts(if negative then "-" else "", whole, frac);
    ParseDecimalOfParts(negative, whole, frac);
  }

  /** A number written without a comma reads as the integer its digits spell,
      unless that is the -99 marker. */
  lemma ReadFloatOfWhole(negative: bool, whole: string)
    requires AllDigits(whole) && |whole| > 0
    ensures var sign := if negative then "-" else "";
      var v := Signed(negative, DigitsValue(whole) as real);
      ReadFloat(sign + whole) == if v == -99.0 then None else Some(v)
  {
    ReplaceNoComma(if negative then "-" else "", whole);
    ParseDecimalOfWhole(negative, whole);
  }
}
