/** The fragment of Python regular expressions the feed grammar is written in:
    a sequence of literal strings and named groups of the four shapes `\w+`,
    `\w*`, `-?[0-9,]+` and `-?[0-9,]*`.

    `Parses` gives the meaning of such a pattern as a relation (any way of
    cutting the text into pieces that each belong to their element's language);
    `MatchCuts` is the greedy matcher, and `MatchComplete` shows that on a
    well-separated pattern it finds every parse there is, so the backtracking
    of the regular-expression engine never comes into play. `SearchFrom` is
    `re.search`: the leftmost position at which the pattern matches. */
module Pattern {
  import opened Wrappers

  /** `\w`, taken as ASCII letters, digits and underscore. */
  predicate IsWordChar(c: char) {
    'a' <= c <= 'z' || 'A' <= c <= 'Z' || '0' <= c <= '9' || c == '_'
  }

  /** The character class `[0-9,]`. */
  predicate IsNumberChar(c: char) {
    '0' <= c <= '9' || c == ','
  }

  /** The shapes of capture group the grammar uses. */
  datatype Field = WordPlus | WordStar | NumberPlus | NumberStar {
    predicate Admits(c: char) {
      if WordPlus? || WordStar? then IsWordChar(c) else IsNumberChar(c)
    }

    /** Whether the group starts with an optional `-`. */
    predicate Signed() {
      NumberPlus? || NumberStar?
    }

    /** Whether the repetition is `+` rather than `*`. */
    predicate NonEmpty() {
      WordPlus? || NumberPlus?
    }
  }

  datatype Elem = Lit(text: string) | Group(name: string, field: Field)

  /** A capture without its optional leading `-`. */
  function Body(t: string, f: Field): string {
    if f.Signed() && |t| > 0 && t[0] == '-' then t[1..] else t
  }

  /** The strings a group of shape `f` can capture. */
  predicate InLanguage(t: string, f: Field) {
    var body := Body(t, f);
    && (forall k | 0 <= k < |body| :: f.Admits(body[k]))
    && (f.NonEmpty() ==> |body| > 0)
  }

  /** `s[i..j]` is a word of the language of `e`. */
  predicate Spans(s: string, e: Elem, i: nat, j: nat) {
    i <= j <= |s| &&
    match e
    case Lit(t) => s[i..j] == t
    case Group(_, f) => InLanguage(s[i..j], f)
  }

  /** `cuts` splits `s` from position `i` on into consecutive pieces, one per
      element of `pat`, each in its element's language. */
  ghost predicate Parses(s: string, i: nat, pat: seq<Elem>, cuts: seq<nat>)
    decreases pat
  {
    && |cuts| == |pat| + 1
    && cuts[0] == i
    && (|pat| > 0 ==> Spans(s, pat[0], cuts[0], cuts[1]) && Parses(s, cuts[1], pat[1..], cuts[1..]))
  }

  /** Where the optional `-` of a group starting at `i` ends. */
  function SignEnd(s: string, i: nat, f: Field): nat
    requires i <= |s|
  {
    if f.Signed() && i < |s| && s[i] == '-' then i + 1 else i
  }

  /** End of the longest run of characters of `f`'s class from `k` on. */
  function RunEnd(s: string, k: nat, f: Field): (j: nat)
    requires k <= |s|
    ensures k <= j <= |s|
    ensures forall m | k <= m < j :: f.Admits(s[m])
    ensures j < |s| ==> !f.Admits(s[j])
    decreases |s| - k
  {
    if k < |s| && f.Admits(s[k]) then RunEnd(s, k + 1, f) else k
  }

  /** The greedy matcher: each group takes the longest run it can, and the
      result is the list of piece boundaries. */
  function MatchCuts(s: string, i: nat, pat: seq<Elem>): (r: Option<seq<nat>>)
    requires i <= |s|
    ensures r.Some? ==> Parses(s, i, pat, r.value)
    decreases pat
  {
    if |pat| == 0 then Some([i])
    else
      var j := match pat[0]
        case Lit(t) => i + |t|
        case Group(_, f) => RunEnd(s, SignEnd(s, i, f), f);
      if j <= |s| && Spans(s, pat[0], i, j) then
        match MatchCuts(s, j, pat[1..])
        case Some(rest) => assert ([i] + rest)[1..] == rest; Some([i] + rest)
        case None => None
      else
        None
  }

  /** Every group is followed by a non-empty literal whose first character
      neither belongs to the group's class nor is a `-`. */
  predicate WellSeparated(pat: seq<Elem>)
    decreases pat
  {
    |pat| == 0 ||
    (&& (pat[0].Group? ==>
          && |pat| > 1 && pat[1].Lit? && |pat[1].text| > 0
          && !pat[0].field.Admits(pat[1].text[0]) && pat[1].text[0] != '-')
     && WellSeparated(pat[1..]))
  }

  lemma RunEndUnique(s: string, k: nat, j: nat, f: Field)
    requires k <= j <= |s|
    requires forall m | k <= m < j :: f.Admits(s[m])
    requires j < |s| ==> !f.Admits(s[j])
    ensures RunEnd(s, k, f) == j
  {
  }

  /** A group's piece that is followed by a character outside its class (and
      not a `-`) is exactly the piece the greedy matcher takes. */
  lemma GroupSpanIsGreedy(s: string, i: nat, j: nat, f: Field)
    requires i <= j < |s|
    requires InLanguage(s[i..j], f)
    requires !f.Admits(s[j]) && s[j] != '-'
    ensures RunEnd(s, SignEnd(s, i, f), f) == j
  {
    var t := s[i..j];
    if f.Signed() && s[i] == '-' {
      assert j > i;
      assert t[0] == '-';
      assert Body(t, f) == s[i + 1..j];
      forall m | i + 1 <= m < j
        ensures f.Admits(s[m])
      {
        assert s[m] == Body(t, f)[m - i - 1];
      }
      RunEndUnique(s, i + 1, j, f);
    } else {
      assert Body(t, f) == t;
      forall m | i <= m < j
        ensures f.Admits(s[m])
      {
        assert s[m] == t[m - i];
      }
      RunEndUnique(s, i, j, f);
    }
  }

  /** On a well-separated pattern the greedy matcher finds every parse: a
      parse, when there is one, is unique and is the matcher's answer. */
  lemma {:induction false} MatchComplete(s: string, i: nat, pat: seq<Elem>, cuts: seq<nat>)
    requires i <= |s|
    requires WellSeparated(pat) && Parses(s, i, pat, cuts)
    ensures MatchCuts(s, i, pat) == Some(cuts)
    decreases pat
  {
    if |pat| > 0 {
      var j := cuts[1];
      assert Spans(s, pat[0], i, j);
      if pat[0].Group? {
        var next := pat[1].text;
        assert Spans(s, pat[1], cuts[1], cuts[2]);
        assert s[j] == next[0] by { assert s[j..cuts[2]] == next; }
        GroupSpanIsGreedy(s, i, j, pat[0].field);
        assert j == RunEnd(s, SignEnd(s, i, pat[0].field), pat[0].field);
      } else {
        assert j == i + |pat[0].text|;
      }
      MatchComplete(s, j, pat[1..], cuts[1..]);
      assert MatchCuts(s, j, pat[1..]) == Some(cuts[1..]);
      assert [i] + cuts[1..] == cuts;
    } else {
      assert cuts == [i];
    }
  }

  /** Two parses of a well-separated pattern from the same position agree. */
  lemma ParseIsUnique(s: string, i: nat, pat: seq<Elem>, cuts1: seq<nat>, cuts2: seq<nat>)
    requires i <= |s|
    requires WellSeparated(pat) && Parses(s, i, pat, cuts1) && Parses(s, i, pat, cuts2)
    ensures cuts1 == cuts2
  {
    MatchComplete(s, i, pat, cuts1);
    MatchComplete(s, i, pat, cuts2);
  }

  /** The result of `re.search`: where the match starts and its boundaries. */
  datatype Found = Found(start: nat, cuts: seq<nat>)

  /** `re.search` from position `i`: the leftmost position at which the
      pattern matches. */
  function SearchFrom(s: string, pat: seq<Elem>, i: nat): (r: Option<Found>)
    requires i <= |s|
    ensures r.Some? ==> i <= r.value.start <= |s| && MatchCuts(s, r.value.start, pat) == Some(r.value.cuts)
    ensures r.Some? ==> forall j | i <= j < r.value.start :: MatchCuts(s, j, pat).None?
    ensures r.None? ==> forall j | i <= j <= |s| :: MatchCuts(s, j, pat).None?
    decreases |s| - i
  {
    match MatchCuts(s, i, pat)
    case Some(cuts) => Some(Found(i, cuts))
    case None => if i == |s| then None else SearchFrom(s, pat, i + 1)
  }

  /** The pattern parses at some position of `s`. */
  ghost predicate ParsesSomewhere(s: string, pat: seq<Elem>) {
    exists i: nat, cuts: seq<nat> :: i <= |s| && Parses(s, i, pat, cuts)
  }

  /** The pattern parses at no position before `start`. */
  ghost predicate NoParseBefore(s: string, pat: seq<Elem>, start: nat) {
    forall j: nat, cuts: seq<nat> | j < start :: !Parses(s, j, pat, cuts)
  }

  /** The search succeeds exactly when the pattern parses somewhere in `s`,
      and then returns the leftmost parse. */
  lemma SearchFindsLeftmostParse(s: string, pat: seq<Elem>)
    requires WellSeparated(pat)
    ensures SearchFrom(s, pat, 0).Some? <==> ParsesSomewhere(s, pat)
    ensures SearchFrom(s, pat, 0).Some? ==>
      var found := SearchFrom(s, pat, 0).value;
      Parses(s, found.start, pat, found.cuts) && NoParseBefore(s, pat, found.start)
  {
    var r := SearchFrom(s, pat, 0);
    forall i: nat, cuts: seq<nat> | i <= |s| && Parses(s, i, pat, cuts)
      ensures r.Some? && r.value.start <= i
    {
      MatchComplete(s, i, pat, cuts);
    }
    if r.Some? {
      assert Parses(s, r.value.start, pat, r.value.cuts);
      assert exists i: nat, cuts: seq<nat> :: i <= |s| && Parses(s, i, pat, cuts);
      assert SearchFrom(s, pat, 0).Some?;
    }
  }

  /** The names of the groups of `pat`, in order. */
  function NamesOf(pat: seq<Elem>): (names: seq<string>)
    ensures |names| <= |pat|
    decreases pat
  {
    if |pat| == 0 then []
    else (if pat[0].Group? then [pat[0].name] else []) + NamesOf(pat[1..])
  }

  /** The shapes of the groups of `pat`, in order. */
  function FieldsOf(pat: seq<Elem>): (fields: seq<Field>)
    ensures |fields| == |NamesOf(pat)|
    decreases pat
  {
    if |pat| == 0 then []
    else (if pat[0].Group? then [pat[0].field] else []) + FieldsOf(pat[1..])
  }

  /** The texts captured by the groups of `pat` under the parse `cuts`, in order. */
  function Texts(s: string, pat: seq<Elem>, cuts: seq<nat>): (texts: seq<string>)
    requires |cuts| > 0 && Parses(s, cuts[0], pat, cuts)
    ensures |texts| == |NamesOf(pat)|
    decreases pat
  {
    if |pat| == 0 then []
    else (if pat[0].Group? then [s[cuts[0]..cuts[1]]] else []) + Texts(s, pat[1..], cuts[1..])
  }

  predicate Distinct(names: seq<string>) {
    forall j, k | 0 <= j < k < |names| :: names[j] != names[k]
  }

  /** The map from each name to the value in the same position. */
  function Zip(names: seq<string>, values: seq<string>): (m: map<string, string>)
    requires |names| == |values|
    decreases names
  {
    if |names| == 0 then map[]
    else Zip(names[1..], values[1..])[names[0] := values[0]]
  }

  /** The keys of the map are the names. */
  lemma {:induction false} ZipKeys(names: seq<string>, values: seq<string>)
    requires |names| == |values|
    ensures Zip(names, values).Keys == set n | n in names
    decreases names
  {
    if |names| > 0 {
      ZipKeys(names[1..], values[1..]);
      assert names == [names[0]] + names[1..];
    }
  }

  lemma {:induction false} ZipAt(names: seq<string>, values: seq<string>, k: nat)
    requires |names| == |values| && Distinct(names) && k < |names|
    ensures names[k] in Zip(names, values) && Zip(names, values)[names[k]] == values[k]
    decreases names
  {
    if k > 0 {
      assert names[1..][k - 1] == names[k];
      assert names[k] != names[0];
      ZipAt(names[1..], values[1..], k - 1);
    }
  }

  /** Python's `match.groupdict()`: each group name with its captured text. */
  function CapturesOf(s: string, pat: seq<Elem>, cuts: seq<nat>): map<string, string>
    requires |cuts| > 0 && Parses(s, cuts[0], pat, cuts)
  {
    Zip(NamesOf(pat), Texts(s, pat, cuts))
  }

  /** Every captured text belongs to its group's language. */
  lemma {:induction false} TextsInLanguage(s: string, pat: seq<Elem>, cuts: seq<nat>)
    requires |cuts| > 0 && Parses(s, cuts[0], pat, cuts)
    ensures forall k | 0 <= k < |FieldsOf(pat)| :: InLanguage(Texts(s, pat, cuts)[k], FieldsOf(pat)[k])
    decreases pat
  {
    if |pat| > 0 {
      TextsInLanguage(s, pat[1..], cuts[1..]);
    }
  }

  /** Inverse of matching: writes each literal and, for each group, the next of
      `values`. */
  function Fill(pat: seq<Elem>, values: seq<string>): string
    requires |values| == |NamesOf(pat)|
    decreases pat
  {
    if |pat| == 0 then ""
    else match pat[0]
      case Lit(t) => t + Fill(pat[1..], values)
      case Group(_, _) => values[0] + Fill(pat[1..], values[1..])
  }

  /** The boundaries of the pieces of `Fill(pat, values)` placed at position `i`. */
  function FillCuts(i: nat, pat: seq<Elem>, values: seq<string>): (cuts: seq<nat>)
    requires |values| == |NamesOf(pat)|
    ensures |cuts| == |pat| + 1 && cuts[0] == i
    decreases pat
  {
    if |pat| == 0 then [i]
    else match pat[0]
      case Lit(t) => [i] + FillCuts(i + |t|, pat[1..], values)
      case Group(_, _) => [i] + FillCuts(i + |values[0]|, pat[1..], values[1..])
  }

  /** The piece `Fill` writes for the first element of `pat`. */
  function Head(pat: seq<Elem>, values: seq<string>): string
    requires |pat| > 0 && |values| == |NamesOf(pat)|
  {
    match pat[0]
    case Lit(t) => t
    case Group(_, _) => values[0]
  }

  /** The values left for the rest of `pat`. */
  function Tail(pat: seq<Elem>, values: seq<string>): (rest: seq<string>)
    requires |pat| > 0 && |values| == |NamesOf(pat)|
    ensures |rest| == |NamesOf(pat[1..])|
  {
    match pat[0]
    case Lit(_) => values
    case Group(_, _) => values[1..]
  }

  /** Each value belongs to the language of the group it fills. */
  predicate Fits(pat: seq<Elem>, values: seq<string>)
    decreases pat
  {
    && |values| == |NamesOf(pat)|
    && (|pat| > 0 ==>
         && (pat[0].Group? ==> InLanguage(values[0], pat[0].field))
         && Fits(pat[1..], Tail(pat, values)))
  }

  lemma FillStep(i: nat, pat: seq<Elem>, values: seq<string>)
    requires |pat| > 0 && |values| == |NamesOf(pat)|
    ensures Fill(pat, values) == Head(pat, values) + Fill(pat[1..], Tail(pat, values))
    ensures FillCuts(i, pat, values) == [i] + FillCuts(i + |Head(pat, values)|, pat[1..], Tail(pat, values))
  {
  }

  /** Where `Fill(pat, values)` stands in `s`, its first piece and the filling
      of the rest stand one after the other. */
  lemma FillSplit(s: string, i: nat, pat: seq<Elem>, values: seq<string>)
    requires |pat| > 0 && |values| == |NamesOf(pat)|
    requires i + |Fill(pat, values)| <= |s| && s[i..i + |Fill(pat, values)|] == Fill(pat, values)
    ensures var piece, n := Head(pat, values), |Fill(pat, values)|;
      && i + |piece| <= i + n
      && s[i..i + |piece|] == piece
      && s[i + |piece|..i + n] == Fill(pat[1..], Tail(pat, values))
      && FillCuts(i, pat, values)[1..] == FillCuts(i + |piece|, pat[1..], Tail(pat, values))
  {
    var piece, n := Head(pat, values), |Fill(pat, values)|;
    FillStep(i, pat, values);
    assert s[i..i + |piece|] == s[i..i + n][..|piece|];
    assert s[i + |piece|..i + n] == s[i..i + n][|piece|..];
  }

  /** One step of `Texts`. */
  lemma TextsStep(s: string, pat: seq<Elem>, cuts: seq<nat>)
    requires |pat| > 0 && |cuts| > 0 && Parses(s, cuts[0], pat, cuts)
    ensures Parses(s, cuts[1], pat[1..], cuts[1..])
    ensures Texts(s, pat, cuts)
      == (if pat[0].Group? then [s[cuts[0]..cuts[1]]] else []) + Texts(s, pat[1..], cuts[1..])
  {
  }

  /** Filling a pattern with fitting values yields a parse of the filled text,
      wherever it stands in `s`. */
  lemma {:induction false} FillParses(s: string, i: nat, pat: seq<Elem>, values: seq<string>)
    requires Fits(pat, values)
    requires i + |Fill(pat, values)| <= |s| && s[i..i + |Fill(pat, values)|] == Fill(pat, values)
    ensures Parses(s, i, pat, FillCuts(i, pat, values))
    decreases pat
  {
    if |pat| > 0 {
      var piece, cuts := Head(pat, values), FillCuts(i, pat, values);
      FillSplit(s, i, pat, values);
      FillParses(s, i + |piece|, pat[1..], Tail(pat, values));
      assert cuts[1] == i + |piece|;
      assert Spans(s, pat[0], i, i + |piece|);
    }
  }

  /** ... and the texts that parse captures are the values filled in. */
  lemma {:induction false} FillTexts(s: string, i: nat, pat: seq<Elem>, values: seq<string>)
    requires Fits(pat, values)
    requires i + |Fill(pat, values)| <= |s| && s[i..i + |Fill(pat, values)|] == Fill(pat, values)
    ensures Parses(s, i, pat, FillCuts(i, pat, values))
    ensures Texts(s, pat, FillCuts(i, pat, values)) == values
    decreases pat
  {
    FillParses(s, i, pat, values);
    if |pat| > 0 {
      var piece, rest := Head(pat, values), Tail(pat, values);
      var cuts := FillCuts(i, pat, values);
      FillSplit(s, i, pat, values);
      FillTexts(s, i + |piece|, pat[1..], rest);
      TextsStep(s, pat, cuts);
      assert cuts[0] == i && cuts[1] == i + |piece|;
      if pat[0].Group? {
        assert s[cuts[0]..cuts[1]] == values[0];
        assert [values[0]] + rest == values;
      } else {
        assert rest == values;
      }
    }
  }

  lemma {:induction false} NamesOfAppend(a: seq<Elem>, b: seq<Elem>)
    ensures NamesOf(a + b) == NamesOf(a) + NamesOf(b)
    ensures FieldsOf(a + b) == FieldsOf(a) + FieldsOf(b)
    decreases a
  {
    if |a| > 0 {
      assert (a + b)[1..] == a[1..] + b;
      NamesOfAppend(a[1..], b);
    } else {
      assert a + b == b;
    }
  }

  /** Patterns that end in a literal can be joined without losing separation. */
  lemma {:induction false} WellSeparatedAppend(a: seq<Elem>, b: seq<Elem>)
    requires WellSeparated(a) && WellSeparated(b)
    requires |a| > 0 ==> a[|a| - 1].Lit?
    ensures WellSeparated(a + b)
    decreases a
  {
    if |a| > 0 {
      assert (a + b)[1..] == a[1..] + b;
      WellSeparatedAppend(a[1..], b);
    } else {
      assert a + b == b;
    }
  }

  /** A group followed by the literal that closes it. */
  datatype Slot = Slot(name: string, field: Field, close: string)

  /** The pattern made of `slots`, one group and its closing literal each. */
  function Slots(slots: seq<Slot>): (pat: seq<Elem>)
    ensures |pat| == 2 * |slots|
  {
    if |slots| == 0 then []
    else [Group(slots[0].name, slots[0].field), Lit(slots[0].close)] + Slots(slots[1..])
  }

  /** The closing literal cannot be mistaken for part of the group. */
  predicate Closes(slot: Slot) {
    |slot.close| > 0 && !slot.field.Admits(slot.close[0]) && slot.close[0] != '-'
  }

  lemma {:induction false} SlotsFacts(slots: seq<Slot>)
    requires forall k | 0 <= k < |slots| :: Closes(slots[k])
    ensures WellSeparated(Slots(slots))
    ensures NamesOf(Slots(slots)) == seq(|slots|, k requires 0 <= k < |slots| => slots[k].name)
    ensures FieldsOf(Slots(slots)) == seq(|slots|, k requires 0 <= k < |slots| => slots[k].field)
  {
    if |slots| > 0 {
      var first: seq<Elem> := [Group(slots[0].name, slots[0].field), Lit(slots[0].close)];
      var rest := Slots(slots[1..]);
      SlotsFacts(slots[1..]);
      assert first[1..] == [Lit(slots[0].close)];
      assert first[1..][1..] == [];
      assert NamesOf(first) == [slots[0].name];
      assert FieldsOf(first) == [slots[0].field];
      assert WellSeparated(first);
      NamesOfAppend(first, rest);
      WellSeparatedAppend(first, rest);
      assert NamesOf(Slots(slots)) == seq(|slots|, k requires 0 <= k < |slots| => slots[k].name);
      assert FieldsOf(Slots(slots)) == seq(|slots|, k requires 0 <= k < |slots| => slots[k].field);
    }
  }

  /** `Fits` read column by column: each value in the language of its group. */
  lemma {:induction false} FitsByColumn(pat: seq<Elem>, values: seq<string>)
    requires |values| == |NamesOf(pat)|
    requires forall k | 0 <= k < |values| :: InLanguage(values[k], FieldsOf(pat)[k])
    ensures Fits(pat, values)
    decreases pat
  {
    if |pat| > 0 {
      var rest := Tail(pat, values);
      assert FieldsOf(pat) == (if pat[0].Group? then [pat[0].field] else []) + FieldsOf(pat[1..]);
      if pat[0].Group? {
        assert InLanguage(values[0], FieldsOf(pat)[0]);
        forall k | 0 <= k < |rest|
          ensures InLanguage(rest[k], FieldsOf(pat[1..])[k])
        {
          assert rest[k] == values[k + 1] && FieldsOf(pat[1..])[k] == FieldsOf(pat)[k + 1];
        }
      }
      FitsByColumn(pat[1..], rest);
    }
  }

  /** `re.search(pattern, s).groupdict()`: the captures of the leftmost match,
      or None when the pattern matches nowhere. */
  function GroupDict(s: string, pat: seq<Elem>): (r: Option<map<string, string>>)
    ensures r.None? ==> forall j | 0 <= j <= |s| :: MatchCuts(s, j, pat).None?
    ensures r.Some? ==> r.value.Keys == set n | n in NamesOf(pat)
  {
    match SearchFrom(s, pat, 0)
    case None => None
    case Some(found) =>
      ZipKeys(NamesOf(pat), Texts(s, pat, found.cuts));
      Some(CapturesOf(s, pat, found.cuts))
  }

  /** `groups` are the captures of the leftmost parse of `pat` in `s`. */
  ghost predicate LeftmostCaptures(s: string, pat: seq<Elem>, groups: map<string, string>) {
    exists start: nat, cuts: seq<nat> ::
      && Parses(s, start, pat, cuts)
      && NoParseBefore(s, pat, start)
      && groups == CapturesOf(s, pat, cuts)
  }

  /** The search succeeds exactly when the pattern parses somewhere, and then
      holds the captures of the leftmost parse. */
  lemma GroupDictLeftmost(s: string, pat: seq<Elem>)
    requires WellSeparated(pat)
    ensures GroupDict(s, pat).Some? <==> ParsesSomewhere(s, pat)
    ensures GroupDict(s, pat).Some? ==> LeftmostCaptures(s, pat, GroupDict(s, pat).value)
  {
    SearchFindsLeftmostParse(s, pat);
    if GroupDict(s, pat).Some? {
      var found := SearchFrom(s, pat, 0).value;
      assert Parses(s, found.start, pat, found.cuts);
    }
  }

  /** The capture of the `k`-th group is in the language of that group. */
  lemma GroupDictShapeAt(s: string, pat: seq<Elem>, k: nat)
    requires Distinct(NamesOf(pat)) && GroupDict(s, pat).Some? && k < |NamesOf(pat)|
    ensures NamesOf(pat)[k] in GroupDict(s, pat).value
    ensures InLanguage(GroupDict(s, pat).value[NamesOf(pat)[k]], FieldsOf(pat)[k])
  {
    GroupDictShapes(s, pat);
  }

  /** Each capture is in the language of its group. */
  lemma GroupDictShapes(s: string, pat: seq<Elem>)
    requires Distinct(NamesOf(pat)) && GroupDict(s, pat).Some?
    ensures forall k | 0 <= k < |NamesOf(pat)| ::
      NamesOf(pat)[k] in GroupDict(s, pat).value
      && InLanguage(GroupDict(s, pat).value[NamesOf(pat)[k]], FieldsOf(pat)[k])
  {
    var found := SearchFrom(s, pat, 0).value;
    var texts := Texts(s, pat, found.cuts);
    TextsInLanguage(s, pat, found.cuts);
    forall k | 0 <= k < |NamesOf(pat)|
      ensures NamesOf(pat)[k] in Zip(NamesOf(pat), texts)
      ensures Zip(NamesOf(pat), texts)[NamesOf(pat)[k]] == texts[k]
    {
      ZipAt(NamesOf(pat), texts, k);
    }
  }

  /** A pattern opening with a literal cannot match where the text does not
      start with that literal's first character. */
  lemma NoMatchBefore(s: string, pat: seq<Elem>, i: nat)
    requires i <= |s| && |pat| > 0 && pat[0].Lit? && |pat[0].text| > 0
    requires forall j | 0 <= j < i :: s[j] != pat[0].text[0]
    ensures forall j | 0 <= j < i :: MatchCuts(s, j, pat).None?
  {
    forall j | 0 <= j < i
      ensures MatchCuts(s, j, pat).None?
    {
      var t := pat[0].text;
      if j + |t| <= |s| {
        assert s[j..j + |t|][0] != t[0];
      }
    }
  }

  /** The search stops at the first position where the pattern matches. */
  lemma SearchFindsFirst(s: string, pat: seq<Elem>, i: nat, cuts: seq<nat>)
    requires i <= |s| && MatchCuts(s, i, pat) == Some(cuts)
    requires forall j | 0 <= j < i :: MatchCuts(s, j, pat).None?
    ensures SearchFrom(s, pat, 0) == Some(Found(i, cuts))
  {
    var r := SearchFrom(s, pat, 0);
    assert r.Some?;
    assert r.value.start == i;
  }

  /** A pattern opening with a literal, filled with fitting values and placed
      after text that never starts that literal, is found where it was placed
      and gives back the values. */
  lemma {:induction false} GroupDictOfFill(pre: string, pat: seq<Elem>, values: seq<string>, post: string)
    requires WellSeparated(pat) && Fits(pat, values)
    requires |pat| > 0 && pat[0].Lit? && |pat[0].text| > 0
    requires forall k | 0 <= k < |pre| :: pre[k] != pat[0].text[0]
    ensures GroupDict(pre + Fill(pat, values) + post, pat) == Some(Zip(NamesOf(pat), values))
  {
    var s := pre + Fill(pat, values) + post;
    var i := |pre|;
    var filled := Fill(pat, values);
    assert s[i..i + |filled|] == filled;
    FillTexts(s, i, pat, values);
    var cuts := FillCuts(i, pat, values);
    MatchComplete(s, i, pat, cuts);
    assert forall j | 0 <= j < i :: s[j] == pre[j];
    NoMatchBefore(s, pat, i);
    SearchFindsFirst(s, pat, i, cuts);
  }
}
