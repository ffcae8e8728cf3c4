/** Exact decimal reading of the numeric strings the feed carries: the part of
    Python's `float()` that `FeedItemHelper.get_float` relies on, over strings
    made of an optional sign, decimal digits and at most one point. Values are
    exact `real`s rather than IEEE doubles. */
module Decimal {
  import opened Wrappers

  predicate IsDigit(c: char) {
    '0' <= c <= '9'
  }

  predicate AllDigits(t: string) {
    forall k | 0 <= k < |t| :: IsDigit(t[k])
  }

  /** The natural number a string of decimal digits denotes. */
  function DigitsValue(d: string): nat
    requires AllDigits(d)
    decreases |d|
  {
    if |d| == 0 then 0 else (d[0] as int - '0' as int) * Pow10(|d| - 1) + DigitsValue(d[1..])
  }

  function Pow10(n: nat): (r: nat)
    ensures r >= 1
  {
    if n == 0 then 1 else 10 * Pow10(n - 1)
  }

  /** Position of the first `c` in `t`, or `|t|` when there is none. */
  function IndexOf(t: string, c: char): (k: nat)
    ensures k <= |t|
    ensures k < |t| ==> t[k] == c
    ensures forall j | 0 <= j < k :: t[j] != c
  {
    if |t| == 0 then 0 else if t[0] == c then 0 else 1 + IndexOf(t[1..], c)
  }

  predicate IsNegative(u: string) {
    |u| > 0 && u[0] == '-'
  }

  /** `u` without its leading sign, if it has one. */
  function Unsigned(u: string): string {
    if |u| > 0 && (u[0] == '-' || u[0] == '+') then u[1..] else u
  }

  function Signed(negative: bool, magnitude: real): real {
    if negative then -magnitude else magnitude
  }

  /** The value of the digits `whole` and `frac` written around a decimal point. */
  function Magnitude(whole: string, frac: string): real
    requires AllDigits(whole) && AllDigits(frac)
  {
    DigitsValue(whole) as real + DigitsValue(frac) as real / Pow10(|frac|) as real
  }

  /** Python's `float(u)` on strings of signs, digits and points: an optional
      sign, then digits around at most one point, with a digit on at least one
      side of it ("1." and ".5" are accepted, "." and "-" are not). */
  function ParseDecimal(u: string): (r: Option<real>)
    ensures r.Some? && r.value < 0.0 ==> IsNegative(u)
    ensures r.Some? && !IsNegative(u) ==> r.value >= 0.0
  {
    var body := Unsigned(u);
    var p := IndexOf(body, '.');
    var whole := body[..p];
    var frac := if p < |body| then body[p + 1..] else "";
    if AllDigits(whole) && AllDigits(frac) && |whole| + |frac| > 0 then
      Some(Signed(IsNegative(u), Magnitude(whole, frac)))
    else
      None
  }

  /** The literals accepted, described without reference to how they are split:
      after an optional sign only digits and points, no two points, some digit. */
  ghost predicate IsDecimalLiteral(u: string) {
    DecimalBody(Unsigned(u))
  }

  /** Only digits and points, no two points, some digit. */
  ghost predicate DecimalBody(body: string) {
    && (forall k | 0 <= k < |body| :: IsDigit(body[k]) || body[k] == '.')
    && (forall j, k | 0 <= j < k < |body| :: !(body[j] == '.' && body[k] == '.'))
    && (exists k | 0 <= k < |body| :: IsDigit(body[k]))
  }

  /** Python's `str.replace(",", ".")`. */
  function ReplaceCommas(t: string): (r: string)
    ensures |r| == |t|
    ensures forall k | 0 <= k < |t| :: r[k] == (if t[k] == ',' then '.' else t[k])
  {
    if |t| == 0 then "" else [if t[0] == ',' then '.' else t[0]] + ReplaceCommas(t[1..])
  }

  /** A signed run of digits has no comma to replace. */
  lemma ReplaceNoComma(sign: string, whole: string)
    requires sign == "" || sign == "-"
    requires AllDigits(whole)
    ensures ReplaceCommas(sign + whole) == sign + whole
  {
    var t := sign + whole;
    assert forall k | 0 <= k < |t| :: t[k] != ',' by {
      forall k | 0 <= k < |t|
        ensures t[k] != ','
      {
        if k >= |sign| {
          assert t[k] == whole[k - |sign|];
        }
      }
    }
  }

  lemma {:induction false} Pow10Add(m: nat, n: nat)
    ensures Pow10(m + n) == Pow10(m) * Pow10(n)
  {
    if m > 0 {
      Pow10Add(m - 1, n);
    }
  }

  lemma {:induction false} DigitsValueAppend(a: string, b: string)
    requires AllDigits(a) && AllDigits(b)
    ensures AllDigits(a + b)
    ensures DigitsValue(a + b) == DigitsValue(a) * Pow10(|b|) + DigitsValue(b)
    decreases |a|
  {
    assert AllDigits(a + b) by {
      forall k | 0 <= k < |a + b| ensures IsDigit((a + b)[k]) {
        if k >= |a| { assert (a + b)[k] == b[k - |a|]; }
      }
    }
    if |a| > 0 {
      assert (a + b)[1..] == a[1..] + b;
      DigitsValueAppend(a[1..], b);
      Pow10Add(|a| - 1, |b|);
      ShiftDigit(a[0] as int - '0' as int, Pow10(|a| - 1), Pow10(|b|), DigitsValue(a[1..]));
    } else {
      assert a + b == b;
    }
  }

  lemma ShiftDigit(d: int, p: int, q: int, y: int)
    ensures d * (p * q) + y * q == (d * p + y) * q
  {
  }

  lemma Rescale(w: real, f: real, p: real)
    requires p > 0.0
    ensures (w * p + f) / p == w + f / p
  {
  }

  lemma MagnitudeOfWhole(whole: string)
    requires AllDigits(whole)
    ensures Magnitude(whole, "") == DigitsValue(whole) as real
  {
    var none: string := "";
    assert DigitsValue(none) == 0 && Pow10(|none|) == 1;
    assert DigitsValue(none) as real / Pow10(|none|) as real == 0.0;
  }

  /** The digits around the point, read as one integer and scaled down. */
  lemma MagnitudeScaled(whole: string, frac: string)
    requires AllDigits(whole) && AllDigits(frac)
    ensures AllDigits(whole + frac)
    ensures Magnitude(whole, frac) == DigitsValue(whole + frac) as real / Pow10(|frac|) as real
  {
    DigitsValueAppend(whole, frac);
    ScaleDown(DigitsValue(whole), DigitsValue(frac), Pow10(|frac|), DigitsValue(whole + frac));
  }

  lemma ScaleDown(w: nat, f: nat, p: nat, t: nat)
    requires p > 0 && t == w * p + f
    ensures w as real + f as real / p as real == t as real / p as real
  {
    CastLinear(w, p, f);
    Rescale(w as real, f as real, p as real);
  }

  lemma CastLinear(a: int, b: int, c: int)
    ensures (a * b + c) as real == a as real * b as real + c as real
  {
  }

  lemma IndexOfPrefix(t: string, c: char, k: nat)
    requires k <= |t|
    requires forall j | 0 <= j < k :: t[j] != c
    requires k < |t| ==> t[k] == c
    ensures IndexOf(t, c) == k
  {
  }

  /** ParseDecimal accepts exactly the decimal literals. */
  lemma ParseDecimalAccepts(u: string)
    ensures ParseDecimal(u).Some? <==> IsDecimalLiteral(u)
  {
    var body := Unsigned(u);
    var p := IndexOf(body, '.');
    var whole := body[..p];
    var frac := if p < |body| then body[p + 1..] else "";
    if ParseDecimal(u).Some? {
      forall k | 0 <= k < |body|
        ensures IsDigit(body[k]) || body[k] == '.'
      {
        if k < p {
          assert body[k] == whole[k];
        } else if k > p {
          assert body[k] == frac[k - p - 1];
        }
      }
      forall j, k | 0 <= j < k < |body|
        ensures !(body[j] == '.' && body[k] == '.')
      {
        if k < p {
          assert body[k] == whole[k];
        } else if p < k {
          assert body[k] == frac[k - p - 1];
          if j < p {
            assert body[j] == whole[j];
          } else if p < j {
            assert body[j] == frac[j - p - 1];
          }
        }
      }
      if |whole| > 0 {
        assert IsDigit(body[0]) by { assert body[0] == whole[0]; }
      } else {
        assert IsDigit(body[p + 1]) by { assert body[p + 1] == frac[0]; }
      }
    }
    if IsDecimalLiteral(u) {
      assert AllDigits(whole);
      if p < |body| {
        forall k | 0 <= k < |frac|
          ensures IsDigit(frac[k])
        {
          assert frac[k] == body[p + 1 + k];
        }
      }
      var k :| 0 <= k < |body| && IsDigit(body[k]);
      if k > p {
        assert frac[k - p - 1] == body[k];
      }
    }
  }

  /** Prefixing a sign to a string that does not start with one. */
  lemma SignSplit(negative: bool, body: string)
    requires |body| > 0 ==> body[0] != '-' && body[0] != '+'
    ensures var u := (if negative then "-" else "") + body;
      Unsigned(u) == body && IsNegative(u) == negative
  {
    var u := (if negative then "-" else "") + body;
    if negative {
      assert u[1..] == body;
    } else {
      assert u == body;
    }
  }

  lemma PointSplit(whole: string, frac: string)
    requires AllDigits(whole)
    ensures var body := whole + "." + frac;
      IndexOf(body, '.') == |whole| && body[..|whole|] == whole && body[|whole| + 1..] == frac
  {
    var body := whole + "." + frac;
    forall j | 0 <= j < |whole|
      ensures body[j] != '.'
    {
      assert body[j] == whole[j];
    }
    IndexOfPrefix(body, '.', |whole|);
    assert body[..|whole|] == whole;
    assert body[|whole| + 1..] == frac;
  }

  /** Reading a literal assembled from a sign, a whole part and a fraction part
      gives the integer spelled by all its digits, scaled down by the length of
      the fraction part. */
  lemma ParseDecimalOfParts(negative: bool, whole: string, frac: string)
    requires AllDigits(whole) && AllDigits(frac) && |whole| + |frac| > 0
    ensures AllDigits(whole + frac)
    ensures var sign := if negative then "-" else "";
      ParseDecimal(sign + whole + "." + frac)
      == Some(Signed(negative, DigitsValue(whole + frac) as real / Pow10(|frac|) as real))
  {
    var sign := if negative then "-" else "";
    var body := whole + "." + frac;
    assert sign + whole + "." + frac == sign + body;
    assert body[0] != '-' && body[0] != '+' by {
      if |whole| > 0 {
        assert body[0] == whole[0];
      }
    }
    SignSplit(negative, body);
    PointSplit(whole, frac);
    MagnitudeScaled(whole, frac);
  }

  /** A literal without a point reads as the integer its digits spell. */
  lemma ParseDecimalOfWhole(negative: bool, whole: string)
    requires AllDigits(whole) && |whole| > 0
    ensures var sign := if negative then "-" else "";
      ParseDecimal(sign + whole) == Some(Signed(negative, DigitsValue(whole) as real))
  {
    assert IsDigit(whole[0]);
    SignSplit(negative, whole);
    IndexOfPrefix(whole, '.', |whole|);
    assert whole[..|whole|] == whole;
    MagnitudeOfWhole(whole);
  }
}
