/**
 * The menu manager's price field. While typing, the input keeps only its
 * digits and shows them with a `.` before every full group of three digits
 * counted from the right (`replace(/\B(?=(\d{3})+(?!\d))/g, '.')`); on blur
 * the dots are removed again and the bare digits become the form value. The
 * card shows `Rp ` and the same grouping of the price. The form accepts a
 * price iff `parseFloat` reads a number greater than 0; create parses the
 * form value as is, update after deleting every `.`.
 */
module PriceFormat {
  import opened Common

  // ---------------------------------------------------------------------------
  // Digit grouping
  // ---------------------------------------------------------------------------

  /** Every character is a digit or a `.`. */
  predicate DigitsAndDots(r: string) {
    forall k :: 0 <= k < |r| ==> r[k] == '.' || IsDigit(r[k])
  }

  /** There is a `.` at index `k` of `r`. */
  predicate DotAt(r: string, k: int) {
    0 <= k < |r| && r[k] == '.'
  }

  /** The `.` at `k` is followed by exactly three digits and then the end or another `.`. */
  predicate FullGroupAfter(r: string, k: int)
    requires 0 <= k < |r|
  {
    && k + 4 <= |r|
    && IsDigit(r[k + 1]) && IsDigit(r[k + 2]) && IsDigit(r[k + 3])
    && (k + 4 == |r| || r[k + 4] == '.')
  }

  /** The text before the first `.` (or all of `r` when there is none) has one to three characters. */
  predicate LeadGroup(r: string) {
    || |r| == 0
    || (|r| <= 3 && '.' !in r)
    || (exists j :: 1 <= j <= 3 && j < |r| && r[j] == '.' && '.' !in r[..j])
  }

  /**
   * `r` is a grouped digit string: digits and dots, a first group of one to
   * three digits, and three digits after every dot, so no dot leads, trails
   * or follows another.
   */
  predicate WellGrouped(r: string) {
    && DigitsAndDots(r)
    && LeadGroup(r)
    && (forall k :: 0 <= k < |r| && DotAt(r, k) ==> FullGroupAfter(r, k))
  }

  /** Joining a grouped string and three more digits with a `.` gives a grouped string. */
  lemma GroupStep(head: string, tail: string)
    requires WellGrouped(head) && |head| > 0
    requires AllDigits(tail) && |tail| == 3
    ensures WellGrouped(head + "." + tail)
  {
    var r := head + "." + tail;
    assert forall k :: 0 <= k < |head| ==> r[k] == head[k];
    assert forall k :: |head| < k < |r| ==> r[k] == tail[k - |head| - 1];
    assert LeadGroup(r) by {
      if |head| <= 3 && '.' !in head {
        assert r[..|head|] == head;
      } else {
        var j :| 1 <= j <= 3 && j < |head| && head[j] == '.' && '.' !in head[..j];
        assert r[..j] == head[..j];
      }
    }
    forall k | DotAt(r, k)
      ensures FullGroupAfter(r, k)
    {
      if k < |head| {
        assert DotAt(head, k) && FullGroupAfter(head, k);
      }
    }
  }

  /** Deleting the dots of `head + "." + tail`, when `tail` has none, leaves `RemoveChar(head) + tail`. */
  lemma RemoveDotsStep(head: string, tail: string)
    requires '.' !in tail
    ensures RemoveChar(head + "." + tail, '.') == RemoveChar(head, '.') + tail
  {
    var dotTail := ['.'] + tail;
    assert head + "." + tail == head + dotTail;
    RemoveCharAppend(head, dotTail, '.');
    RemoveCharSkipsHead('.', tail);
  }

  /** The grouping regular expression applied to a string of digits. */
  function Group(d: string): (r: string)
    requires AllDigits(d)
    ensures RemoveChar(r, '.') == d
    ensures WellGrouped(r)
    ensures |d| > 0 ==> |r| == |d| + (|d| - 1) / 3
    decreases |d|
  {
    if |d| <= 3 then
      d
    else
      var head := Group(d[..|d| - 3]);
      JoinGroups(d, head);
      head + "." + d[|d| - 3..]
  }

  /** Putting a `.` and the last three digits after the grouping of the others groups all of them. */
  lemma JoinGroups(d: string, head: string)
    requires AllDigits(d) && |d| > 3
    requires RemoveChar(head, '.') == d[..|d| - 3] && WellGrouped(head)
    requires |head| == |d| - 3 + (|d| - 4) / 3
    ensures var r := head + "." + d[|d| - 3..];
            RemoveChar(r, '.') == d && WellGrouped(r) && |r| == |d| + (|d| - 1) / 3
  {
    var tail := d[|d| - 3..];
    assert d == d[..|d| - 3] + tail;
    assert '.' !in tail by {
      assert forall k :: 0 <= k < |tail| ==> IsDigit(tail[k]);
    }
    RemoveDotsStep(head, tail);
    GroupStep(head, tail);
  }

  /** `onChange`: keep the digits of what was typed and group them. */
  function OnChange(typed: string): (r: string)
    ensures WellGrouped(r)
    ensures RemoveChar(r, '.') == DigitsOnly(typed)
  {
    Group(DigitsOnly(typed))
  }

  /**
   * `onBlur`: delete every `.` and store the rest as the form value; on a
   * shown value of digits and dots that leaves exactly its digits.
   */
  function OnBlur(shown: string): (r: string)
    ensures '.' !in r
    ensures DigitsAndDots(shown) ==> r == DigitsOnly(shown) && AllDigits(r)
  {
    if DigitsAndDots(shown) then DigitsOnlyIsRemoveDots(shown); RemoveChar(shown, '.')
    else RemoveChar(shown, '.')
  }

  /** On a string of digits and dots, keeping the digits is deleting the dots. */
  lemma {:induction false} DigitsOnlyIsRemoveDots(r: string)
    requires DigitsAndDots(r)
    ensures DigitsOnly(r) == RemoveChar(r, '.')
    decreases |r|
  {
    if |r| > 0 {
      DigitsOnlyIsRemoveDots(r[1..]);
    }
  }

  /** Blurring after typing stores exactly the digits that were typed, in order. */
  lemma BlurAfterChange(typed: string)
    ensures OnBlur(OnChange(typed)) == DigitsOnly(typed)
    ensures AllDigits(OnBlur(OnChange(typed)))
  {
  }

  /**
   * Reformatting a formatted value changes nothing, so every keystroke sees
   * the same grouping of the digits typed so far.
   */
  lemma ChangeIdempotent(typed: string)
    ensures OnChange(OnChange(typed)) == OnChange(typed)
  {
    DigitsOnlyIsRemoveDots(OnChange(typed));
  }

  /** The card's price line for an integer price. */
  function Display(price: nat): (r: string)
    ensures |r| > 3 && r[..3] == "Rp " && WellGrouped(r[3..])
  {
    var g := Group(NatToString(price));
    assert |g| > 0;
    assert ("Rp " + g)[3..] == g;
    "Rp " + g
  }

  /** Deleting the dots from the card's price line reads back the price. */
  lemma DisplayReadsBack(price: nat)
    ensures AllDigits(OnBlur(Display(price)[3..]))
    ensures DecimalValue(OnBlur(Display(price)[3..])) == price
  {
    var g := Group(NatToString(price));
    assert Display(price)[3..] == g;
    DecimalValueOfNatToString(price);
  }

  // ---------------------------------------------------------------------------
  // `parseFloat`
  // ---------------------------------------------------------------------------

  /** The result of `parseFloat`: `NaN`, or a sign with the digits before and after the point. */
  datatype Number = NaN | Num(negative: bool, whole: string, frac: string)

  function Pow10(k: nat): (r: nat)
    ensures r >= 1
  {
    if k == 0 then 1 else 10 * Pow10(k - 1)
  }

  /**
   * `parseFloat(s)`: skip leading white space, read an optional sign, then
   * the longest `digits[.digits]` prefix; `NaN` when that prefix has no digit,
   * that is, when after the sign there is neither a digit nor a `.` followed
   * by a digit. The whole part is the longest digit prefix after the sign;
   * the fraction, when there is one, is the longest digit run right after the
   * `.` that follows it.
   */
  function ParseFloat(s: string): (r: Number)
    ensures var u := Unsigned(TrimStart(s));
            r.NaN? <==> !(StartsWithDigit(u) || (|u| > 1 && u[0] == '.' && IsDigit(u[1])))
    ensures r.Num? ==> AllDigits(r.whole) && AllDigits(r.frac) && |r.whole| + |r.frac| > 0
    ensures r.Num? ==> |TrimStart(s)| > 0 && (r.negative <==> TrimStart(s)[0] == '-')
    ensures r.Num? ==> DigitRunAt(Unsigned(TrimStart(s)), 0, r.whole)
    ensures r.Num? && r.frac != "" ==>
              var u := Unsigned(TrimStart(s));
              |r.whole| < |u| && u[|r.whole|] == '.' && DigitRunAt(u, |r.whole| + 1, r.frac)
  {
    var t := TrimStart(s);
    ReadUnsigned(Unsigned(t), |t| > 0 && t[0] == '-')
  }

  /** What `parseFloat` reads from `u`, the text after the sign, given the sign. */
  function ReadUnsigned(u: string, negative: bool): (r: Number)
    ensures r.NaN? <==> !(StartsWithDigit(u) || (|u| > 1 && u[0] == '.' && IsDigit(u[1])))
    ensures r.Num? ==> |u| > 0 && r.negative == negative
    ensures r.Num? ==> AllDigits(r.whole) && AllDigits(r.frac) && |r.whole| + |r.frac| > 0
    ensures r.Num? ==> DigitRunAt(u, 0, r.whole)
    ensures r.Num? && r.frac != "" ==> |r.whole| < |u| && u[|r.whole|] == '.' && DigitRunAt(u, |r.whole| + 1, r.frac)
  {
    var whole := LeadingDigits(u);
    var frac := Fraction(u[|whole|..]);
    NumeralParts(u, whole, frac);
    if whole == "" && frac == "" then NaN else Num(negative, whole, frac)
  }

  /** The whole digits and the fraction digits read from `u` are its leading digit runs, and both are empty exactly when `u` starts a number nowhere. */
  lemma NumeralParts(u: string, whole: string, frac: string)
    requires whole == LeadingDigits(u) && frac == Fraction(u[|whole|..])
    ensures whole == "" && frac == "" <==> !(StartsWithDigit(u) || (|u| > 1 && u[0] == '.' && IsDigit(u[1])))
    ensures DigitRunAt(u, 0, whole) && AllDigits(frac)
    ensures frac != "" ==> |whole| < |u| && u[|whole|] == '.' && DigitRunAt(u, |whole| + 1, frac)
  {
    FractionAt(u, |whole|, frac);
    assert whole == u[0..|whole|];
    if whole == "" {
      FractionAt(u, 0, frac);
    }
  }

  /** The digits `parseFloat` reads after the whole part: the digit run right after a leading `.`. */
  function Fraction(rest: string): (f: string)
    ensures AllDigits(f)
    ensures f == "" <==> !(|rest| > 1 && rest[0] == '.' && IsDigit(rest[1]))
    ensures f != "" ==>
              && 1 + |f| <= |rest| && f == rest[1..1 + |f|]
              && (1 + |f| == |rest| || !IsDigit(rest[1 + |f|]))
  {
    if |rest| > 0 && rest[0] == '.' then LeadingDigits(rest[1..]) else ""
  }

  /** `f` is the whole run of digits of `u` that starts at `k`: it ends at the end of `u` or before a non-digit. */
  predicate DigitRunAt(u: string, k: nat, f: string) {
    && AllDigits(f)
    && k + |f| <= |u| && f == u[k..k + |f|]
    && (k + |f| == |u| || !IsDigit(u[k + |f|]))
  }

  /** The facts about `Fraction(u[k..])`, stated on `u` itself. */
  lemma FractionAt(u: string, k: nat, f: string)
    requires k <= |u| && f == Fraction(u[k..])
    ensures k == 0 ==> (f == "" <==> !(|u| > 1 && u[0] == '.' && IsDigit(u[1])))
    ensures f != "" ==> k < |u| && u[k] == '.' && DigitRunAt(u, k + 1, f)
  {
    var rest := u[k..];
    if k == 0 {
      assert rest == u;
    }
    if f != "" {
      assert rest[0] == u[k];
      assert rest[1..1 + |f|] == u[k + 1..k + 1 + |f|];
      if k + 1 + |f| < |u| {
        assert rest[1 + |f|] == u[k + 1 + |f|];
      }
    }
  }

  /** The value `parseFloat` denotes. */
  function Value(x: Number): real
    requires x.Num? && AllDigits(x.whole) && AllDigits(x.frac)
  {
    var magnitude := DecimalValue(x.whole) as real + DecimalValue(x.frac) as real / Pow10(|x.frac|) as real;
    if x.negative then -magnitude else magnitude
  }

  /** The form's price rule: `!isNaN(parseFloat(val)) && parseFloat(val) > 0`. */
  predicate PriceValid(s: string) {
    var x := ParseFloat(s);
    x.Num? && Value(x) > 0.0
  }

  /** Some digit of `s` is not `0`. */
  predicate HasNonzeroDigit(s: string) {
    exists i :: 0 <= i < |s| && s[i] != '0'
  }

  /** A digit string has a positive value iff one of its digits is not `0`. */
  lemma {:induction false} DecimalValuePositive(s: string)
    requires AllDigits(s)
    ensures DecimalValue(s) > 0 <==> HasNonzeroDigit(s)
    decreases |s|
  {
    if |s| > 0 {
      var init := s[..|s| - 1];
      DecimalValuePositive(init);
      if HasNonzeroDigit(init) {
        var i :| 0 <= i < |init| && init[i] != '0';
        assert s[i] != '0';
      }
      if HasNonzeroDigit(s) && !HasNonzeroDigit(init) {
        var i :| 0 <= i < |s| && s[i] != '0';
        assert i == |s| - 1;
      }
    }
  }

  /** A string of digits has no leading white space or sign, so it is read whole. */
  lemma ParseDigits(d: string)
    requires AllDigits(d) && |d| > 0
    ensures ParseFloat(d) == Num(false, d, "")
  {
    NoSpaceToTrim(d);
    assert d[..|d|] == d;
    LeadingDigitsUpTo(d, |d|);
    assert d[|d|..] == "";
  }

  /** A digit string is an acceptable price iff it is not empty and not all zeros. */
  lemma PriceValidDigits(d: string)
    requires AllDigits(d)
    ensures PriceValid(d) <==> HasNonzeroDigit(d)
  {
    DecimalValuePositive(d);
    if |d| > 0 {
      ParseDigits(d);
      WholeValue(d);
    } else {
      assert TrimStart(d) == "" && Unsigned("") == "";
    }
  }

  /** The value the form stores after blur is accepted iff some typed digit is not `0`. */
  lemma StoredPriceValid(typed: string)
    ensures PriceValid(OnBlur(OnChange(typed))) <==> HasNonzeroDigit(DigitsOnly(typed))
  {
    PriceValidDigits(DigitsOnly(typed));
  }

  /**
   * The price sent by create: `parseFloat(price)`. A digit string is read
   * whole; a grouped value with a dot is read as its first group with the
   * next three digits as a fraction.
   */
  function CreatePrice(s: string): (r: Number)
    ensures AllDigits(s) && s != "" ==> r == Num(false, s, "")
    ensures WellGrouped(s) && |s| > 3 ==> r == Num(false, s[..FirstDot(s)], s[FirstDot(s) + 1..FirstDot(s) + 4])
  {
    if AllDigits(s) && s != "" then ParseDigits(s); ParseFloat(s)
    else if WellGrouped(s) && |s| > 3 then ParseGrouped(s); ParseFloat(s)
    else ParseFloat(s)
  }

  /**
   * The price sent by update: `parseFloat(price.replace(/\./g, ''))`. It
   * never has a fraction, and when the value less its dots is a digit string
   * it is read whole.
   */
  function UpdatePrice(s: string): (r: Number)
    ensures r.Num? ==> r.frac == ""
    ensures AllDigits(RemoveChar(s, '.')) && RemoveChar(s, '.') != "" ==> r == Num(false, RemoveChar(s, '.'), "")
    ensures '.' !in s ==> r == CreatePrice(s)
  {
    var d := RemoveChar(s, '.');
    if AllDigits(d) && d != "" then ParseDigits(d); ParseFloat(d)
    else ParseFloat(d)
  }

  /** Without a `.` in the form value, create and update send the same price. */
  lemma CreateUpdateAgreeWithoutDot(s: string)
    requires '.' !in s
    ensures CreatePrice(s) == UpdatePrice(s)
  {
  }

  /** A digit string with a non-zero first digit is worth at least `10^(n-1)`. */
  lemma {:induction false} DecimalValueLowerBound(s: string)
    requires AllDigits(s) && |s| > 0 && s[0] != '0'
    ensures DecimalValue(s) >= Pow10(|s| - 1)
    decreases |s|
  {
    if |s| > 1 {
      var init := s[..|s| - 1];
      assert init[0] == s[0];
      DecimalValueLowerBound(init);
    }
  }

  /** A digit string of length `n` is worth less than `10^n`. */
  lemma {:induction false} DecimalValueUpperBound(s: string)
    requires AllDigits(s)
    ensures DecimalValue(s) < Pow10(|s|)
    decreases |s|
  {
    if |s| > 0 {
      DecimalValueUpperBound(s[..|s| - 1]);
    }
  }

  /** The digits before the first dot of a grouped string are its longest digit prefix. */
  lemma LeadingDigitsOfGrouped(g: string)
    requires WellGrouped(g) && |g| > 3
    ensures LeadingDigits(g) == g[..FirstDot(g)]
  {
    var j := FirstDot(g);
    assert AllDigits(g[..j]) by {
      forall k | 0 <= k < j
        ensures IsDigit(g[..j][k])
      {
        assert g[..j][k] == g[k];
      }
    }
    LeadingDigitsUpTo(g, j);
  }

  /** The longest digit prefix after the first dot of a grouped string is the three digits of the next group. */
  lemma FractionOfGrouped(g: string)
    requires WellGrouped(g) && |g| > 3
    ensures var j := FirstDot(g);
            j + 4 <= |g| && LeadingDigits(g[j + 1..]) == g[j + 1..j + 4]
  {
    var j := FirstDot(g);
    assert DotAt(g, j);
    assert FullGroupAfter(g, j);
    var after := g[j + 1..];
    assert after[..3] == [g[j + 1], g[j + 2], g[j + 3]];
    assert 3 == |after| || after[3] == '.';
    LeadingDigitsUpTo(after, 3);
    assert after[..3] == g[j + 1..j + 4];
  }

  /**
   * `parseFloat` of a grouped string with a dot reads the first group as the
   * whole part and the three digits after the first dot as the fraction.
   */
  lemma ParseGrouped(g: string)
    requires WellGrouped(g) && |g| > 3
    ensures var j := FirstDot(g);
            ParseFloat(g) == Num(false, g[..j], g[j + 1..j + 4])
  {
    var j := FirstDot(g);
    assert IsDigit(g[0]) by {
      assert g[..j][0] == g[0];
    }
    NoSpaceToTrim(g);
    LeadingDigitsOfGrouped(g);
    FractionOfGroupedRest(g);
    ReadsParts(g, g[..j], g[j + 1..j + 4]);
  }

  /** After the first group of a grouped string, `parseFloat` reads the next three digits as the fraction. */
  lemma FractionOfGroupedRest(g: string)
    requires WellGrouped(g) && |g| > 3
    ensures var j := FirstDot(g);
            Fraction(g[j..]) == g[j + 1..j + 4]
  {
    var j := FirstDot(g);
    FractionOfGrouped(g);
    var rest := g[j..];
    assert rest[0] == '.' && rest[1..] == g[j + 1..];
  }

  /** A string that starts with a digit is read as its digit prefix and the fraction after it. */
  lemma ReadsParts(s: string, whole: string, frac: string)
    requires StartsWithDigit(s) && TrimStart(s) == s
    requires LeadingDigits(s) == whole && Fraction(s[|whole|..]) == frac
    ensures ParseFloat(s) == Num(false, whole, frac)
  {
    assert Unsigned(s) == s;
  }

  /** `parseFloat` of a grouped string with a dot reads at most three whole digits and three fraction digits. */
  lemma ParseGroupedLengths(g: string)
    requires WellGrouped(g) && |g| > 3
    ensures ParseFloat(g).Num? && |ParseFloat(g).whole| <= 3 && |ParseFloat(g).frac| == 3
  {
    ParseGrouped(g);
    var j := FirstDot(g);
    assert |g[..j]| == j <= 3;
    assert |g[j + 1..j + 4]| == 3;
  }

  /** `parseFloat` of a grouped string with a dot stays below 1000. */
  lemma GroupedParsesBelowThousand(g: string)
    requires WellGrouped(g) && |g| > 3
    ensures ParseFloat(g).Num? && Value(ParseFloat(g)) < 1000.0
  {
    ParseGroupedLengths(g);
    var x := ParseFloat(g);
    ThreeDecimalsBelowThousand(x.whole, x.frac);
  }

  /** A whole part of at most three digits and a three-digit fraction are worth less than 1000. */
  lemma ThreeDecimalsBelowThousand(whole: string, frac: string)
    requires AllDigits(whole) && AllDigits(frac) && |whole| <= 3 && |frac| == 3
    ensures Value(Num(false, whole, frac)) < 1000.0
  {
    DecimalValueUpperBound(whole);
    DecimalValueUpperBound(frac);
    Pow10Mono(|whole|, 3);
    assert Pow10(3) == 1000;
    FractionBelowOne(DecimalValue(whole), DecimalValue(frac));
  }

  /**
   * On a grouped value of four or more digits with a non-zero first digit,
   * create and update disagree: create reads the first group as the whole
   * part and the second as a fraction, so it stays below 1000, while update
   * reads every digit.
   */
  lemma CreateUpdateDisagreeOnGrouped(d: string)
    requires AllDigits(d) && |d| > 3 && d[0] != '0'
    ensures CreatePrice(Group(d)).Num? && Value(CreatePrice(Group(d))) < 1000.0
    ensures UpdatePrice(Group(d)) == Num(false, d, "")
    ensures Value(UpdatePrice(Group(d))) == DecimalValue(d) as real >= 1000.0
  {
    CreateOfGroupedBelowThousand(d);
    UpdateOfGroupedReadsAll(d);
    FourDigitsAtLeastThousand(d);
  }

  /** Create reads a grouped value of four or more digits as less than 1000. */
  lemma CreateOfGroupedBelowThousand(d: string)
    requires AllDigits(d) && |d| > 3
    ensures CreatePrice(Group(d)).Num? && Value(CreatePrice(Group(d))) < 1000.0
  {
    var g := Group(d);
    assert |g| > 3;
    GroupedParsesBelowThousand(g);
  }

  /** Update reads every digit of a grouped value. */
  lemma UpdateOfGroupedReadsAll(d: string)
    requires AllDigits(d) && |d| > 0
    ensures UpdatePrice(Group(d)) == Num(false, d, "")
    ensures Value(UpdatePrice(Group(d))) == DecimalValue(d) as real
  {
    var g := Group(d);
    assert RemoveChar(g, '.') == d;
    ParseDigits(d);
    assert UpdatePrice(g) == Num(false, d, "");
    WholeValue(d);
  }

  /** A number with no fraction digits is worth its whole part. */
  lemma WholeValue(d: string)
    requires AllDigits(d)
    ensures Value(Num(false, d, "")) == DecimalValue(d) as real
  {
    assert DecimalValue("") == 0 && Pow10(0) == 1;
  }

  /** Four or more digits with a non-zero first digit are worth at least 1000. */
  lemma FourDigitsAtLeastThousand(d: string)
    requires AllDigits(d) && |d| > 3 && d[0] != '0'
    ensures DecimalValue(d) >= 1000
  {
    DecimalValueLowerBound(d);
    Pow10Mono(3, |d| - 1);
    assert Pow10(3) == 1000;
  }

  /** A whole part below 1000 and a three-digit fraction stay below 1000. */
  lemma FractionBelowOne(w: nat, f: nat)
    requires w < 1000 && f < 1000
    ensures w as real + f as real / 1000.0 < 1000.0
  {
    assert f as real / 1000.0 < 1.0;
  }

  /** The index of the first `.` in a grouped string with more than three characters. */
  function FirstDot(g: string): (j: nat)
    requires WellGrouped(g) && |g| > 3
    ensures 1 <= j <= 3 && j + 4 <= |g| && g[j] == '.' && '.' !in g[..j]
  {
    var j :| 1 <= j <= 3 && j < |g| && g[j] == '.' && '.' !in g[..j];
    assert DotAt(g, j) && FullGroupAfter(g, j);
    j
  }

  lemma {:induction false} Pow10Mono(a: nat, b: nat)
    requires a <= b
    ensures Pow10(a) <= Pow10(b)
    decreases b
  {
    if a < b {
      Pow10Mono(a, b - 1);
    }
  }
}
