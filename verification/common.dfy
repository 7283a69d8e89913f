/**
 * Shared vocabulary for the model: optional values, the string operations the
 * components use (`trim`, `toLowerCase`, `includes`, `toString` of an integer,
 * `replace(/\./g, '')`), and order-preserving filtering.
 */
module Common {

  /** JavaScript's `undefined`/`null` versus a present value. */
  datatype Option<+T> = None | Some(value: T)

  /** A `string | null` read from storage is truthy: present and not empty. */
  predicate Present(v: Option<string>) {
    v.Some? && v.value != ""
  }

  // ---------------------------------------------------------------------------
  // Characters and decimal digits
  // ---------------------------------------------------------------------------

  predicate IsDigit(c: char) {
    '0' <= c <= '9'
  }

  predicate AllDigits(s: string) {
    forall i :: 0 <= i < |s| ==> IsDigit(s[i])
  }

  function DigitChar(d: nat): (c: char)
    requires d < 10
    ensures IsDigit(c)
  {
    (('0' as int) + d) as char
  }

  function DigitValue(c: char): (d: nat)
    requires IsDigit(c)
    ensures d < 10 && DigitChar(d) == c
  {
    (c as int) - ('0' as int)
  }

  /** `n.toString()` for a non-negative integer: its shortest decimal spelling. */
  function NatToString(n: nat): (s: string)
    ensures |s| >= 1 && AllDigits(s)
    ensures |s| == 1 <==> n < 10
    ensures n >= 10 ==> s[0] != '0'
    decreases n
  {
    if n < 10 then [DigitChar(n)] else NatToString(n / 10) + [DigitChar(n % 10)]
  }

  /** The value of a string of decimal digits (leading zeros allowed). */
  function DecimalValue(s: string): (v: nat)
    requires AllDigits(s)
  {
    if |s| == 0 then 0 else 10 * DecimalValue(s[..|s| - 1]) + DigitValue(s[|s| - 1])
  }

  /** Reading back the decimal spelling of `n` gives `n`. */
  lemma {:induction false} DecimalValueOfNatToString(n: nat)
    ensures DecimalValue(NatToString(n)) == n
    decreases n
  {
    var s := NatToString(n);
    if n >= 10 {
      DecimalValueOfNatToString(n / 10);
      assert s[..|s| - 1] == NatToString(n / 10);
    }
  }

  /** Distinct numbers have distinct decimal spellings. */
  lemma NatToStringInjective(a: nat, b: nat)
    requires NatToString(a) == NatToString(b)
    ensures a == b
  {
    DecimalValueOfNatToString(a);
    DecimalValueOfNatToString(b);
  }

  /** Two concatenations that agree and start with parts of the same length agree part by part. */
  lemma SplitAtLength(a: string, b: string, c: string, d: string)
    requires a + b == c + d && |a| == |c|
    ensures a == c && b == d
  {
    assert a == (a + b)[..|a|] && c == (c + d)[..|c|];
    assert b == (a + b)[|a|..] && d == (c + d)[|c|..];
  }

  // ---------------------------------------------------------------------------
  // Case folding and substring search (`toLowerCase`, `includes`)
  // ---------------------------------------------------------------------------

  function LowerChar(c: char): char {
    if 'A' <= c <= 'Z' then ((c as int) + 32) as char else c
  }

  /** `toLowerCase` on ASCII: every capital becomes its small letter, nothing else changes. */
  function ToLower(s: string): (r: string)
    ensures |r| == |s|
    ensures forall i :: 0 <= i < |r| ==> !('A' <= r[i] <= 'Z')
    ensures forall i :: 0 <= i < |s| && !('A' <= s[i] <= 'Z') ==> r[i] == s[i]
    ensures forall i :: 0 <= i < |s| && 'A' <= s[i] <= 'Z' ==> r[i] as int == s[i] as int + 32
  {
    seq(|s|, i requires 0 <= i < |s| => LowerChar(s[i]))
  }

  /** `needle` occurs in `hay` starting at index `i`. */
  predicate OccursAt(hay: string, needle: string, i: nat) {
    i + |needle| <= |hay| && hay[i..i + |needle|] == needle
  }

  /** `hay.includes(needle)`. */
  function Includes(hay: string, needle: string): (b: bool)
    ensures b ==> |needle| <= |hay|
    ensures needle == hay ==> b
  {
    assert needle == hay ==> OccursAt(hay, needle, 0);
    exists i: nat :: i <= |hay| && OccursAt(hay, needle, i)
  }

  /** Lower-casing twice is lower-casing once: a folded search term is not changed by folding it again. */
  lemma ToLowerIdempotent(s: string)
    ensures ToLower(ToLower(s)) == ToLower(s)
  {
  }

  /** Every string includes the empty string. */
  lemma IncludesEmpty(hay: string)
    ensures Includes(hay, "")
  {
    assert OccursAt(hay, "", 0);
  }

  // ---------------------------------------------------------------------------
  // Whitespace and `String.prototype.trim`
  // ---------------------------------------------------------------------------

  /** ECMAScript WhiteSpace and LineTerminator code points. */
  predicate IsSpace(c: char) {
    || c == '\t' || c == '\n' || c == '\U{000B}' || c == '\U{000C}' || c == '\r'
    || c == ' ' || c == '\U{00A0}' || c == '\U{1680}'
    || ('\U{2000}' <= c <= '\U{200A}')
    || c == '\U{2028}' || c == '\U{2029}' || c == '\U{202F}' || c == '\U{205F}'
    || c == '\U{3000}' || c == '\U{FEFF}'
  }

  predicate IsBlank(s: string) {
    forall i :: 0 <= i < |s| ==> IsSpace(s[i])
  }

  function TrimStart(s: string): (r: string)
    ensures |r| <= |s| && r == s[|s| - |r|..]
    ensures IsBlank(s[..|s| - |r|])
    ensures |r| > 0 ==> !IsSpace(r[0])
  {
    if |s| > 0 && IsSpace(s[0]) then TrimStart(s[1..]) else s
  }

  function TrimEnd(s: string): (r: string)
    ensures |r| <= |s| && r == s[..|r|]
    ensures IsBlank(s[|r|..])
    ensures |r| > 0 ==> !IsSpace(r[|r| - 1])
  {
    if |s| > 0 && IsSpace(s[|s| - 1]) then TrimEnd(s[..|s| - 1]) else s
  }

  /** `r` is the slice of `s` from `i`, with only whitespace before and after it. */
  predicate TrimmedAt(s: string, r: string, i: int) {
    0 <= i <= |s| - |r| && r == s[i..i + |r|] && IsBlank(s[..i]) && IsBlank(s[i + |r|..])
  }

  /** `s.trim()`: `s` without its leading and trailing whitespace. */
  function Trim(s: string): (r: string)
    ensures |r| <= |s|
    ensures |r| > 0 ==> !IsSpace(r[0]) && !IsSpace(r[|r| - 1])
    ensures exists i :: TrimmedAt(s, r, i)
  {
    var t := TrimStart(s);
    var r := TrimEnd(t);
    TrimSlices(s, t, r);
    r
  }

  /** Cutting a blank prefix and then a blank suffix leaves a slice of `s` between blank ends. */
  lemma TrimSlices(s: string, t: string, r: string)
    requires |t| <= |s| && t == s[|s| - |t|..] && IsBlank(s[..|s| - |t|]) && (|t| > 0 ==> !IsSpace(t[0]))
    requires |r| <= |t| && r == t[..|r|] && IsBlank(t[|r|..]) && (|r| > 0 ==> !IsSpace(r[|r| - 1]))
    ensures |r| <= |s|
    ensures |r| > 0 ==> !IsSpace(r[0]) && !IsSpace(r[|r| - 1])
    ensures exists i :: TrimmedAt(s, r, i)
  {
    if |r| > 0 {
      assert r[0] == t[0];
    }
    var i := |s| - |t|;
    assert t[|r|..] == s[i + |r|..];
    assert r == s[i..i + |r|];
    assert TrimmedAt(s, r, i);
  }

  /** `!s.trim()` holds exactly for the strings made only of whitespace. */
  lemma TrimEmptyIffBlank(s: string)
    ensures Trim(s) == "" <==> IsBlank(s)
  {
    var t := TrimStart(s);
    var r := TrimEnd(t);
    if r == "" {
      assert t[|r|..] == t;
      assert s[..|s| - |t|] == s;
    } else {
      assert t[0] == r[0];
      assert s[|s| - |t|] == t[0];
    }
  }

  // ---------------------------------------------------------------------------
  // Reading numbers (`parseInt`)
  // ---------------------------------------------------------------------------

  /** `s` with one leading `-` or `+` removed. */
  function Unsigned(t: string): (u: string)
    ensures |t| > 0 && (t[0] == '-' || t[0] == '+') ==> u == t[1..]
    ensures |t| == 0 || (t[0] != '-' && t[0] != '+') ==> u == t
  {
    if |t| > 0 && (t[0] == '-' || t[0] == '+') then t[1..] else t
  }

  /** `s` starts with a decimal digit. */
  predicate StartsWithDigit(s: string) {
    |s| > 0 && IsDigit(s[0])
  }

  /** The longest prefix of `s` made of digits. */
  function LeadingDigits(s: string): (r: string)
    ensures AllDigits(r) && |r| <= |s| && r == s[..|r|]
    ensures |r| == |s| || !IsDigit(s[|r|])
    ensures r == "" <==> !StartsWithDigit(s)
  {
    if |s| > 0 && IsDigit(s[0]) then [s[0]] + LeadingDigits(s[1..]) else ""
  }

  /** A string that starts with a digit has no leading white space to skip. */
  lemma NoSpaceToTrim(s: string)
    requires |s| > 0 && IsDigit(s[0])
    ensures TrimStart(s) == s
  {
    assert !IsSpace(s[0]);
  }

  /** When `s[..n]` is all digits and `s[n]` (if any) is not, the longest digit prefix is `s[..n]`. */
  lemma {:induction false} LeadingDigitsUpTo(s: string, n: nat)
    requires n <= |s| && AllDigits(s[..n])
    requires n == |s| || !IsDigit(s[n])
    ensures LeadingDigits(s) == s[..n]
    decreases n
  {
    if n > 0 {
      assert IsDigit(s[..n][0]);
      assert s[1..][..n - 1] == s[..n][1..];
      LeadingDigitsUpTo(s[1..], n - 1);
      assert s[..n] == [s[0]] + s[1..n];
    }
  }

  /**
   * `parseInt(s)` in base 10: skip leading white space, read an optional
   * sign and the longest run of digits; `None` (NaN) when there is no digit.
   */
  function ParseInt(s: string): (r: Option<int>)
    ensures AllDigits(s) && |s| > 0 ==> r == Some(DecimalValue(s) as int)
    ensures r.None? <==> !StartsWithDigit(Unsigned(TrimStart(s)))
    ensures r.Some? && r.value < 0 ==> TrimStart(s)[0] == '-'
    ensures r.Some? ==> var t := TrimStart(s);
              var v := DecimalValue(LeadingDigits(Unsigned(t))) as int;
              r.value == if t[0] == '-' then -v else v
  {
    var t := TrimStart(s);
    assert AllDigits(s) && |s| > 0 ==> t == s && LeadingDigits(s) == s by {
      if AllDigits(s) && |s| > 0 {
        NoSpaceToTrim(s);
        assert s[..|s|] == s;
        LeadingDigitsUpTo(s, |s|);
      }
    }
    ReadSigned(t)
  }

  /** The number `parseInt` reads from already trimmed text: an optional sign, then the longest digit run. */
  function ReadSigned(t: string): (r: Option<int>)
    ensures r.None? <==> !StartsWithDigit(Unsigned(t))
    ensures r.Some? ==> |t| > 0 && var v := DecimalValue(LeadingDigits(Unsigned(t))) as int;
              r.value == if t[0] == '-' then -v else v
  {
    var w := LeadingDigits(Unsigned(t));
    if w == "" then None
    else if t[0] == '-' then Some(-(DecimalValue(w) as int))
    else Some(DecimalValue(w) as int)
  }

  /**
   * `parseInt` of leading white space, an optional sign, a run of digits and
   * then anything that does not start with a digit: the digits' value, negated
   * after a `-` (so `parseInt("-5")` is -5 and `parseInt(" 7x")` is 7).
   */
  lemma ParseIntSignedPrefix(s: string, ws: string, sign: string, d: string, rest: string)
    requires s == ws + sign + d + rest
    requires IsBlank(ws) && (sign == "" || sign == "-" || sign == "+")
    requires AllDigits(d) && |d| > 0 && !StartsWithDigit(rest)
    ensures ParseInt(s) == Some(if sign == "-" then -(DecimalValue(d) as int) else DecimalValue(d) as int)
  {
    var t := sign + (d + rest);
    TrimSignedDigits(ws, sign, d, rest);
    DigitsAfterSign(sign, d, rest);
    ReadSignedOfParts(t, d, sign == "-");
  }

  /** Trimming the white space in front of a signed digit run leaves the sign and what follows. */
  lemma TrimSignedDigits(ws: string, sign: string, d: string, rest: string)
    requires IsBlank(ws) && (sign == "" || sign == "-" || sign == "+") && AllDigits(d) && |d| > 0
    ensures TrimStart(ws + sign + d + rest) == sign + (d + rest)
  {
    var t := sign + (d + rest);
    AppendFour(ws, sign, d, rest);
    assert t[0] == if sign == "" then d[0] else sign[0];
    TrimStartBlankPrefix(ws, t);
  }

  /** After an optional sign, the digit run `d` is what `parseInt` reads, and the text starts with `-` iff the sign is `-`. */
  lemma DigitsAfterSign(sign: string, d: string, rest: string)
    requires (sign == "" || sign == "-" || sign == "+") && AllDigits(d) && |d| > 0 && !StartsWithDigit(rest)
    ensures var t := sign + (d + rest);
            LeadingDigits(Unsigned(t)) == d && (sign == "-" <==> t[0] == '-')
  {
    var u := d + rest;
    var t := sign + u;
    assert t[0] == if sign == "" then d[0] else sign[0];
    assert Unsigned(t) == u;
    assert u[..|d|] == d;
    assert |d| < |u| ==> u[|d|] == rest[0];
    LeadingDigitsUpTo(u, |d|);
  }

  /** What `ReadSigned` gives once its digit run and sign are known. */
  lemma ReadSignedOfParts(t: string, d: string, negative: bool)
    requires |d| > 0 && LeadingDigits(Unsigned(t)) == d
    requires |t| > 0 && (negative <==> t[0] == '-')
    ensures ReadSigned(t) == Some(if negative then -(DecimalValue(d) as int) else DecimalValue(d) as int)
  {
  }

  /** Concatenation regrouped to the right. */
  lemma AppendFour(a: string, b: string, c: string, d: string)
    ensures a + b + c + d == a + (b + (c + d))
  {
    assert a + b + c == a + (b + c);
    assert (a + (b + c)) + d == a + ((b + c) + d);
    assert (b + c) + d == b + (c + d);
  }

  /** White space in front of a string that does not start with white space is all `trimStart` removes. */
  lemma {:induction false} TrimStartBlankPrefix(ws: string, t: string)
    requires IsBlank(ws) && (|t| > 0 ==> !IsSpace(t[0]))
    ensures TrimStart(ws + t) == t
    decreases |ws|
  {
    if |ws| == 0 {
      assert ws + t == t;
    } else {
      assert (ws + t)[0] == ws[0];
      assert (ws + t)[1..] == ws[1..] + t;
      TrimStartBlankPrefix(ws[1..], t);
    }
  }

  /** `parseInt` reads a run of digits and ignores what follows it. */
  lemma ParseIntReadsPrefix(d: string, rest: string)
    requires AllDigits(d) && |d| > 0 && !StartsWithDigit(rest)
    ensures ParseInt(d + rest) == Some(DecimalValue(d) as int)
  {
    var s := d + rest;
    assert s[0] == d[0] && s[..|d|] == d;
    NoSpaceToTrim(s);
    assert Unsigned(s) == s;
    assert |d| < |s| ==> s[|d|] == rest[0];
    LeadingDigitsUpTo(s, |d|);
    assert LeadingDigits(s) == d;
  }

  /** `parseInt(n.toString())` gives `n` back. */
  lemma ParseIntOfNatToString(n: nat)
    ensures ParseInt(NatToString(n)) == Some(n)
  {
    DecimalValueOfNatToString(n);
  }

  /** A minus sign and then digits read as the digits' value negated. */
  lemma ParseIntOfNegatedDigits(d: string)
    requires AllDigits(d) && |d| > 0
    ensures ParseInt("-" + d) == Some(-(DecimalValue(d) as int))
  {
    var s := "-" + d;
    assert TrimStart(s) == s by { assert !IsSpace(s[0]); }
    assert Unsigned(s) == d;
    AllDigitsLeading(d);
    ReadSignedOfParts(s, d, true);
    assert ParseInt(s) == ReadSigned(s);
  }

  /** White space and then digits read as the digits' value. */
  lemma ParseIntOfSpacedDigits(ws: string, d: string)
    requires IsBlank(ws) && AllDigits(d) && |d| > 0
    ensures ParseInt(ws + d) == Some(DecimalValue(d) as int)
  {
    var s := ws + d;
    assert !IsSpace(d[0]);
    TrimStartBlankPrefix(ws, d);
    assert Unsigned(d) == d;
    AllDigitsLeading(d);
    ReadSignedOfParts(d, d, false);
    assert ParseInt(s) == ReadSigned(d);
  }

  /** A string of digits is its own leading digit run. */
  lemma AllDigitsLeading(d: string)
    requires AllDigits(d)
    ensures LeadingDigits(d) == d
  {
  }

  // ---------------------------------------------------------------------------
  // Removing characters (`replace(/[^\d]/g, '')`, `replace(/\./g, '')`)
  // ---------------------------------------------------------------------------

  /** Keeps only the decimal digits of `s`, in order. */
  function DigitsOnly(s: string): (r: string)
    ensures AllDigits(r)
    ensures |r| <= |s|
    ensures AllDigits(s) ==> r == s
  {
    if |s| == 0 then ""
    else (if IsDigit(s[0]) then [s[0]] else "") + DigitsOnly(s[1..])
  }

  /** Deletes every `c` from `s`, keeping the other characters in order. */
  function RemoveChar(s: string, c: char): (r: string)
    ensures c !in r
    ensures |r| <= |s|
    ensures c !in s ==> r == s
  {
    if |s| == 0 then ""
    else (if s[0] == c then "" else [s[0]]) + RemoveChar(s[1..], c)
  }

  /** A leading removed character contributes nothing. */
  lemma RemoveCharSkipsHead(c: char, t: string)
    ensures RemoveChar([c] + t, c) == RemoveChar(t, c)
  {
    assert ([c] + t)[1..] == t;
  }

  lemma {:induction false} RemoveCharAppend(a: string, b: string, c: char)
    ensures RemoveChar(a + b, c) == RemoveChar(a, c) + RemoveChar(b, c)
    decreases |a|
  {
    if |a| > 0 {
      assert (a + b)[1..] == a[1..] + b;
      RemoveCharAppend(a[1..], b, c);
    } else {
      assert a + b == b;
    }
  }

  lemma {:induction false} DigitsOnlyAppend(a: string, b: string)
    ensures DigitsOnly(a + b) == DigitsOnly(a) + DigitsOnly(b)
    decreases |a|
  {
    if |a| > 0 {
      assert (a + b)[1..] == a[1..] + b;
      DigitsOnlyAppend(a[1..], b);
    } else {
      assert a + b == b;
    }
  }

  // ---------------------------------------------------------------------------
  // Order-preserving selection (`Array.prototype.filter`)
  // ---------------------------------------------------------------------------

  /** `r` can be obtained from `s` by deleting elements, keeping the rest in order. */
  predicate IsSubsequence<T(==)>(r: seq<T>, s: seq<T>)
    decreases |s|
  {
    if |r| == 0 then true
    else if |s| == 0 then false
    else (r[0] == s[0] && IsSubsequence(r[1..], s[1..])) || IsSubsequence(r, s[1..])
  }

  lemma {:induction false} SubsequenceOfSelf<T>(s: seq<T>)
    ensures IsSubsequence(s, s)
    decreases |s|
  {
    if |s| > 0 {
      SubsequenceOfSelf(s[1..]);
    }
  }

  /**
   * `r` is what `s.filter(p)` returns: the elements satisfying `p`, each as
   * often as in `s`, in their order in `s`.
   */
  ghost predicate FilterOf<T>(r: seq<T>, s: seq<T>, p: T -> bool) {
    && |r| <= |s|
    && (forall i :: 0 <= i < |r| ==> r[i] in s && p(r[i]))
    && (forall i :: 0 <= i < |s| && p(s[i]) ==> s[i] in r)
    && (forall i :: 0 <= i < |s| ==> multiset(r)[s[i]] == if p(s[i]) then multiset(s)[s[i]] else 0)
    && IsSubsequence(r, s)
    && ((forall i :: 0 <= i < |s| ==> p(s[i])) ==> r == s)
  }

  /** The elements of `s` satisfying `p`, in their original order, each as often as in `s`. */
  function Filter<T>(s: seq<T>, p: T -> bool): (r: seq<T>)
    ensures |r| <= |s|
    ensures forall i :: 0 <= i < |r| ==> r[i] in s && p(r[i])
    ensures forall i :: 0 <= i < |s| && p(s[i]) ==> s[i] in r
    ensures forall i :: 0 <= i < |s| ==> multiset(r)[s[i]] == if p(s[i]) then multiset(s)[s[i]] else 0
    ensures IsSubsequence(r, s)
    ensures (forall i :: 0 <= i < |s| ==> p(s[i])) ==> r == s
    decreases |s|
  {
    if |s| == 0 then []
    else
      var rest := Filter(s[1..], p);
      if p(s[0]) then
        FilterKeepsHead(s, p, rest);
        [s[0]] + rest
      else
        FilterDropsHead(s, p, rest);
        rest
  }

  /** The step of `Filter` that keeps a head satisfying `p`. */
  lemma FilterKeepsHead<T>(s: seq<T>, p: T -> bool, rest: seq<T>)
    requires |s| > 0 && p(s[0]) && FilterOf(rest, s[1..], p)
    ensures FilterOf([s[0]] + rest, s, p)
  {
    assert s == [s[0]] + s[1..];
    KeptHeadCounts(s, p, rest);
  }

  /** Counting after keeping the head: each element of `s` as often as before when it passes `p`. */
  lemma KeptHeadCounts<T>(s: seq<T>, p: T -> bool, rest: seq<T>)
    requires |s| > 0 && p(s[0]) && FilterOf(rest, s[1..], p)
    ensures forall i :: 0 <= i < |s| ==> multiset([s[0]] + rest)[s[i]] == if p(s[i]) then multiset(s)[s[i]] else 0
  {
    assert s == [s[0]] + s[1..];
    forall i | 0 <= i < |s|
      ensures multiset([s[0]] + rest)[s[i]] == if p(s[i]) then multiset(s)[s[i]] else 0
    {
      var x := s[i];
      CountCons(s[0], rest, x);
      CountCons(s[0], s[1..], x);
      RestCount(rest, s[1..], p, x);
    }
  }

  /** How often a filtered tail holds `x`, including an `x` its source lacks. */
  lemma RestCount<T>(rest: seq<T>, t: seq<T>, p: T -> bool, x: T)
    requires FilterOf(rest, t, p)
    ensures multiset(rest)[x] == if p(x) then multiset(t)[x] else 0
  {
    if x !in t {
      assert x !in rest;
    } else {
      var j :| 0 <= j < |t| && t[j] == x;
    }
  }

  /** The step of `Filter` that drops a head failing `p`. */
  lemma FilterDropsHead<T>(s: seq<T>, p: T -> bool, rest: seq<T>)
    requires |s| > 0 && !p(s[0]) && FilterOf(rest, s[1..], p)
    ensures FilterOf(rest, s, p)
  {
    assert s == [s[0]] + s[1..];
    DroppedHeadCounts(s, p, rest);
  }

  /** Counting after dropping the head: each element of `s` as often as before when it passes `p`. */
  lemma DroppedHeadCounts<T>(s: seq<T>, p: T -> bool, rest: seq<T>)
    requires |s| > 0 && !p(s[0]) && FilterOf(rest, s[1..], p)
    ensures forall i :: 0 <= i < |s| ==> multiset(rest)[s[i]] == if p(s[i]) then multiset(s)[s[i]] else 0
  {
    assert s == [s[0]] + s[1..];
    forall i | 0 <= i < |s|
      ensures multiset(rest)[s[i]] == if p(s[i]) then multiset(s)[s[i]] else 0
    {
      CountCons(s[0], s[1..], s[i]);
      RestCount(rest, s[1..], p, s[i]);
    }
  }

  /** How often `x` occurs in `[h] + t`. */
  lemma CountCons<T>(h: T, t: seq<T>, x: T)
    ensures multiset([h] + t)[x] == (if x == h then 1 else 0) + multiset(t)[x]
  {
    assert multiset([h] + t) == multiset{h} + multiset(t);
  }

  /** Filtering a concatenation filters each part. */
  lemma {:induction false} FilterAppend<T>(a: seq<T>, b: seq<T>, p: T -> bool)
    ensures Filter(a + b, p) == Filter(a, p) + Filter(b, p)
    decreases |a|
  {
    if |a| == 0 {
      assert a + b == b;
    } else {
      assert (a + b)[1..] == a[1..] + b;
      FilterAppend(a[1..], b, p);
    }
  }

  /** Filtering a sequence with head `x` tests `x`, then filters the rest. */
  lemma FilterCons<T>(x: T, t: seq<T>, p: T -> bool)
    ensures Filter([x] + t, p) == if p(x) then [x] + Filter(t, p) else Filter(t, p)
  {
    assert ([x] + t)[1..] == t;
  }

  /** Filtering `s + [x]` where `x` fails the test is filtering `s`. */
  lemma {:induction false} FilterDropsLast<T>(s: seq<T>, x: T, p: T -> bool)
    requires !p(x)
    ensures Filter(s + [x], p) == Filter(s, p)
    decreases |s|
  {
    if |s| == 0 {
      assert Filter([x], p) == Filter([x][1..], p);
    } else {
      assert (s + [x])[1..] == s[1..] + [x];
      FilterDropsLast(s[1..], x, p);
    }
  }

  /** `s[i]` is the first element of `s` satisfying `p`. */
  predicate FirstMatchAt<T>(s: seq<T>, p: T -> bool, i: int) {
    0 <= i < |s| && p(s[i]) && forall j :: 0 <= j < i ==> !p(s[j])
  }

  /** `Array.prototype.find`: the first element satisfying `p`, if any. */
  function FindFirst<T>(s: seq<T>, p: T -> bool): (r: Option<T>)
    ensures r.None? <==> forall i :: 0 <= i < |s| ==> !p(s[i])
    ensures r.Some? ==> p(r.value) && r.value in s
    ensures r.Some? ==> exists i :: FirstMatchAt(s, p, i) && s[i] == r.value
  {
    if |s| == 0 then None
    else if p(s[0]) then
      assert FirstMatchAt(s, p, 0);
      Some(s[0])
    else
      assert forall i :: 1 <= i < |s| ==> s[i] == s[1..][i - 1];
      var r := FindFirst(s[1..], p);
      assert r.Some? ==> exists i :: FirstMatchAt(s, p, i) && s[i] == r.value by {
        if r.Some? {
          var k :| FirstMatchAt(s[1..], p, k) && s[1..][k] == r.value;
          assert FirstMatchAt(s, p, k + 1);
        }
      }
      r
  }

  /** `find` returns the element at the first index where `p` holds. */
  lemma {:induction false} FindFirstAt<T>(s: seq<T>, p: T -> bool, i: nat)
    requires i < |s| && p(s[i]) && forall j :: 0 <= j < i ==> !p(s[j])
    ensures FindFirst(s, p) == Some(s[i])
    decreases i
  {
    if i > 0 {
      assert !p(s[0]);
      assert s[1..][i - 1] == s[i];
      FindFirstAt(s[1..], p, i - 1);
    }
  }

  /**
   * The length JavaScript reports for a string: UTF-16 code units, so a code
   * point above U+FFFF (an emoji, say) counts twice.
   */
  function Utf16Length(s: string): (n: nat)
    ensures |s| <= n <= 2 * |s|
    ensures (forall i :: 0 <= i < |s| ==> s[i] as int <= 0xFFFF) ==> n == |s|
  {
    if |s| == 0 then 0
    else (if s[0] as int > 0xFFFF then 2 else 1) + Utf16Length(s[1..])
  }

  /** Summation of an integer sequence (`reduce((a, b) => a + b, 0)`). */
  function Sum(s: seq<int>): int {
    if |s| == 0 then 0 else s[0] + Sum(s[1..])
  }
}
