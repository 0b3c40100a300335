/** How the signed contract shows values: the frozen text that replaces
    each input, and the signing date written as "3rd June 2024". */
module Display {
  import opened Text

  // ---------------------------------------------------------------------
  // Frozen values
  // ---------------------------------------------------------------------

  /** The text shown in place of an input left empty. */
  const NotProvided: string := "[Not provided]"

  /** The static text that replaces an input once the contract is signed:
      the input's trimmed value, or the placeholder when that is empty. */
  function FrozenText(value: string): (r: string)
    ensures r != []
    ensures Trimmed(r)
    ensures !AllWhitespace(value) ==> r == Trim(value)
    ensures AllWhitespace(value) ==> r == NotProvided
  {
    var t := Trim(value);
    if t != [] then t else NotProvided
  }

  /** The placeholder is shown exactly for a blank input, or for one whose
      trimmed value happens to be the placeholder text itself. */
  lemma FrozenPlaceholderIff(value: string)
    ensures FrozenText(value) == NotProvided <==> AllWhitespace(value) || Trim(value) == NotProvided
  {
  }

  /** A value with content is shown as its own characters with only the
      surrounding white space dropped. */
  lemma FrozenKeepsContent(value: string)
    requires !AllWhitespace(value)
    ensures FrozenText(value) == value[LeadingSpace(value)..LeadingSpace(value) + |FrozenText(value)|]
    ensures forall i :: 0 <= i < LeadingSpace(value) ==> IsWhitespace(value[i])
    ensures forall i :: LeadingSpace(value) + |FrozenText(value)| <= i < |value| ==> IsWhitespace(value[i])
  {
    TrimIsInfix(value);
  }

  /** Freezing an already frozen text changes nothing. */
  lemma FrozenIdempotent(value: string)
    ensures FrozenText(FrozenText(value)) == FrozenText(value)
  {
    TrimOfTrimmed(FrozenText(value));
  }

  // ---------------------------------------------------------------------
  // The ordinal suffix
  // ---------------------------------------------------------------------

  /** Integer division as JavaScript's `Math.trunc(a / b)` computes it:
      the quotient rounded toward zero. */
  function TruncDiv(a: int, b: int): int
    requires b > 0
  {
    if a >= 0 then a / b else -((-a) / b)
  }

  /** JavaScript's `%` on integers: the remainder of the division that
      truncates toward zero, so it takes the sign of the dividend. */
  function JsRem(a: int, b: int): (r: int)
    requires b > 0
    ensures a == b * TruncDiv(a, b) + r
    ensures a >= 0 ==> 0 <= r < b
    ensures a < 0 ==> -b < r <= 0
  {
    if a >= 0 then a % b
    else
      var m := -a;
      assert m == b * (m / b) + m % b;
      -(m % b)
  }

  /** The value `getDate()` yields: a day number, or NaN when the date
      string did not parse. */
  datatype DayNumber = NaN | Day(n: int)

  /** The `suffix` closure of `formatDate`. Days 4 to 20 take "th";
      otherwise the remainder by ten decides. NaN fails the range test and
      matches no case, so it takes "th". */
  function OrdinalSuffix(d: DayNumber): (s: string)
    ensures s == "st" || s == "nd" || s == "rd" || s == "th"
  {
    match d
    case NaN => "th"
    case Day(n) =>
      if n > 3 && n < 21 then "th"
      else
        var digit := JsRem(n, 10);
        if digit == 1 then "st"
        else if digit == 2 then "nd"
        else if digit == 3 then "rd"
        else "th"
  }

  /** Every day from the 4th to the 20th, the 11th, 12th and 13th among
      them, takes "th". */
  lemma TeensTakeTh(n: int)
    requires 4 <= n <= 20
    ensures OrdinalSuffix(Day(n)) == "th"
  {
  }

  /** The suffix a last digit calls for. */
  function DigitSuffix(digit: nat): string
    requires digit < 10
  {
    if digit == 1 then "st"
    else if digit == 2 then "nd"
    else if digit == 3 then "rd"
    else "th"
  }

  /** Outside 4 to 20, a non-negative day's suffix is the one its last
      digit calls for. */
  lemma SuffixFollowsLastDigit(n: nat)
    requires n < 4 || n > 20
    ensures OrdinalSuffix(Day(n)) == DigitSuffix(n % 10)
  {
  }

  /** A negative day number (never produced by `getDate()`) leaves a
      non-positive remainder, which matches no case: "th". */
  lemma NegativeDayTakesTh(n: int)
    requires n < 0
    ensures OrdinalSuffix(Day(n)) == "th"
  {
  }

  /** English ordinals by the usual rule: numbers ending in 11, 12 or 13
      take "th"; the others follow their last digit. */
  function EnglishSuffix(n: nat): (s: string)
  {
    if 11 <= n % 100 <= 13 then "th" else DigitSuffix(n % 10)
  }

  /** For every day a month can have, the page's range test gives the
      English ordinal. */
  lemma SuffixIsEnglishForDaysOfMonth(n: nat)
    requires 1 <= n <= 31
    ensures OrdinalSuffix(Day(n)) == EnglishSuffix(n)
  {
    if n > 20 || n < 4 {
      SuffixFollowsLastDigit(n);
    }
  }

  // ---------------------------------------------------------------------
  // Decimal numbers, as template strings print them
  // ---------------------------------------------------------------------

  predicate IsDigit(c: char) {
    '0' <= c <= '9'
  }

  /** Every character of `s` is a decimal digit. */
  predicate AllDigits(s: string) {
    forall i :: 0 <= i < |s| ==> IsDigit(s[i])
  }

  function DigitChar(d: nat): (c: char)
    requires d < 10
    ensures IsDigit(c)
  {
    "0123456789"[d]
  }

  function DigitValue(c: char): (d: nat)
    requires IsDigit(c)
    ensures d < 10
  {
    (c as int - '0' as int) as nat
  }

  /** The decimal digits of `n`, without leading zeros. */
  function ShowNat(n: nat): (s: string)
    ensures |s| >= 1
    ensures AllDigits(s)
    ensures |s| > 1 ==> s[0] != '0'
  {
    if n < 10 then [DigitChar(n)] else ShowNat(n / 10) + [DigitChar(n % 10)]
  }

  /** The number a string of decimal digits denotes. */
  function ReadDigits(s: string): nat
    requires AllDigits(s)
  {
    if s == [] then 0 else 10 * ReadDigits(s[..|s| - 1]) + DigitValue(s[|s| - 1])
  }

  /** Reading the digits back gives the number shown. */
  lemma {:induction false} ReadShowNat(n: nat)
    ensures ReadDigits(ShowNat(n)) == n
  {
    if n >= 10 {
      var s := ShowNat(n);
      assert s[..|s| - 1] == ShowNat(n / 10);
      ReadShowNat(n / 10);
    }
  }

  /** A signed integer as `${n}` prints it: a minus sign for a negative
      number, then its decimal digits, which read back as its magnitude. */
  function ShowInt(n: int): (s: string)
    ensures |s| >= 1
    ensures s[0] == '-' <==> n < 0
    ensures n >= 0 ==> AllDigits(s) && ReadDigits(s) == n
    ensures n < 0 ==> AllDigits(s[1..]) && ReadDigits(s[1..]) == -n
  {
    if n < 0 then
      ReadShowNat(-n);
      assert ("-" + ShowNat(-n))[1..] == ShowNat(-n);
      "-" + ShowNat(-n)
    else
      ReadShowNat(n);
      ShowNat(n)
  }

  /** The digits at the head of a string. */
  function LeadingDigits(s: string): (r: string)
    ensures |r| <= |s| && r == s[..|r|]
    ensures AllDigits(r)
    ensures |r| < |s| ==> !IsDigit(s[|r|])
  {
    if s != [] && IsDigit(s[0]) then [s[0]] + LeadingDigits(s[1..]) else []
  }

  /** The leading digits of digits followed by a non-digit are those digits. */
  lemma {:induction false} LeadingDigitsOfAppend(digits: string, rest: string)
    requires AllDigits(digits)
    requires rest != [] && !IsDigit(rest[0])
    ensures LeadingDigits(digits + rest) == digits
    decreases |digits|
  {
    if digits == [] {
      assert digits + rest == rest;
    } else {
      assert (digits + rest)[1..] == digits[1..] + rest;
      LeadingDigitsOfAppend(digits[1..], rest);
    }
  }

  // ---------------------------------------------------------------------
  // The signing date
  // ---------------------------------------------------------------------

  /** What `formatDate` reads from the parsed date: either the parse failed
      (every part is NaN, the month name is "Invalid Date"), or a day of
      the month, the month's full name and the year. Parsing the date
      string and naming the month are not modelled: they are inputs. */
  datatype SigningDate = InvalidDate | Date(day: int, monthName: string, year: int)

  /** The signing date as the signature block shows it:
      "{day}{suffix} {month} {year}". A date that did not parse shows NaN
      parts. */
  function FormatDate(d: SigningDate): (r: string)
    ensures d.InvalidDate? ==> r == "NaNth Invalid Date NaN"
  {
    match d
    case InvalidDate => "NaN" + OrdinalSuffix(NaN) + " Invalid Date NaN"
    case Date(day, month, year) =>
      ShowInt(day) + OrdinalSuffix(Day(day)) + " " + month + " " + ShowInt(year)
  }

  /** The day can be read back from the leading digits of the formatted
      date: the digits run up to the suffix, which starts with a letter. */
  lemma FormatDateShowsDay(day: nat, month: string, year: int)
    ensures ReadDigits(LeadingDigits(FormatDate(Date(day, month, year)))) == day
  {
    var suffix := OrdinalSuffix(Day(day));
    var rest := suffix + " " + month + " " + ShowInt(year);
    assert FormatDate(Date(day, month, year)) == ShowInt(day) + rest;
    assert rest[0] == suffix[0] && !IsDigit(suffix[0]);
    LeadingDigitsOfAppend(ShowInt(day), rest);
  }

  /** The formatted date from the printed parts. */
  lemma FormatDateParts(day: int, month: string, year: int, dayText: string, yearText: string)
    requires ShowInt(day) == dayText && ShowInt(year) == yearText
    ensures FormatDate(Date(day, month, year)) == dayText + OrdinalSuffix(Day(day)) + " " + month + " " + yearText
  {
  }

  lemma ShowYear2024()
    ensures ShowInt(2024) == "2024"
  {
    assert ShowNat(2) == "2";
    assert ShowNat(20) == "20";
    assert ShowNat(202) == "202";
  }

  /** The first of June 2024 takes "st". */
  lemma FormatDateFirst()
    ensures FormatDate(Date(1, "June", 2024)) == "1st June 2024"
  {
    ShowYear2024();
    FormatDateParts(1, "June", 2024, "1", "2024");
  }

  /** The second of June 2024 takes "nd". */
  lemma FormatDateSecond()
    ensures FormatDate(Date(2, "June", 2024)) == "2nd June 2024"
  {
    ShowYear2024();
    FormatDateParts(2, "June", 2024, "2", "2024");
  }

  /** The third of June 2024 takes "rd". */
  lemma FormatDateThird()
    ensures FormatDate(Date(3, "June", 2024)) == "3rd June 2024"
  {
    ShowYear2024();
    FormatDateParts(3, "June", 2024, "3", "2024");
  }

  /** The eleventh of June 2024 ends in 1 but takes "th". */
  lemma FormatDateEleventh()
    ensures FormatDate(Date(11, "June", 2024)) == "11th June 2024"
  {
    ShowYear2024();
    assert ShowInt(11) == "11" by { assert ShowNat(1) == "1"; }
    TeensTakeTh(11);
    FormatDateParts(11, "June", 2024, "11", "2024");
  }

  /** The twenty-first of June 2024 takes "st". */
  lemma FormatDateTwentyFirst()
    ensures FormatDate(Date(21, "June", 2024)) == "21st June 2024"
  {
    ShowYear2024();
    assert ShowInt(21) == "21" by { assert ShowNat(2) == "2"; }
    assert OrdinalSuffix(Day(21)) == "st";
    FormatDateParts(21, "June", 2024, "21", "2024");
  }
}
