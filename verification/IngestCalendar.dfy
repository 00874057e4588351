/** The calendar behind the ingest date, checked against the ordinal of a date, and the hash it starts from. */
module IngestCalendar {
  import opened Text
  import opened IngestDate

  // ---------------------------------------------------------------------------------------------
  // Ordinals
  // ---------------------------------------------------------------------------------------------

  /** `date.toordinal` up to New Year's Day: leap years by fours, not by hundreds, by four hundreds. */
  function DaysBeforeYear(y: nat): int {
    365 * (y - 1) + (y - 1) / 4 - (y - 1) / 100 + (y - 1) / 400
  }

  const BEFORE_MONTH: seq<nat> := [0, 31, 59, 90, 120, 151, 181, 212, 243, 273, 304, 334, 365]

  /** Days from New Year's Day to the first of month `m`; month 13 is the next year's first. */
  function DaysBeforeMonth(y: nat, m: nat): int
    requires 1 <= m <= 13
  {
    BEFORE_MONTH[m - 1] + if m > 2 then DaysBeforeYear(y + 1) - DaysBeforeYear(y) - 365 else 0
  }

  /** A date of the Gregorian calendar. */
  predicate IsDate(d: Date) {
    1 <= d.month <= 12 && 1 <= d.day <= DaysBeforeMonth(d.year, d.month + 1) - DaysBeforeMonth(d.year, d.month)
  }

  function Ordinal(d: Date): int
    requires 1 <= d.month <= 12
  {
    DaysBeforeYear(d.year) + DaysBeforeMonth(d.year, d.month) + d.day
  }

  lemma NextYear(y: nat)
    requires y >= 1
    ensures DaysBeforeYear(y + 1) == DaysBeforeYear(y) + YearLength(y)
  {
    Quotient(y, 4);
    Quotient(y, 100);
    Quotient(y, 400);
    Multiples(y);
  }

  lemma Quotient(y: nat, k: nat)
    requires y >= 1 && (k == 4 || k == 100 || k == 400)
    ensures y / k == (y - 1) / k + if y % k == 0 then 1 else 0
  {
  }

  lemma Multiples(y: nat)
    ensures y % 400 == 0 ==> y % 100 == 0
    ensures y % 100 == 0 ==> y % 4 == 0
  {
    if y % 400 == 0 { Hundreds(y, 4 * (y / 400)); }
    if y % 100 == 0 { Fours(y, 25 * (y / 100)); }
  }

  lemma Hundreds(y: nat, q: nat)
    requires y == 100 * q
    ensures y % 100 == 0
  {
  }

  lemma Fours(y: nat, q: nat)
    requires y == 4 * q
    ensures y % 4 == 0
  {
  }

  lemma NextMonth(y: nat, m: nat)
    requires y >= 1 && 1 <= m <= 12
    ensures DaysBeforeMonth(y, m + 1) == DaysBeforeMonth(y, m) + MonthLength(y, m)
    ensures DaysBeforeMonth(y, 1) == 0 && DaysBeforeMonth(y, 13) == YearLength(y)
  {
    NextYear(y);
  }

  lemma {:induction false} DateInMonth(y: nat, m: nat, n: nat)
    requires y >= 1 && 1 <= m <= 12 && n < YearLength(y) - DaysBeforeMonth(y, m)
    ensures var d := InMonth(y, m, n); IsDate(d) && Ordinal(d) == DaysBeforeYear(y) + DaysBeforeMonth(y, m) + n + 1
    decreases n
  {
    hide DaysBeforeYear, DaysBeforeMonth, MonthLength, YearLength;
    NextMonth(y, m);
    if n >= MonthLength(y, m) {
      assert m < 12;
      DateInMonth(y, m + 1, n - MonthLength(y, m));
    }
  }

  lemma {:induction false} DateInYear(y: nat, n: nat)
    requires y >= 1
    ensures var d := InYear(y, n); IsDate(d) && Ordinal(d) == DaysBeforeYear(y) + n + 1
    decreases n
  {
    hide DaysBeforeYear, DaysBeforeMonth, LeapYear, IsDate, Ordinal;
    if n < YearLength(y) {
      NextMonth(y, 1);
      DateInMonth(y, 1, n);
    } else {
      NextYear(y);
      DateInYear(y + 1, n - YearLength(y));
    }
  }

  /** Day `n` is the Gregorian date whose ordinal is `n` more than that of 2024-01-01, which is 738886. */
  lemma DayIsDate(n: nat)
    ensures IsDate(DateOfDay(n)) && Ordinal(DateOfDay(n)) == 738886 + n
  {
    hide InYear, DaysBeforeYear, DaysBeforeMonth, Ordinal, IsDate;
    DateInYear(2024, n);
    BaseYear();
  }

  lemma BaseYear()
    ensures DaysBeforeYear(2024) == 738885
  {
  }

  // ---------------------------------------------------------------------------------------------
  // Hashes
  // ---------------------------------------------------------------------------------------------

  /** The sixteen digits, by their ASCII codes, upper and lower case alike. */
  lemma HexDigitIs(c: char)
    ensures var n := c as int;
            HexDigit(c) == if 48 <= n <= 57 then Some((n - 48) as nat)
                           else if 97 <= n <= 102 then Some((n - 87) as nat)
                           else if 65 <= n <= 70 then Some((n - 55) as nat)
                           else None
  {
  }

  lemma {:induction false} HexNeedsDigits(s: string)
    ensures Hex(s).Some? <==> forall i :: 0 <= i < |s| ==> HexDigit(s[i]).Some?
  {
    hide HexDigit;
    if s != "" { HexNeedsDigits(s[..|s| - 1]); }
  }

  /** A hash that is too short, or not hexadecimal in its first eight places, gets the base date. */
  lemma OtherHashes(hash: string)
    requires |hash| < 8 || exists i :: 0 <= i < 8 && HexDigit(hash[i]).None?
    ensures IngestedAt(hash) == "2024-01-01"
  {
    hide HexDigit, Hex, DateOfDay, IsoDate;
    if |hash| >= 8 {
      HexNeedsDigits(hash[..8]);
    }
    FirstAndLast();
    PrintedDates();
  }

  /** A digit string, most significant digit first, is its value in base 16. */
  function Value16(digits: seq<nat>): nat {
    if digits == [] then 0 else 16 * Value16(digits[..|digits| - 1]) + digits[|digits| - 1]
  }

  lemma {:induction false} HexIsValue(s: string, digits: seq<nat>)
    requires |s| == |digits| && forall i :: 0 <= i < |s| ==> HexDigit(s[i]) == Some(digits[i])
    ensures Hex(s) == Some(Value16(digits))
  {
    hide HexDigit;
    if s != "" { HexIsValue(s[..|s| - 1], digits[..|digits| - 1]); }
  }

  /** Eight digits in front of anything choose the day `floor(value * 27759 / 2^32)`. */
  lemma HashChoosesDay(s: string, digits: seq<nat>, tail: string)
    requires |s| == |digits| == 8 && forall i :: 0 <= i < 8 ==> HexDigit(s[i]) == Some(digits[i])
    ensures IngestDay(s + tail) == Value16(digits) * 27759 / 4294967296
  {
    hide HexDigit, Hex, Value16;
    HexIsValue(s, digits);
    EightDigits(s, tail);
  }
}
