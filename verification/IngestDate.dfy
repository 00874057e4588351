/** The deterministic ingest date: a linear map from a hash prefix to a day between 2024-01-01 and 2099-12-31. */
module IngestDate {
  import opened Text

  const HASH_SPACE: nat := 0x1_0000_0000
  /** Days from the base date to the cap date. */
  const BASE_ORDINAL: nat := 27758

  /** `int(source_hash[:8], 16)` on eight hexadecimal digits. */
  function HexDigit(c: char): Option<nat> {
    if '0' <= c <= '9' then Some((c - '0') as nat)
    else if 'a' <= c <= 'f' then Some((c - 'a') as nat + 10)
    else if 'A' <= c <= 'F' then Some((c - 'A') as nat + 10)
    else None
  }

  function Hex(s: string): (r: Option<nat>)
    ensures r.Some? ==> r.value < Pow16(|s|)
  {
    if s == "" then Some(0)
    else
      match (Hex(s[..|s| - 1]), HexDigit(s[|s| - 1]))
      case (Some(high), Some(low)) => Some(16 * high + low)
      case _ => None
  }

  function Pow16(n: nat): nat {
    if n == 0 then 1 else 16 * Pow16(n - 1)
  }

  function DayOfPrefix(prefix: nat): nat {
    prefix * (BASE_ORDINAL + 1) / HASH_SPACE
  }

  /** Short or non-hexadecimal hashes fall back to the base date. */
  function IngestDay(sourceHash: string): nat {
    if |sourceHash| < 8 then 0
    else
      match Hex(sourceHash[..8])
      case None => 0
      case Some(prefix) => DayOfPrefix(prefix)
  }

  // ---------------------------------------------------------------------------------------------
  // The map on prefixes
  // ---------------------------------------------------------------------------------------------

  /** The least prefix that lands on day `day` or later. */
  function FirstPrefix(day: nat): nat {
    (day * HASH_SPACE + BASE_ORDINAL) / (BASE_ORDINAL + 1)
  }

  /** Day `day` receives exactly the prefixes of one interval. */
  lemma DayIsInterval(day: nat, prefix: nat)
    ensures DayOfPrefix(prefix) == day <==> FirstPrefix(day) <= prefix < FirstPrefix(day + 1)
  {
  }

  lemma PrefixInterval(day: nat)
    requires day <= BASE_ORDINAL
    ensures FirstPrefix(day + 1) - FirstPrefix(day) in {154723, 154724}
    ensures FirstPrefix(day + 1) <= HASH_SPACE
  {
  }

  /** How many of the prefixes below `n` land on `day`. */
  function CountBelow(n: nat, day: nat): nat {
    if n == 0 then 0 else CountBelow(n - 1, day) + if DayOfPrefix(n - 1) == day then 1 else 0
  }

  lemma {:induction false} CountInInterval(n: nat, day: nat)
    ensures var lo, hi := FirstPrefix(day), FirstPrefix(day + 1);
            CountBelow(n, day) == if n <= lo then 0 else if n <= hi then n - lo else hi - lo
  {
    if n > 0 {
      CountInInterval(n - 1, day);
      DayIsInterval(day, n - 1);
    }
  }

  /**
   * Over all 32-bit prefixes the map is monotone, stays within the range of days, reaches both ends and
   * every day in between, and gives each day 154723 or 154724 prefixes.
   */
  lemma PrefixesSpreadEvenly(space: nat, day: nat)
    requires space == HASH_SPACE && day <= BASE_ORDINAL
    ensures forall p: nat, q: nat :: p <= q ==> DayOfPrefix(p) <= DayOfPrefix(q)
    ensures forall p: nat :: p < space ==> DayOfPrefix(p) <= BASE_ORDINAL
    ensures DayOfPrefix(0) == 0 && DayOfPrefix(HASH_SPACE - 1) == BASE_ORDINAL
    ensures CountBelow(space, day) in {154723, 154724}
  {
    PrefixInterval(day);
    CountInInterval(space, day);
  }

  // ---------------------------------------------------------------------------------------------
  // Calendar
  // ---------------------------------------------------------------------------------------------

  datatype Date = Date(year: nat, month: nat, day: nat)

  predicate LeapYear(y: nat) {
    y % 4 == 0 && (y % 100 != 0 || y % 400 == 0)
  }

  function YearLength(y: nat): nat {
    if LeapYear(y) then 366 else 365
  }

  function MonthLength(y: nat, m: nat): (n: nat)
    ensures n >= 28
  {
    if m == 2 then if LeapYear(y) then 29 else 28
    else if m == 4 || m == 6 || m == 9 || m == 11 then 30
    else 31
  }

  /** The date `n` days after the first of month `m`. */
  function InMonth(y: nat, m: nat, n: nat): Date
    decreases n
  {
    if n < MonthLength(y, m) then Date(y, m, n + 1) else InMonth(y, m + 1, n - MonthLength(y, m))
  }

  /** The date `n` days after New Year's Day of `y`. */
  function InYear(y: nat, n: nat): Date
    decreases n
  {
    if n < YearLength(y) then InMonth(y, 1, n) else InYear(y + 1, n - YearLength(y))
  }

  function DateOfDay(day: nat): Date {
    InYear(2024, day)
  }

  function Digits(n: nat, width: nat): string {
    if width == 0 then "" else Digits(n / 10, width - 1) + [(n % 10) as char + '0']
  }

  function IsoDate(d: Date): string {
    Digits(d.year, 4) + "-" + Digits(d.month, 2) + "-" + Digits(d.day, 2)
  }

  function IngestedAt(sourceHash: string): string {
    IsoDate(DateOfDay(IngestDay(sourceHash)))
  }

  lemma {:induction false} DigitsAreNewlineFree(n: nat, width: nat)
    ensures NewlineFree(Digits(n, width))
  {
    if width > 0 { DigitsAreNewlineFree(n / 10, width - 1); }
  }

  lemma IngestedAtIsNewlineFree(sourceHash: string)
    ensures NewlineFree(IngestedAt(sourceHash))
  {
    var d := DateOfDay(IngestDay(sourceHash));
    DigitsAreNewlineFree(d.year, 4);
    DigitsAreNewlineFree(d.month, 2);
    DigitsAreNewlineFree(d.day, 2);
  }

  /** Days before New Year's Day of year `2024 + k`. */
  function DaysBefore(k: nat): nat {
    if k == 0 then 0 else DaysBefore(k - 1) + YearLength(2024 + k - 1)
  }

  lemma {:induction false} DaysBeforeClosed(k: nat)
    requires k <= 76
    ensures DaysBefore(k) == 365 * k + (k + 3) / 4
  {
    if k > 0 { DaysBeforeClosed(k - 1); }
  }

  lemma {:induction false} SkipYears(j: nat, k: nat, r: nat)
    requires j <= k
    ensures DaysBefore(k) >= DaysBefore(j)
    ensures InYear(2024 + j, DaysBefore(k) - DaysBefore(j) + r) == InYear(2024 + k, r)
    decreases k - j
  {
    if j < k { SkipYears(j + 1, k, r); }
  }

  lemma {:induction false} MonthKeepsYear(y: nat, m: nat, n: nat)
    ensures InMonth(y, m, n).year == y
    decreases n
  {
    if n >= MonthLength(y, m) { MonthKeepsYear(y, m + 1, n - MonthLength(y, m)); }
  }

  lemma {:induction false} YearIsBounded(k: nat, n: nat)
    requires k <= 75 && n + DaysBefore(k) < DaysBefore(76)
    ensures 2024 + k <= InYear(2024 + k, n).year <= 2099
    decreases 76 - k
  {
    if n < YearLength(2024 + k) {
      MonthKeepsYear(2024 + k, 1, n);
    } else {
      assert DaysBefore(k + 1) == DaysBefore(k) + YearLength(2024 + k);
      YearIsBounded(k + 1, n - YearLength(2024 + k));
    }
  }

  /** Every ingest date lies between 2024-01-01 and 2099-12-31, and the extreme prefixes hit both ends. */
  lemma DatesStayInRange(prefix: nat)
    requires prefix < HASH_SPACE
    ensures 2024 <= DateOfDay(DayOfPrefix(prefix)).year <= 2099
    ensures DateOfDay(DayOfPrefix(0)) == Date(2024, 1, 1)
    ensures DateOfDay(DayOfPrefix(HASH_SPACE - 1)) == Date(2099, 12, 31)
  {
    hide InYear, DaysBefore, InMonth;
    DaysBeforeClosed(0);
    DaysBeforeClosed(76);
    YearIsBounded(0, DayOfPrefix(prefix));
    FirstAndLast();
  }

  /** A hash with eight zeros in front gets the base date, and one with eight `f`s the cap date. */
  lemma ExtremeHashes(tail: string)
    ensures IngestedAt("00000000" + tail) == "2024-01-01"
    ensures IngestedAt("ffffffff" + tail) == "2099-12-31"
  {
    hide DateOfDay, Hex, DayOfPrefix, IsoDate;
    EightDigits("00000000", tail);
    EightDigits("ffffffff", tail);
    ExtremePrefixes();
    FirstAndLast();
    assert DayOfPrefix(0) == 0 && DayOfPrefix(HASH_SPACE - 1) == BASE_ORDINAL by { ExtremeDays(); }
    PrintedDates();
  }

  lemma EightDigits(digits: string, tail: string)
    requires |digits| == 8
    ensures IngestDay(digits + tail) == match Hex(digits) case None => 0 case Some(prefix) => DayOfPrefix(prefix)
  {
    assert (digits + tail)[..8] == digits;
  }

  /** Appending a digit shifts the prefix by four bits. */
  lemma NextDigit(s: string, c: char)
    requires Hex(s).Some? && HexDigit(c).Some?
    ensures Hex(s + [c]) == Some(16 * Hex(s).value + HexDigit(c).value)
  {
    assert (s + [c])[..|s|] == s;
  }

  lemma ExtremePrefixes()
    ensures Hex("00000000") == Some(0) && Hex("ffffffff") == Some(HASH_SPACE - 1)
  {
    hide Hex, HexDigit;
    NoDigits();
    FourMore("", '0', 0);
    FourMore("", 'f', 15);
    assert "" + "0000" == "0000" && "" + "ffff" == "ffff";
    FourMore("0000", '0', 0);
    FourMore("ffff", 'f', 15);
    assert "0000" + "0000" == "00000000" && "ffff" + "ffff" == "ffffffff";
  }

  lemma NoDigits()
    ensures Hex("") == Some(0) && HexDigit('0') == Some(0) && HexDigit('f') == Some(15)
  {
  }

  lemma FourMore(s: string, c: char, d: nat)
    requires Hex(s).Some? && HexDigit(c) == Some(d)
    ensures Hex(s + [c, c, c, c]) == Some(65536 * Hex(s).value + 4369 * d)
  {
    hide Hex, HexDigit;
    NextDigit(s, c);
    NextDigit(s + [c], c);
    NextDigit(s + [c] + [c], c);
    NextDigit(s + [c] + [c] + [c], c);
    assert s + [c] + [c] + [c] + [c] == s + [c, c, c, c];
  }

  lemma ExtremeDays()
    ensures DayOfPrefix(0) == 0 && DayOfPrefix(HASH_SPACE - 1) == BASE_ORDINAL
  {
  }

  lemma PrintedDates()
    ensures IsoDate(Date(2024, 1, 1)) == "2024-01-01" && IsoDate(Date(2099, 12, 31)) == "2099-12-31"
  {
    hide Digits;
    TwoDigits(0, 1);
    TwoDigits(1, 2);
    TwoDigits(3, 1);
    FourDigits(2, 0, 2, 4);
    FourDigits(2, 0, 9, 9);
  }

  lemma TwoDigits(a: nat, b: nat)
    requires a < 10 && b < 10
    ensures Digits(10 * a + b, 2) == [a as char + '0', b as char + '0']
  {
    assert Digits(a, 1) == Digits(a / 10, 0) + [a as char + '0'];
  }

  lemma FourDigits(a: nat, b: nat, c: nat, d: nat)
    requires a < 10 && b < 10 && c < 10 && d < 10
    ensures Digits(1000 * a + 100 * b + 10 * c + d, 4)
            == [a as char + '0', b as char + '0', c as char + '0', d as char + '0']
  {
    var n := 1000 * a + 100 * b + 10 * c + d;
    assert n / 10 / 10 == 10 * a + b && n / 10 % 10 == c && n % 10 == d;
    TwoDigits(a, b);
    assert Digits(n / 10, 3) == Digits(10 * a + b, 2) + [c as char + '0'];
  }

  lemma FirstAndLast()
    ensures DateOfDay(0) == Date(2024, 1, 1)
    ensures DateOfDay(BASE_ORDINAL) == Date(2099, 12, 31)
  {
    hide InYear, DaysBefore, InMonth;
    FirstOfYear(2024);
    LastOfYear(2099);
    DaysBeforeClosed(0);
    DaysBeforeClosed(75);
    SkipYears(0, 75, 364);
  }

  lemma FirstOfYear(y: nat)
    ensures InYear(y, 0) == Date(y, 1, 1)
  {
  }

  lemma LastOfYear(y: nat)
    requires !LeapYear(y)
    ensures InYear(y, 364) == Date(y, 12, 31)
  {
    calc {
      InMonth(y, 1, 364);
      InMonth(y, 2, 333);
      InMonth(y, 3, 305);
      InMonth(y, 4, 274);
      InMonth(y, 5, 244);
      InMonth(y, 6, 213);
      InMonth(y, 7, 183);
      InMonth(y, 8, 152);
      InMonth(y, 9, 121);
      InMonth(y, 10, 91);
      InMonth(y, 11, 60);
      InMonth(y, 12, 30);
    }
  }
}
