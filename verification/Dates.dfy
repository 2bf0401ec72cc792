/** Calendar dates written `YYYY-MM-DD`. */
module Dates {
  import opened Decimals
  import SourceText

  function TwoDigits(s: string, i: nat): nat
    requires i + 2 <= |s| && SourceText.IsAsciiDigit(s[i]) && SourceText.IsAsciiDigit(s[i + 1])
  {
    10 * DigitValue(s[i]) + DigitValue(s[i + 1])
  }

  function DaysInMonth(year: nat, month: nat): nat {
    if month == 2 then
      if year % 4 == 0 && (year % 100 != 0 || year % 400 == 0) then 29 else 28
    else if month == 4 || month == 6 || month == 9 || month == 11 then 30
    else 31
  }

  predicate IsCalendarDate(year: nat, month: nat, day: nat) {
    1 <= year <= 9999 && 1 <= month <= 12 && 1 <= day <= DaysInMonth(year, month)
  }

  /** A calendar date `YYYY-MM-DD`. */
  predicate IsDateText(s: string) {
    && |s| == 10 && s[4] == '-' && s[7] == '-'
    && (forall i :: 0 <= i < 10 && i != 4 && i != 7 ==> SourceText.IsAsciiDigit(s[i]))
    && IsCalendarDate(100 * TwoDigits(s, 0) + TwoDigits(s, 2), TwoDigits(s, 5), TwoDigits(s, 8))
  }

  /** Dates compare as these numbers do. */
  function DateKey(s: string): nat
    requires IsDateText(s)
  {
    10_000 * (100 * TwoDigits(s, 0) + TwoDigits(s, 2)) + 100 * TwoDigits(s, 5) + TwoDigits(s, 8)
  }

  /** `strftime` writes years below 1000 without their leading zeros, unless the platform pads them. */
  predicate Reformats(s: string, padsYears: bool)
    requires IsDateText(s)
  {
    padsYears || DateKey(s) >= 1000_00_00
  }
}
