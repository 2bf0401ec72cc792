/**
 UTC timestamps `%Y-%m-%dT%H:%M:%S.%fZ`: what `strftime` writes and what `strptime` reads. They
 are not inverse to each other, for a year below 1000 is written with four digits on some
 platforms only and read with four digits everywhere.
 */
module Timestamps {
  import opened Outcomes
  import opened Digits
  import opened Decimals
  import opened Dates
  import SourceText

  datatype UtcFields = UtcFields(year: nat, month: nat, day: nat, hour: nat, minute: nat, second: nat, micro: nat)

  predicate IsUtc(u: UtcFields) {
    IsCalendarDate(u.year, u.month, u.day) && u.hour < 24 && u.minute < 60 && u.second < 60 && u.micro < 1_000_000
  }

  type Utc = u: UtcFields | IsUtc(u) witness UtcFields(1970, 1, 1, 0, 0, 0, 0)

  /** The day, as a date key. */
  function DayOf(u: Utc): nat {
    10_000 * u.year + 100 * u.month + u.day
  }

  /** Instants compare as these numbers do. */
  function Instant(u: Utc): nat {
    1_000_000 * (100 * (100 * (100 * DayOf(u) + u.hour) + u.minute) + u.second) + u.micro
  }

  // ----- writing -----

  /** A number in so many digits, leading zeros included. */
  function Fixed(n: nat, width: nat): (s: string)
    ensures |s| == width && AllDigits(s)
  {
    DigitString(Padded(n, width))
  }

  function YearText(year: nat, padsYears: bool): (s: string)
    ensures AllDigits(s)
  {
    if padsYears then Fixed(year, 4) else DigitString(Numeral(year))
  }

  /** The seven numbers, in order. */
  function Numbers(u: Utc, padsYears: bool): (r: seq<string>)
    ensures |r| == 7 && forall i :: 0 <= i < 7 ==> AllDigits(r[i])
  {
    [ YearText(u.year, padsYears), Fixed(u.month, 2), Fixed(u.day, 2), Fixed(u.hour, 2), Fixed(u.minute, 2),
      Fixed(u.second, 2), Fixed(u.micro, 6) ]
  }

  /** What follows each of them. */
  const SEPARATORS: string := "--T::.Z"

  function Separated(texts: seq<string>, separators: string): string
    requires |texts| == |separators|
  {
    if texts == [] then "" else texts[0] + [separators[0]] + Separated(texts[1..], separators[1..])
  }

  function Format(u: Utc, padsYears: bool): string {
    Separated(Numbers(u, padsYears), SEPARATORS)
  }

  // ----- reading -----

  /** The pattern ignores case, which matters for the two letters in it. */
  function FindFolded(s: string, c: char): (i: nat)
    ensures i <= |s|
  {
    if s == "" || SourceText.Fold(s[0]) == SourceText.Fold(c) then 0 else 1 + FindFolded(s[1..], c)
  }

  /** The text before each separator in turn, nothing being left after the last. */
  function Pieces(s: string, separators: string): Option<seq<string>>
    decreases |separators|
  {
    if separators == "" then if s == "" then Some([]) else None
    else
      var i := FindFolded(s, separators[0]);
      if i == |s| then None
      else
        match Pieces(s[i + 1..], separators[1..])
        case None => None
        case Some(rest) => Some([s[..i]] + rest)
  }

  /** One or two digits. */
  function ShortNumber(s: string): Option<nat> {
    if 1 <= |s| <= 2 && AllDigits(s) then Some(Number(DigitValues(s))) else None
  }

  /** A day may also be written as a space and a digit. */
  function DayNumber(s: string): Option<nat> {
    if |s| == 2 && s[0] == ' ' then ShortNumber(s[1..]) else ShortNumber(s)
  }

  /** One to six digits after the point, as millionths. */
  function Millionths(s: string): Option<nat> {
    if 1 <= |s| <= 6 && AllDigits(s) then Some(Number(DigitValues(s)) * Pow10(6 - |s|)) else None
  }

  function ReadPieces(p: seq<string>): Option<UtcFields>
    requires |p| == 7
  {
    var month, day, hour, minute := ShortNumber(p[1]), DayNumber(p[2]), ShortNumber(p[3]), ShortNumber(p[4]);
    var second, micro := ShortNumber(p[5]), Millionths(p[6]);
    if |p[0]| != 4 || !AllDigits(p[0]) || month.None? || day.None? || hour.None? || minute.None? || second.None?
    || micro.None?
    then None
    else
      Some(UtcFields(Number(DigitValues(p[0])), month.value, day.value, hour.value, minute.value, second.value,
                     micro.value))
  }

  /** Numbers out of range are refused, a day that is not in its month among them. */
  function ParseUtc(s: string): Option<Utc> {
    match Pieces(s, SEPARATORS)
    case None => None
    case Some(pieces) =>
      if |pieces| != 7 then None
      else
        match ReadPieces(pieces)
        case None => None
        case Some(u) => if IsUtc(u) then Some(u) else None
  }

  // ----- what is written is read back, or the year is too short -----

  lemma {:induction false} FindAfterDigits(s: string, c: char, rest: string)
    requires AllDigits(s) && !SourceText.IsAsciiDigit(c)
    ensures FindFolded(s + [c] + rest, c) == |s|
  {
    var all := s + [c] + rest;
    if s != "" {
      assert all[1..] == s[1..] + [c] + rest;
      FindAfterDigits(s[1..], c, rest);
    }
  }

  lemma {:induction false} SeparatedPieces(texts: seq<string>, separators: string)
    requires |texts| == |separators| && forall i :: 0 <= i < |texts| ==> AllDigits(texts[i])
    requires forall i :: 0 <= i < |separators| ==> !SourceText.IsAsciiDigit(separators[i])
    ensures Pieces(Separated(texts, separators), separators) == Some(texts)
    decreases |texts|
  {
    if texts != [] {
      var rest := Separated(texts[1..], separators[1..]);
      FindAfterDigits(texts[0], separators[0], rest);
      SeparatedPieces(texts[1..], separators[1..]);
      var all := texts[0] + [separators[0]] + rest;
      assert all[|texts[0]| + 1..] == rest && all[..|texts[0]|] == texts[0];
      assert texts == [texts[0]] + texts[1..];
    }
  }

  lemma {:induction false} PaddedNumber(n: nat, width: nat)
    requires n < Pow10(width)
    ensures Number(Padded(n, width)) == n
  {
    if width > 0 {
      PaddedNumber(n / 10, width - 1);
      assert Padded(n, width)[..width - 1] == Padded(n / 10, width - 1);
    }
  }

  lemma FixedNumber(n: nat, width: nat)
    requires n < Pow10(width)
    ensures Number(DigitValues(Fixed(n, width))) == n
  {
    PaddedNumber(n, width);
    assert DigitValues(DigitString(Padded(n, width))) == Padded(n, width);
  }

  lemma YearReads(year: nat, padsYears: bool)
    requires 1 <= year <= 9999
    ensures |YearText(year, padsYears)| == 4 <==> padsYears || year >= 1000
    ensures |YearText(year, padsYears)| == 4 ==> Number(DigitValues(YearText(year, padsYears))) == year
  {
    assert Pow10(3) == 1000 && Pow10(4) == 10_000;
    FixedNumber(year, 4);
    NumeralLength(year, 3);
    NumeralLength(year, 4);
    NumberOfNumeral(year);
    assert DigitValues(DigitString(Numeral(year))) == Numeral(year);
  }

  lemma ShortFixed(n: nat)
    requires n < 100
    ensures ShortNumber(Fixed(n, 2)) == Some(n) && DayNumber(Fixed(n, 2)) == Some(n)
  {
    assert Pow10(2) == 100;
    FixedNumber(n, 2);
  }

  lemma MillionthsFixed(n: nat)
    requires n < 1_000_000
    ensures Millionths(Fixed(n, 6)) == Some(n)
  {
    assert Pow10(6) == 1_000_000 && Pow10(0) == 1;
    FixedNumber(n, 6);
  }

  lemma NumbersRead(u: Utc, padsYears: bool)
    ensures ReadPieces(Numbers(u, padsYears)) == if padsYears || u.year >= 1000 then Some(u) else None
  {
    YearReads(u.year, padsYears);
    ShortFixed(u.month);
    ShortFixed(u.day);
    ShortFixed(u.hour);
    ShortFixed(u.minute);
    ShortFixed(u.second);
    MillionthsFixed(u.micro);
  }

  /** A formatted timestamp parses, and to what was formatted, exactly when its year takes four digits. */
  lemma ParseFormatted(u: Utc, padsYears: bool)
    ensures ParseUtc(Format(u, padsYears)) == if padsYears || u.year >= 1000 then Some(u) else None
  {
    SeparatedPieces(Numbers(u, padsYears), SEPARATORS);
    NumbersRead(u, padsYears);
  }
}
