/** Dates as documents print them, and the two forms the declaration prints. */
module Dates {
  import opened Options
  import opened Text
  import opened Decimals
  import opened DecimalText
  import opened DecimalRoundTrip

  // ---- calendar ---------------------------------------------------------------------------- //

  datatype Triple = Triple(year: nat, month: nat, day: nat)

  predicate Leap(y: nat) { y % 4 == 0 && (y % 100 != 0 || y % 400 == 0) }

  function DaysIn(y: nat, m: nat): nat {
    if m == 2 then (if Leap(y) then 29 else 28)
    else if m == 4 || m == 6 || m == 9 || m == 11 then 30
    else 31
  }

  predicate Valid(d: Triple) {
    1 <= d.year <= 9999 && 1 <= d.month <= 12 && 1 <= d.day <= DaysIn(d.year, d.month)
  }

  type Date = d: Triple | Valid(d) witness Triple(1, 1, 1)

  /** `_safe_date`. */
  function SafeDate(y: nat, m: nat, d: nat): Option<Date>
  {
    if Valid(Triple(y, m, d)) then
      var date: Date := Triple(y, m, d);
      Some(date)
    else None
  }

  const MONTHS: seq<string> :=
    ["JAN", "FEB", "MAR", "APR", "MAY", "JUN", "JUL", "AUG", "SEP", "OCT", "NOV", "DEC"]

  function MonthFrom(token: string, m: nat): (k: nat)
    requires m <= |MONTHS|
    ensures m <= k <= |MONTHS| && (k < |MONTHS| ==> MONTHS[k] == token)
    decreases |MONTHS| - m
  {
    if m == |MONTHS| || MONTHS[m] == token then m else MonthFrom(token, m + 1)
  }

  /** `_month_no`: 0 if the token names no month.  Its first three letters decide; every
      long name begins with them. */
  function MonthNo(token: string): nat
    requires |token| >= 3
  {
    var k := MonthFrom(token[..3], 0);
    if k < |MONTHS| then k + 1 else 0
  }

  // ---- shapes -------------------------------------------------------------------------------- //

  function SkipDigits(s: string, from: nat): (k: nat)
    requires from <= |s|
    ensures from <= k <= |s| && (forall i | from <= i < k :: IsDigit(s[i])) && (k < |s| ==> !IsDigit(s[k]))
    decreases |s| - from
  {
    if from < |s| && IsDigit(s[from]) then SkipDigits(s, from + 1) else from
  }

  predicate IsCapital(c: char) { 'A' <= c <= 'Z' }

  function SkipCapitals(s: string, from: nat): (k: nat)
    requires from <= |s|
    ensures from <= k <= |s| && (forall i | from <= i < k :: IsCapital(s[i])) && (k < |s| ==> !IsCapital(s[k]))
    decreases |s| - from
  {
    if from < |s| && IsCapital(s[from]) then SkipCapitals(s, from + 1) else from
  }

  predicate IsMark(c: char) { c == '-' || c == '/' || c == '.' }

  /** Blanks and marks, and commas if allowed. */
  predicate IsSeparator(c: char, commas: bool) { IsSpace(c) || IsMark(c) || (commas && c == ',') }

  function SkipSeparators(s: string, from: nat, commas: bool): (k: nat)
    requires from <= |s|
    ensures from <= k <= |s| && (k < |s| ==> !IsSeparator(s[k], commas))
    decreases |s| - from
  {
    if from < |s| && IsSeparator(s[from], commas) then SkipSeparators(s, from + 1, commas) else from
  }

  datatype Fields = Fields(a: string, b: string, c: string)

  /** Digits, a mark, digits, a mark, digits. */
  function NumericFields(s: string): Option<Fields> {
    var e := SkipDigits(s, 0);
    if e == |s| || !IsMark(s[e]) then None
    else
      var f := SkipDigits(s, e + 1);
      if f == |s| || !IsMark(s[f]) || SkipDigits(s, f + 1) < |s| then None
      else Some(Fields(s[..e], s[e + 1..f], s[f + 1..]))
  }

  /** Digits, a word, digits, with separators between. */
  function WordInside(s: string): Option<Fields> {
    var e := SkipDigits(s, 0);
    var w := SkipSeparators(s, e, false);
    var x := SkipCapitals(s, w);
    var d := SkipSeparators(s, x, true);
    if SkipDigits(s, d) < |s| || !(3 <= x - w <= 9) then None
    else Some(Fields(s[..e], s[w..x], s[d..]))
  }

  /** A word, one or two digits, four digits; the digits may touch. */
  function WordFirst(s: string): Option<Fields> {
    var x := SkipCapitals(s, 0);
    var d := SkipSeparators(s, x, false);
    var e := SkipDigits(s, d);
    if !(3 <= x <= 9) then None
    else if e == |s| then
      if 5 <= e - d <= 6 then Some(Fields(s[..x], s[d..e - 4], s[e - 4..])) else None
    else
      var y := SkipSeparators(s, e, true);
      if SkipDigits(s, y) < |s| then None else Some(Fields(s[..x], s[d..e], s[y..]))
  }

  predicate Short(s: string) { 1 <= |s| <= 2 }

  function WordDate(y: string, mon: string, d: string): Option<Date>
    requires |mon| >= 3
  {
    if MonthNo(mon) == 0 then None else SafeDate(NatOf(y), MonthNo(mon), NatOf(d))
  }

  /** The forms with a month's name, on upper-cased text. */
  function ParseWords(up: string): Option<Date>
  {
    var inside, first := WordInside(up), WordFirst(up);
    if inside.Some? && Short(inside.value.a) && |inside.value.c| == 4 then
      WordDate(inside.value.c, inside.value.b, inside.value.a)
    else if first.Some? && Short(first.value.b) && |first.value.c| == 4 && |first.value.a| >= 3 then
      WordDate(first.value.c, first.value.a, first.value.b)
    else if inside.Some? && |inside.value.a| == 4 && Short(inside.value.c) then
      WordDate(inside.value.a, inside.value.b, inside.value.c)
    else None
  }

  function ParseSingle(s: string): Option<Date>
  {
    var fields := NumericFields(s);
    if |s| == 6 && AllDigits(s) then SafeDate(2000 + NatOf(s[..2]), NatOf(s[2..4]), NatOf(s[4..6]))
    else if |s| == 8 && AllDigits(s) then SafeDate(NatOf(s[..4]), NatOf(s[4..6]), NatOf(s[6..8]))
    else if fields.Some? && |fields.value.a| == 4 && Short(fields.value.b) && Short(fields.value.c) then
      SafeDate(NatOf(fields.value.a), NatOf(fields.value.b), NatOf(fields.value.c))
    else if fields.Some? && Short(fields.value.a) && Short(fields.value.b) && |fields.value.c| == 4 then
      SafeDate(NatOf(fields.value.c), NatOf(fields.value.b), NatOf(fields.value.a))
    else ParseWords(UpperAll(s))
  }

  function SkipLoose(s: string, from: nat): (k: nat)
    requires from <= |s|
    ensures from <= k <= |s|
    decreases |s| - from
  {
    if from < |s| && (IsSpace(s[from]) || s[from] == ',' || s[from] == ':' || s[from] == '-') then SkipLoose(s, from + 1)
    else from
  }

  /** A leading tag date, and a trailing text that says the same or nothing. */
  function ParseComposite(s: string): Option<Date>
  {
    var e := SkipDigits(s, 0);
    if !(e == 6 || e == 8) || WordAt(s, e) || '\n' in s[SkipLoose(s, e)..] then None
    else
      var lead, rest := ParseSingle(s[..e]), Strip(s[SkipLoose(s, e)..]);
      if lead.None? || rest == [] then lead
      else if ParseSingle(rest).None? || ParseSingle(rest) == lead then lead
      else None
  }

  function ParseStripped(s: string): Option<Date>
  {
    if s == [] then None
    else if ParseSingle(s).Some? then ParseSingle(s)
    else ParseComposite(s)
  }

  /** `parse_date`. */
  function ParseDate(raw: string): Option<Date>
  {
    ParseStripped(Strip(raw))
  }

  // ---- printers ---------------------------------------------------------------------------------- //

  /** "24-FEB-2026"; the year is not padded. */
  function DdMmmYyyy(d: Date): string
  {
    Digits(d.day, 2) + "-" + MONTHS[d.month - 1] + "-" + Digits(d.year, 1)
  }

  /** "24/02/2026". */
  function DdMmYyyy(d: Date): string
  {
    Digits(d.day, 2) + "/" + Digits(d.month, 2) + "/" + Digits(d.year, 1)
  }

  /** `fmt_dd_mmm_yyyy`: text that is no date passes through. */
  function FmtDdMmmYyyy(raw: string): string {
    var d := ParseDate(raw);
    if d.Some? then DdMmmYyyy(d.value) else Strip(raw)
  }

  /** `fmt_dd_mm_yyyy`. */
  function FmtDdMmYyyy(raw: string): string {
    var d := ParseDate(raw);
    if d.Some? then DdMmYyyy(d.value) else Strip(raw)
  }

  // ---- printed dates ------------------------------------------------------------------------------ //

  lemma {:induction false} SkipDigitsIs(s: string, from: nat, k: nat)
    requires from <= k <= |s| && (forall i | from <= i < k :: IsDigit(s[i])) && (k < |s| ==> !IsDigit(s[k]))
    ensures SkipDigits(s, from) == k
    decreases k - from
  {
    if from < k {
      SkipDigitsIs(s, from + 1, k);
    }
  }

  predicate AllCapitals(s: string) { forall i | 0 <= i < |s| :: IsCapital(s[i]) }

  lemma MonthNumber(m: nat)
    requires 1 <= m <= 12
    ensures |MONTHS[m - 1]| == 3 && MonthNo(MONTHS[m - 1]) == m
    ensures AllCapitals(MONTHS[m - 1])
  {
    assert MONTHS[m - 1][..3] == MONTHS[m - 1];
  }

  /** The year shows four digits from the year 1000 on. */
  lemma YearDigits(y: nat)
    requires 1 <= y <= 9999
    ensures |Digits(y, 1)| <= 4 && (|Digits(y, 1)| == 4 <==> y >= 1000)
  {
    Shorter(y, 1, 3);
  }

  lemma {:induction false} Shorter(n: nat, width: nat, k: nat)
    requires width <= 1 && n < Pow10(k + 1)
    ensures |Digits(n, width)| <= k + 1 && (|Digits(n, width)| == k + 1 <==> n >= Pow10(k) || k == 0)
    decreases k
  {
    assert Pow10(k + 1) == 10 * Pow10(k);
    if k > 0 {
      assert Pow10(k) == 10 * Pow10(k - 1);
      if n >= 10 {
        Shorter(n / 10, 0, k - 1);
      }
    }
  }

  lemma TwoDigits(n: nat)
    requires n <= 99
    ensures |Digits(n, 2)| == 2 && AllDigits(Digits(n, 2)) && NatOf(Digits(n, 2)) == n
  {
    assert Pow10(2) == 100 by {
      assert Pow10(1) == 10 * Pow10(0);
    }
    DigitsOf(n, 2);
    DigitsWidth(n, 2);
  }

  lemma NumericSplit(a: string, b: string, c: string, mark: char)
    requires AllDigits(a) && AllDigits(b) && AllDigits(c) && IsMark(mark)
    ensures NumericFields(a + [mark] + b + [mark] + c) == Some(Fields(a, b, c))
  {
    hide SkipDigits;
    var s := a + [mark] + b + [mark] + c;
    SkipDigitsIs(s, 0, |a|);
    SkipDigitsIs(s, |a| + 1, |a| + 1 + |b|);
    SkipDigitsIs(s, |a| + |b| + 2, |s|);
    assert s[..|a|] == a && s[|a| + 1..|a| + 1 + |b|] == b && s[|a| + |b| + 2..] == c;
  }

  /** "05/03/999" is no date at all. */
  lemma ShortYearRefused(s: string)
    requires 3 <= |s| && IsDigit(s[0]) && IsDigit(s[1]) && s[2] == '/'
    requires NumericFields(s).Some? && |NumericFields(s).value.a| == 2 && |NumericFields(s).value.c| < 4
    requires forall i | 0 <= i < |s| :: IsDigit(s[i]) || s[i] == '/'
    ensures ParseStripped(s).None?
  {
    SkipDigitsIs(s, 0, 2);
    UpperKeeps(s);
    NoWords(s);
  }

  lemma UpperKeeps(s: string)
    requires forall i | 0 <= i < |s| :: !('a' <= s[i] <= 'z')
    ensures UpperAll(s) == s
  {
  }

  lemma NoWords(s: string)
    requires forall i | 0 <= i < |s| :: !IsCapital(s[i])
    ensures WordInside(s).None? && WordFirst(s).None?
  {
  }

  lemma FieldsParse(s: string, f: Fields)
    requires NumericFields(s) == Some(f) && Short(f.a) && Short(f.b) && |f.c| == 4
    requires 3 <= |s| && !IsDigit(s[2])
    ensures ParseSingle(s) == SafeDate(NatOf(f.c), NatOf(f.b), NatOf(f.a))
  {
    hide NumericFields;
    hide ParseWords;
    hide SafeDate;
  }

  lemma NumericText(d: Date)
    ensures var s, f := DdMmYyyy(d), Fields(Digits(d.day, 2), Digits(d.month, 2), Digits(d.year, 1));
      && NumericFields(s) == Some(f) && |f.a| == 2 && |f.b| == 2
      && |s| >= 7 && IsDigit(s[0]) && IsDigit(s[1]) && s[2] == '/' && IsDigit(s[|s| - 1])
      && (forall i | 0 <= i < |s| :: IsDigit(s[i]) || s[i] == '/')
  {
    var dd, mm, yy := Digits(d.day, 2), Digits(d.month, 2), Digits(d.year, 1);
    TwoDigits(d.day);
    TwoDigits(d.month);
    DigitsOf(d.year, 1);
    NumericSplit(dd, mm, yy, '/');
    hide Digits;
    assert DdMmYyyy(d) == dd + ['/'] + mm + ['/'] + yy;
  }

  /** A printed DD/MM/YYYY date reads back, exactly when its year has four digits. */
  lemma NumericParses(d: Date)
    ensures ParseDate(DdMmYyyy(d)) == if d.year >= 1000 then Some(d) else None
  {
    var s, f := DdMmYyyy(d), Fields(Digits(d.day, 2), Digits(d.month, 2), Digits(d.year, 1));
    NumericText(d);
    YearDigits(d.year);
    TwoDigits(d.day);
    TwoDigits(d.month);
    DigitsOf(d.year, 1);
    StripOfVisible(s);
    hide Digits;
    hide DdMmYyyy;
    hide NumericFields;
    hide ParseSingle;
    hide ParseComposite;
    if d.year < 1000 {
      ShortYearRefused(s);
    } else {
      FieldsParse(s, f);
    }
  }

  // ---- dates with a month's name ------------------------------------------------------------------- //

  lemma {:induction false} SkipCapitalsIs(s: string, from: nat, k: nat)
    requires from <= k <= |s| && (forall i | from <= i < k :: IsCapital(s[i])) && (k < |s| ==> !IsCapital(s[k]))
    ensures SkipCapitals(s, from) == k
    decreases k - from
  {
    if from < k {
      SkipCapitalsIs(s, from + 1, k);
    }
  }

  /** "24-FEB-2026" and its like, part by part. */
  ghost predicate Worded(s: string, dd: string, mon: string, yy: string) {
    && s == dd + "-" + mon + "-" + yy && |dd| == 2 && AllDigits(dd) && |mon| == 3 && AllCapitals(mon)
    && yy != [] && AllDigits(yy)
  }

  lemma WordedText(s: string, dd: string, mon: string, yy: string)
    requires Worded(s, dd, mon, yy)
    ensures |s| == 7 + |yy| > 7 && SkipDigits(s, 0) == 2 && s[2] == '-' && s[6] == '-'
    ensures forall i | 3 <= i < 6 :: IsCapital(s[i])
    ensures forall i | 7 <= i < |s| :: IsDigit(s[i])
    ensures s[..2] == dd && s[3..6] == mon && s[7..] == yy
    ensures UpperAll(s) == s && !AllDigits(s)
  {
    assert forall i | 3 <= i < 6 :: s[i] == mon[i - 3];
    assert forall i | 7 <= i < |s| :: s[i] == yy[i - 7];
    SkipDigitsIs(s, 0, 2);
    UpperKeeps(s);
  }

  lemma CapitalsAreNoSeparators(capital: char, digit: char)
    requires IsCapital(capital) && IsDigit(digit)
    ensures !IsSeparator(capital, false) && !IsSeparator(digit, true)
  {
  }

  lemma WordedShape(s: string, dd: string, mon: string, yy: string)
    requires Worded(s, dd, mon, yy)
    ensures WordInside(s) == Some(Fields(dd, mon, yy)) && WordFirst(s).None? && NumericFields(s).None?
  {
    hide Worded;
    hide SkipDigits;
    hide SkipCapitals;
    hide IsSpace;
    WordedText(s, dd, mon, yy);
    CapitalsAreNoSeparators(s[3], s[7]);
    SkipDigitsIs(s, 3, 3);
    SkipCapitalsIs(s, 0, 0);
    SkipCapitalsIs(s, 3, 6);
    SkipDigitsIs(s, 7, |s|);
    assert SkipSeparators(s, 2, false) == 3 && SkipSeparators(s, 6, true) == 7;
  }

  lemma WordedParses(s: string, dd: string, mon: string, yy: string)
    requires Worded(s, dd, mon, yy) && |yy| <= 4
    ensures ParseStripped(s) == if |yy| == 4 then WordDate(yy, mon, dd) else None
  {
    WordedText(s, dd, mon, yy);
    WordedShape(s, dd, mon, yy);
    hide WordInside;
    hide WordFirst;
    hide NumericFields;
    hide WordDate;
    hide UpperAll;
  }

  /** A printed DD-MMM-YYYY date likewise. */
  lemma WordedRoundTrip(d: Date)
    ensures ParseDate(DdMmmYyyy(d)) == if d.year >= 1000 then Some(d) else None
  {
    var dd, mon, yy := Digits(d.day, 2), MONTHS[d.month - 1], Digits(d.year, 1);
    var s := DdMmmYyyy(d);
    MonthNumber(d.month);
    TwoDigits(d.day);
    DigitsOf(d.year, 1);
    YearDigits(d.year);
    hide Digits;
    assert Worded(s, dd, mon, yy);
    StripOfVisible(s);
    WordedParses(s, dd, mon, yy);
    hide ParseStripped;
  }

  // ---- the other printed shapes ---------------------------------------------------------------------- //

  /** The name of the date's month. */
  function Name(d: Date): string {
    match d.month
    case 1 => "JAN" case 2 => "FEB" case 3 => "MAR" case 4 => "APR" case 5 => "MAY" case 6 => "JUN"
    case 7 => "JUL" case 8 => "AUG" case 9 => "SEP" case 10 => "OCT" case 11 => "NOV" case _ => "DEC"
  }

  lemma NameIs(d: Date)
    ensures MONTHS[d.month - 1] == Name(d) && |Name(d)| == 3 && AllCapitals(Name(d)) && MonthNo(Name(d)) == d.month
  {
    MonthNumber(d.month);
    hide MonthNo;
  }

  /** Day, month name, year; day and month with two digits. */
  lemma PrintedForms(d: Date)
    ensures DdMmmYyyy(d) == Digits(d.day, 2) + "-" + Name(d) + "-" + Digits(d.year, 1)
    ensures |Digits(d.day, 2)| == 2 && NatOf(Digits(d.day, 2)) == d.day
    ensures NatOf(Digits(d.year, 1)) == d.year
  {
    NameIs(d);
    TwoDigits(d.day);
    DigitsOf(d.year, 1);
  }

  /** A month has 31 days, 30 or, in February, 28; there is a 29th of February every fourth
      year but for the centuries that four hundred does not divide. */
  lemma Calendar(y: nat, m: nat, day: nat)
    ensures SafeDate(y, m, day).Some?
       <==> && 1 <= y <= 9999 && 1 <= m <= 12 && 1 <= day <= 31
            && (m in [4, 6, 9, 11] ==> day <= 30)
            && (m == 2 ==> day <= 28 || (day == 29 && (y % 400 == 0 || (y % 4 == 0 && y % 100 != 0))))
  {
  }

  lemma FourDigits(y: nat)
    requires 1000 <= y <= 9999
    ensures |Digits(y, 1)| == 4 && AllDigits(Digits(y, 1)) && NatOf(Digits(y, 1)) == y
  {
    YearDigits(y);
    DigitsOf(y, 1);
  }

  lemma Parts(d: Date)
    requires d.year >= 1000
    ensures |Digits(d.year, 1)| == 4 && AllDigits(Digits(d.year, 1)) && NatOf(Digits(d.year, 1)) == d.year
    ensures |Digits(d.month, 2)| == 2 && AllDigits(Digits(d.month, 2)) && NatOf(Digits(d.month, 2)) == d.month
    ensures |Digits(d.day, 2)| == 2 && AllDigits(Digits(d.day, 2)) && NatOf(Digits(d.day, 2)) == d.day
  {
    FourDigits(d.year);
    TwoDigits(d.month);
    TwoDigits(d.day);
  }

  lemma SingleParses(s: string, d: Date)
    requires s != [] && !IsSpace(s[0]) && !IsSpace(s[|s| - 1]) && ParseSingle(s) == Some(d)
    ensures ParseDate(s) == Some(d)
  {
    StripOfVisible(s);
    hide ParseSingle;
  }

  /** "20260224". */
  lemma CompactParses(d: Date)
    requires d.year >= 1000
    ensures ParseDate(Digits(d.year, 1) + Digits(d.month, 2) + Digits(d.day, 2)) == Some(d)
  {
    Parts(d);
    var y, m, dd := Digits(d.year, 1), Digits(d.month, 2), Digits(d.day, 2);
    hide Digits;
    hide NumericFields, ParseWords;
    var s := y + m + dd;
    assert s[..4] == y && s[4..6] == m && s[6..8] == dd;
    assert AllDigits(s) && |s| == 8;
    SingleParses(s, d);
  }

  /** "2026-02-24", "2026/02/24" and "2026.02.24". */
  lemma IsoParses(d: Date, mark: char)
    requires d.year >= 1000 && IsMark(mark)
    ensures ParseDate(Digits(d.year, 1) + [mark] + Digits(d.month, 2) + [mark] + Digits(d.day, 2)) == Some(d)
  {
    Parts(d);
    var y, m, dd := Digits(d.year, 1), Digits(d.month, 2), Digits(d.day, 2);
    NumericSplit(y, m, dd, mark);
    hide Digits;
    hide NumericFields, ParseWords;
    var s := y + [mark] + m + [mark] + dd;
    assert s[4] == mark && !IsDigit(mark) && !IsSpace(mark);
    SingleParses(s, d);
  }

  /** "24-02-2026" and "24.02.2026" likewise: the day comes first. */
  lemma DayFirstParses(d: Date, mark: char)
    requires d.year >= 1000 && IsMark(mark)
    ensures ParseDate(Digits(d.day, 2) + [mark] + Digits(d.month, 2) + [mark] + Digits(d.year, 1)) == Some(d)
  {
    Parts(d);
    var y, m, dd := Digits(d.year, 1), Digits(d.month, 2), Digits(d.day, 2);
    NumericSplit(dd, m, y, mark);
    hide Digits;
    var s := dd + [mark] + m + [mark] + y;
    assert s[2] == mark && !IsDigit(mark);
    FieldsParse(s, Fields(dd, m, y));
    hide NumericFields, ParseSingle;
    SingleParses(s, d);
  }

  /** "FEB 24, 2026" has the shape of no other form. */
  lemma MonthFirstShape(mon: string, dd: string, yy: string)
    requires |mon| == 3 && AllCapitals(mon) && |dd| == 2 && AllDigits(dd) && |yy| == 4 && AllDigits(yy)
    ensures var s := mon + " " + dd + ", " + yy;
      && NumericFields(s).None? && WordInside(s).None? && WordFirst(s) == Some(Fields(mon, dd, yy)) && UpperAll(s) == s
      && |s| == 12 && IsCapital(s[0]) && IsDigit(s[11]) && !AllDigits(s)
  {
    hide SkipDigits, SkipCapitals, IsSpace;
    var s := mon + " " + dd + ", " + yy;
    assert s[..3] == mon && s[4..6] == dd && s[8..] == yy && s[3] == ' ' && s[6] == ',' && s[7] == ' ';
    assert forall i | 0 <= i < 3 :: s[i] == mon[i];
    assert forall i | 4 <= i < 6 :: s[i] == dd[i - 4];
    assert forall i | 8 <= i < 12 :: s[i] == yy[i - 8];
    SkipDigitsIs(s, 0, 0);
    SkipDigitsIs(s, 4, 6);
    SkipDigitsIs(s, 8, 12);
    SkipCapitalsIs(s, 0, 3);
    CapitalsAreNoSeparators(s[0], s[4]);
    CapitalsAreNoSeparators(s[0], s[8]);
    Separates();
    assert SkipSeparators(s, 0, false) == 0;
    assert SkipSeparators(s, 4, true) == 4 && SkipSeparators(s, 4, false) == 4;
    assert SkipSeparators(s, 8, true) == 8 && SkipSeparators(s, 7, true) == 8;
    UpperKeeps(s);
  }

  lemma Separates()
    ensures IsSeparator(' ', true) && IsSeparator(' ', false) && IsSeparator(',', true) && !IsSeparator(',', false)
    ensures forall c, commas | IsDigit(c) :: !IsSeparator(c, commas)
  {
  }

  lemma EndsVisible(s: string)
    requires |s| > 1 && (IsDigit(s[0]) || IsCapital(s[0])) && IsDigit(s[|s| - 1])
    ensures !IsSpace(s[0]) && !IsSpace(s[|s| - 1])
  {
  }

  /** A text of neither digits nor marks is read by its words. */
  lemma WordsParse(s: string, d: Date, yy: string, mon: string, dd: string)
    requires |mon| >= 3 && |dd| == 2 && |yy| == 4 && MonthNo(mon) == d.month && NatOf(yy) == d.year && NatOf(dd) == d.day
    requires NumericFields(s).None? && UpperAll(s) == s && !AllDigits(s)
    requires if WordFirst(s).Some? then WordFirst(s) == Some(Fields(mon, dd, yy)) && WordInside(s).None?
             else WordInside(s) == Some(Fields(yy, mon, dd))
    ensures ParseSingle(s) == Some(d)
  {
    hide WordInside, WordFirst, NumericFields, UpperAll, MonthNo, NatOf;
  }

  /** "FEB 24, 2026". */
  lemma MonthFirstParses(d: Date)
    requires d.year >= 1000
    ensures ParseDate(Name(d) + " " + Digits(d.day, 2) + ", " + Digits(d.year, 1)) == Some(d)
  {
    Parts(d);
    NameIs(d);
    var mon, dd, y := Name(d), Digits(d.day, 2), Digits(d.year, 1);
    MonthFirstShape(mon, dd, y);
    hide Digits, Name, MonthNo, WordInside, WordFirst, NumericFields, UpperAll, ParseSingle, NatOf;
    var s := mon + " " + dd + ", " + y;
    EndsVisible(s);
    hide *;
    WordsParse(s, d, y, mon, dd);
    SingleParses(s, d);
  }

  lemma YearFirstShape(yy: string, mon: string, dd: string)
    requires |mon| == 3 && AllCapitals(mon) && |dd| == 2 && AllDigits(dd) && |yy| == 4 && AllDigits(yy)
    ensures var s := yy + " " + mon + " " + dd;
      && NumericFields(s).None? && WordInside(s) == Some(Fields(yy, mon, dd)) && WordFirst(s).None? && UpperAll(s) == s
      && |s| == 11 && IsDigit(s[0]) && IsDigit(s[10]) && !AllDigits(s)
  {
    hide SkipDigits, SkipCapitals, IsSpace;
    var s := yy + " " + mon + " " + dd;
    assert s[..4] == yy && s[5..8] == mon && s[9..] == dd && s[4] == ' ' && s[8] == ' ';
    assert forall i | 0 <= i < 4 :: s[i] == yy[i];
    assert forall i | 5 <= i < 8 :: s[i] == mon[i - 5];
    assert forall i | 9 <= i < 11 :: s[i] == dd[i - 9];
    SkipDigitsIs(s, 0, 4);
    SkipDigitsIs(s, 9, 11);
    SkipCapitalsIs(s, 0, 0);
    SkipCapitalsIs(s, 5, 8);
    CapitalsAreNoSeparators(s[5], s[9]);
    Separates();
    assert SkipSeparators(s, 5, false) == 5 && SkipSeparators(s, 4, false) == 5;
    assert SkipSeparators(s, 9, true) == 9 && SkipSeparators(s, 8, true) == 9;
    UpperKeeps(s);
  }

  /** "2026 FEB 24". */
  lemma YearFirstParses(d: Date)
    requires d.year >= 1000
    ensures ParseDate(Digits(d.year, 1) + " " + Name(d) + " " + Digits(d.day, 2)) == Some(d)
  {
    Parts(d);
    NameIs(d);
    var mon, dd, y := Name(d), Digits(d.day, 2), Digits(d.year, 1);
    YearFirstShape(y, mon, dd);
    hide Digits, Name, MonthNo, WordInside, WordFirst, NumericFields, UpperAll, ParseSingle, NatOf;
    var s := y + " " + mon + " " + dd;
    EndsVisible(s);
    hide *;
    WordsParse(s, d, y, mon, dd);
    SingleParses(s, d);
  }

  // ---- exactly these shapes ---------------------------------------------------------------------------- //

  lemma FieldsExactly(s: string, f: Fields)
    requires NumericFields(s) == Some(f) && !AllDigits(s) && ParseWords(UpperAll(s)).None?
    ensures ParseSingle(s)
         == if |f.a| == 4 && 1 <= |f.b| <= 2 && 1 <= |f.c| <= 2 then SafeDate(NatOf(f.a), NatOf(f.b), NatOf(f.c))
            else if 1 <= |f.a| <= 2 && 1 <= |f.b| <= 2 && |f.c| == 4 then SafeDate(NatOf(f.c), NatOf(f.b), NatOf(f.a))
            else None
  {
    hide NumericFields, ParseWords, UpperAll, SafeDate, NatOf, AllDigits;
  }

  lemma NoCapitals(s: string)
    requires forall i | 0 <= i < |s| :: IsDigit(s[i]) || IsMark(s[i])
    ensures ParseWords(UpperAll(s)).None?
  {
    UpperKeeps(s);
    NoWords(s);
  }

  /** Digits, a mark, digits, the mark, digits: a date with the year of four digits in front
      or behind, month and day of one or two, and no other. */
  lemma NumericExactly(a: string, b: string, c: string, mark: char)
    requires AllDigits(a) && AllDigits(b) && AllDigits(c) && IsMark(mark)
    ensures ParseSingle(a + [mark] + b + [mark] + c)
         == if |a| == 4 && 1 <= |b| <= 2 && 1 <= |c| <= 2 then SafeDate(NatOf(a), NatOf(b), NatOf(c))
            else if 1 <= |a| <= 2 && 1 <= |b| <= 2 && |c| == 4 then SafeDate(NatOf(c), NatOf(b), NatOf(a))
            else None
  {
    var s := a + [mark] + b + [mark] + c;
    NumericSplit(a, b, c, mark);
    assert s[|a|] == mark && !IsDigit(mark);
    assert forall i | 0 <= i < |s| :: IsDigit(s[i]) || IsMark(s[i]);
    NoCapitals(s);
    hide NumericFields, ParseWords, ParseSingle, UpperAll, SafeDate, NatOf;
    FieldsExactly(s, Fields(a, b, c));
  }

  predicate CapitalWord(w: string) { w != [] && forall i | 0 <= i < |w| :: 'A' <= w[i] <= 'Z' }

  /** Digits, a blank, capitals, a blank, digits, by their places. */
  ghost predicate InsideAt(s: string, p: nat, q: nat) {
    && 1 < p < q && q + 1 < |s| && s[p - 1] == ' ' && s[q] == ' '
    && (forall i | 0 <= i < p - 1 :: IsDigit(s[i])) && (forall i | p <= i < q :: IsCapital(s[i]))
    && (forall i | q < i < |s| :: IsDigit(s[i]))
  }

  lemma InsideText(s: string, a: string, w: string, c: string)
    requires s == a + " " + w + " " + c && AllDigits(a) && a != [] && CapitalWord(w) && AllDigits(c) && c != []
    ensures var p, q := |a| + 1, |a| + 1 + |w|;
      InsideAt(s, p, q) && s[..p - 1] == a && s[p..q] == w && s[q + 1..] == c
  {
    var p, q := |a| + 1, |a| + 1 + |w|;
    assert forall i | 0 <= i < |a| :: s[i] == a[i];
    assert forall i | p <= i < q :: s[i] == w[i - p];
    assert forall i | q < i < |s| :: s[i] == c[i - q - 1];
  }

  lemma InsideFields(s: string, p: nat, q: nat)
    requires InsideAt(s, p, q)
    ensures WordInside(s) == if 3 <= q - p <= 9 then Some(Fields(s[..p - 1], s[p..q], s[q + 1..])) else None
  {
    hide SkipDigits, SkipCapitals, IsSpace;
    SkipDigitsIs(s, 0, p - 1);
    SkipDigitsIs(s, q + 1, |s|);
    SkipCapitalsIs(s, p, q);
    CapitalsAreNoSeparators(s[p], s[q + 1]);
    Separates();
    assert SkipSeparators(s, p, false) == p && SkipSeparators(s, p - 1, false) == p;
    assert SkipSeparators(s, q + 1, true) == q + 1 && SkipSeparators(s, q, true) == q + 1;
  }

  lemma InsideOnly(s: string, p: nat, q: nat)
    requires InsideAt(s, p, q)
    ensures NumericFields(s).None? && WordFirst(s).None? && !AllDigits(s) && UpperAll(s) == s
  {
    hide SkipDigits, SkipCapitals, IsSpace, SkipSeparators;
    SkipDigitsIs(s, 0, p - 1);
    SkipCapitalsIs(s, 0, 0);
    UpperKeeps(s);
    hide UpperAll;
  }

  lemma InsideShape(a: string, w: string, c: string)
    requires AllDigits(a) && a != [] && CapitalWord(w) && AllDigits(c) && c != []
    ensures var s := a + " " + w + " " + c;
      && NumericFields(s).None? && WordFirst(s).None? && UpperAll(s) == s && !AllDigits(s)
      && WordInside(s) == if 3 <= |w| <= 9 then Some(Fields(a, w, c)) else None
  {
    hide *;
    var s := a + " " + w + " " + c;
    InsideText(s, a, w, c);
    InsideFields(s, |a| + 1, |a| + 1 + |w|);
    InsideOnly(s, |a| + 1, |a| + 1 + |w|);
  }

  /** Digits, a word, digits: a date if the word has three to nine letters and names a
      month, the year four digits and the day one or two, in either order. */
  lemma InsideExactly(a: string, w: string, c: string)
    requires AllDigits(a) && a != [] && CapitalWord(w) && AllDigits(c) && c != []
    ensures ParseSingle(a + " " + w + " " + c)
         == if 3 <= |w| <= 9 && |a| <= 2 && |c| == 4 then WordDate(c, w, a)
            else if 3 <= |w| <= 9 && |a| == 4 && |c| <= 2 then WordDate(a, w, c)
            else None
  {
    InsideShape(a, w, c);
    hide WordInside, WordFirst, NumericFields, UpperAll, WordDate;
  }

  /** Capitals, a blank, digits, a blank, digits. */
  ghost predicate FirstAt(s: string, p: nat, q: nat) {
    && 1 < p < q && q + 1 < |s| && s[p - 1] == ' ' && s[q] == ' '
    && (forall i | 0 <= i < p - 1 :: IsCapital(s[i])) && (forall i | p <= i < q :: IsDigit(s[i]))
    && (forall i | q < i < |s| :: IsDigit(s[i]))
  }

  lemma FirstText(s: string, w: string, b: string, c: string)
    requires s == w + " " + b + " " + c && CapitalWord(w) && AllDigits(b) && b != [] && AllDigits(c) && c != []
    ensures var p, q := |w| + 1, |w| + 1 + |b|;
      FirstAt(s, p, q) && s[..p - 1] == w && s[p..q] == b && s[q + 1..] == c
  {
    var p, q := |w| + 1, |w| + 1 + |b|;
    assert forall i | 0 <= i < |w| :: s[i] == w[i];
    assert forall i | p <= i < q :: s[i] == b[i - p];
    assert forall i | q < i < |s| :: s[i] == c[i - q - 1];
  }

  lemma FirstFields(s: string, p: nat, q: nat)
    requires FirstAt(s, p, q)
    ensures WordFirst(s) == if 3 <= p - 1 <= 9 then Some(Fields(s[..p - 1], s[p..q], s[q + 1..])) else None
  {
    hide SkipDigits, SkipCapitals, IsSpace;
    SkipDigitsIs(s, p, q);
    SkipDigitsIs(s, q + 1, |s|);
    SkipCapitalsIs(s, 0, p - 1);
    CapitalsAreNoSeparators(s[0], s[p]);
    CapitalsAreNoSeparators(s[0], s[q + 1]);
    Separates();
    assert SkipSeparators(s, p, false) == p && SkipSeparators(s, p - 1, false) == p;
    assert SkipSeparators(s, q + 1, true) == q + 1 && SkipSeparators(s, q, true) == q + 1;
  }

  lemma FirstOnly(s: string, p: nat, q: nat)
    requires FirstAt(s, p, q)
    ensures NumericFields(s).None? && WordInside(s).None? && !AllDigits(s) && UpperAll(s) == s
  {
    hide SkipDigits, SkipCapitals, IsSpace;
    SkipDigitsIs(s, 0, 0);
    SkipDigitsIs(s, p, q);
    SkipCapitalsIs(s, 0, p - 1);
    CapitalsAreNoSeparators(s[0], s[p]);
    Separates();
    assert SkipSeparators(s, 0, false) == 0;
    assert SkipSeparators(s, p, true) == p && SkipSeparators(s, p - 1, true) == p;
    UpperKeeps(s);
    hide UpperAll;
  }

  lemma FirstShape(w: string, b: string, c: string)
    requires CapitalWord(w) && AllDigits(b) && b != [] && AllDigits(c) && c != []
    ensures var s := w + " " + b + " " + c;
      && NumericFields(s).None? && WordInside(s).None? && UpperAll(s) == s && !AllDigits(s)
      && WordFirst(s) == if 3 <= |w| <= 9 then Some(Fields(w, b, c)) else None
  {
    hide *;
    var s := w + " " + b + " " + c;
    FirstText(s, w, b, c);
    FirstFields(s, |w| + 1, |w| + 1 + |b|);
    FirstOnly(s, |w| + 1, |w| + 1 + |b|);
  }

  /** A word, digits, digits: the month, a day of one or two digits, a year of four. */
  lemma FirstExactly(w: string, b: string, c: string)
    requires CapitalWord(w) && AllDigits(b) && b != [] && AllDigits(c) && c != []
    ensures ParseSingle(w + " " + b + " " + c)
         == if 3 <= |w| <= 9 && |b| <= 2 && |c| == 4 then WordDate(c, w, b) else None
  {
    FirstShape(w, b, c);
    hide WordInside, WordFirst, NumericFields, UpperAll, WordDate;
  }

  /** A month is named by its first three letters. */
  lemma WordDateExactly(y: string, w: string, day: string)
    requires |w| >= 3
    ensures forall d: Date ::
      WordDate(y, w, day) == Some(d) <==> w[..3] == Name(d) && NatOf(y) == d.year && NatOf(day) == d.day
  {
    forall d: Date
      ensures WordDate(y, w, day) == Some(d) <==> w[..3] == Name(d) && NatOf(y) == d.year && NatOf(day) == d.day
    {
      MonthNoIs(w, d.month);
      NameIs(d);
      hide MonthNo, Name, NatOf;
    }
  }

  lemma MonthNoIs(w: string, m: nat)
    requires |w| >= 3 && 1 <= m <= 12
    ensures MonthNo(w) == m <==> w[..3] == MONTHS[m - 1]
  {
    MonthNumber(m);
    assert w[..3][..3] == w[..3];
    assert MonthNo(w) == MonthNo(w[..3]);
    hide MonthFrom;
  }

  // ---- every text ------------------------------------------------------------------------------------ //

  lemma StripTwice(raw: string)
    ensures Strip(Strip(raw)) == Strip(raw)
  {
    StripOfVisible(Strip(raw));
  }

  /** Formatting a formatted text changes nothing more, whatever the text. */
  lemma FormattingSettles(raw: string)
    ensures FmtDdMmmYyyy(FmtDdMmmYyyy(raw)) == FmtDdMmmYyyy(raw)
    ensures FmtDdMmYyyy(FmtDdMmYyyy(raw)) == FmtDdMmYyyy(raw)
  {
    var d := ParseDate(raw);
    StripTwice(raw);
    if d.Some? {
      WordedRoundTrip(d.value);
      NumericParses(d.value);
      PrintedVisible(d.value);
      StripOfVisible(DdMmmYyyy(d.value));
      StripOfVisible(DdMmYyyy(d.value));
    }
    hide ParseStripped;
    hide Strip;
    hide DdMmmYyyy;
    hide DdMmYyyy;
  }

  lemma PrintedVisible(d: Date)
    ensures var s := DdMmmYyyy(d); s != [] && !IsSpace(s[0]) && !IsSpace(s[|s| - 1])
    ensures var s := DdMmYyyy(d); s != [] && !IsSpace(s[0]) && !IsSpace(s[|s| - 1])
    ensures DdMmmYyyy(d) != DdMmYyyy(d)
  {
    TwoDigits(d.day);
    DigitsOf(d.year, 1);
    hide Digits;
    assert DdMmmYyyy(d)[2] == '-' && DdMmYyyy(d)[2] == '/';
  }

  /** One printed form can be made from the other, exactly when the year has four digits
      or the text is no date. */
  lemma FormsAgreeExactly(raw: string)
    ensures FmtDdMmYyyy(FmtDdMmmYyyy(raw)) == FmtDdMmYyyy(raw)
       <==> (ParseDate(raw).None? || ParseDate(raw).value.year >= 1000)
  {
    var d := ParseDate(raw);
    StripTwice(raw);
    if d.Some? {
      WordedRoundTrip(d.value);
      PrintedVisible(d.value);
      StripOfVisible(DdMmmYyyy(d.value));
    }
    hide ParseStripped;
    hide Strip;
    hide DdMmmYyyy;
    hide DdMmYyyy;
  }

  // ---- SWIFT tags ---------------------------------------------------------------------------------------- //

  /** YYMMDD. */
  function Tag(d: Date): string
    requires 2000 <= d.year <= 2099
  {
    Digits(d.year - 2000, 2) + Digits(d.month, 2) + Digits(d.day, 2)
  }

  lemma TagText(d: Date)
    requires 2000 <= d.year <= 2099
    ensures |Tag(d)| == 6 && AllDigits(Tag(d)) && ParseSingle(Tag(d)) == Some(d)
  {
    var y, m, dd := Digits(d.year - 2000, 2), Digits(d.month, 2), Digits(d.day, 2);
    TwoDigits(d.year - 2000);
    TwoDigits(d.month);
    TwoDigits(d.day);
    hide Digits;
    hide NumericFields;
    hide ParseWords;
    var s := Tag(d);
    assert s[..2] == y && s[2..4] == m && s[4..6] == dd;
  }

  lemma TagLeads(s: string, up: string, n: nat)
    requires n == 6 || n == 8
    requires |s| > n && SkipDigits(s, 0) == n
    requires |up| > n && SkipDigits(up, 0) == n && SkipCapitals(up, 0) == 0
    ensures NumericFields(s).Some? ==> |NumericFields(s).value.a| == n
    ensures ParseWords(up).None?
  {
    hide SkipDigits;
    hide SkipCapitals;
    hide SkipSeparators;
    hide WordDate;
  }

  lemma TagNotSingle(s: string, n: nat)
    requires n == 6 || n == 8
    requires |s| > n && SkipDigits(s, 0) == n && !AllDigits(s) && ParseWords(UpperAll(s)).None?
    requires NumericFields(s).Some? ==> |NumericFields(s).value.a| == n
    ensures ParseSingle(s).None?
  {
    hide SkipDigits, ParseWords, NumericFields, UpperAll, AllDigits;
  }

  /** Six or eight digits followed by anything else are no single date. */
  lemma TaggedNotSingle(s: string, n: nat)
    requires n == 6 || n == 8
    requires |s| > n && (forall i | 0 <= i < n :: IsDigit(s[i])) && !IsDigit(s[n])
    ensures ParseSingle(s).None?
  {
    hide SkipDigits, ParseWords, NumericFields;
    var up := UpperAll(s);
    SkipDigitsIs(s, 0, n);
    UpperDigit(s[n]);
    assert forall i | 0 <= i < n :: up[i] == s[i];
    SkipDigitsIs(up, 0, n);
    assert SkipCapitals(up, 0) == 0;
    TagLeads(s, up, n);
    TagNotSingle(s, n);
  }

  lemma UpperDigit(c: char)
    ensures IsDigit(Upper(c)) <==> IsDigit(c)
  {
  }

  predicate Loose(c: char) { IsSpace(c) || c == ',' || c == ':' || c == '-' }

  lemma {:induction false} LooseSkipped(s: string, from: nat, to: nat)
    requires from <= to <= |s| && (forall i | from <= i < to :: Loose(s[i])) && (to < |s| ==> !Loose(s[to]))
    ensures SkipLoose(s, from) == to
    decreases |s| - from
  {
    if from < to {
      LooseSkipped(s, from + 1, to);
    }
  }

  lemma LooseIsNoWord(c: char)
    requires Loose(c)
    ensures !IsDigit(c) && !IsWord(c)
  {
  }

  lemma CompositeParts(s: string, n: nat, k: nat)
    requires (n == 6 || n == 8) && n < k < |s| && SkipDigits(s, 0) == n && SkipLoose(s, n) == k
    requires !IsWord(s[n]) && '\n' !in s[k..] && !IsSpace(s[k]) && !IsSpace(s[|s| - 1])
    ensures ParseComposite(s)
         == var lead, rest := ParseSingle(s[..n]), ParseSingle(s[k..]);
            if lead.None? || rest.None? || rest == lead then lead else None
  {
    StripOfVisible(s[k..]);
    hide SkipDigits, SkipLoose, ParseSingle, Strip;
  }

  /** A tag of six or eight digits with an interpretation behind it stands, exactly when
      the interpretation is no date or the same one. */
  lemma CompositeExactly(tag: string, glue: string, rest: string)
    requires AllDigits(tag) && (|tag| == 6 || |tag| == 8)
    requires glue != [] && forall i | 0 <= i < |glue| :: Loose(glue[i])
    requires rest != [] && !Loose(rest[0]) && !IsSpace(rest[|rest| - 1]) && '\n' !in rest
    ensures ParseDate(tag + glue + rest)
         == if ParseSingle(rest).None? || ParseSingle(rest) == ParseSingle(tag) then ParseSingle(tag) else None
  {
    var s := tag + glue + rest;
    var n, k := |tag|, |tag| + |glue|;
    GluedText(s, tag, glue, rest);
    LooseIsNoWord(s[n]);
    SkipDigitsIs(s, 0, n);
    LooseSkipped(s, n, k);
    hide ParseSingle, IsDigit, IsSpace, IsWord, Loose, SkipDigits, SkipLoose, ParseComposite;
    TaggedNotSingle(s, n);
    CompositeParts(s, n, k);
    StripOfVisible(s);
    hide Strip;
  }

  lemma GluedText(s: string, tag: string, glue: string, rest: string)
    requires s == tag + glue + rest && AllDigits(tag) && tag != [] && glue != [] && rest != []
    requires (forall i | 0 <= i < |glue| :: Loose(glue[i])) && !Loose(rest[0]) && !IsSpace(rest[|rest| - 1])
    ensures var n, k := |tag|, |tag| + |glue|;
      && n < k < |s| && s[..n] == tag && s[k..] == rest && (forall i | 0 <= i < n :: IsDigit(s[i]))
      && (forall i | n <= i < k :: Loose(s[i])) && !Loose(s[k]) && !IsSpace(s[k])
      && !IsSpace(s[0]) && !IsSpace(s[|s| - 1]) && !IsDigit(s[n])
  {
    var n, k := |tag|, |tag| + |glue|;
    assert forall i | 0 <= i < n :: s[i] == tag[i];
    assert forall i | n <= i < k :: s[i] == glue[i - n];
    assert s[k] == rest[0] && s[|s| - 1] == rest[|rest| - 1] && s[0] == tag[0] && s[n] == glue[0];
  }

  /** "260405 2026 Apr 05", for every date of the years 2000 to 2099. */
  lemma TagStands(d: Date, glue: string, rest: string)
    requires 2000 <= d.year <= 2099
    requires glue != [] && forall i | 0 <= i < |glue| :: Loose(glue[i])
    requires rest != [] && !Loose(rest[0]) && !IsSpace(rest[|rest| - 1]) && '\n' !in rest
    ensures ParseDate(Tag(d) + glue + rest)
         == if ParseSingle(rest).None? || ParseSingle(rest) == Some(d) then Some(d) else None
  {
    TagText(d);
    hide *;
    CompositeExactly(Tag(d), glue, rest);
  }
}
