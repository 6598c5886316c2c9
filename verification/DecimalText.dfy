/** Printing decimals and parsing untrusted numeric text.

    Digits, letters and word boundaries are those of ASCII. */
module DecimalText {
  import opened Options
  import opened Text
  import opened Decimals

  datatype Locale = NoHint | US | EU

  datatype Raw = Missing | Number(value: Dec) | Token(text: string)

  // ---- digit strings ----------------------------------------------------------------- //

  function DigitChar(d: nat): char
    requires d < 10
  {
    (d + '0' as int) as char
  }

  function DigitValue(c: char): nat { if IsDigit(c) then c as int - '0' as int else 0 }

  /** The number printed in the first `n` characters. */
  function NatTo(s: string, n: nat): nat
    requires n <= |s|
  {
    if n == 0 then 0 else 10 * NatTo(s, n - 1) + DigitValue(s[n - 1])
  }

  function NatOf(s: string): nat { NatTo(s, |s|) }

  /** At least `width` digits. */
  function Digits(n: nat, width: nat): (s: string)
    decreases n, width
  {
    if n < 10 && width <= 1 then [DigitChar(n)]
    else Digits(n / 10, if width > 0 then width - 1 else 0) + [DigitChar(n % 10)]
  }

  /** The characters among the first `n` that satisfy `p`. */
  function FilterTo(p: char -> bool, s: string, n: nat): string
    requires n <= |s|
  {
    if n == 0 then [] else FilterTo(p, s, n - 1) + (if p(s[n - 1]) then [s[n - 1]] else [])
  }

  function Filter(p: char -> bool, s: string): string { FilterTo(p, s, |s|) }

  function WithoutTo(s: string, c: char, n: nat): string
    requires n <= |s|
  {
    if n == 0 then [] else WithoutTo(s, c, n - 1) + (if s[n - 1] == c then [] else [s[n - 1]])
  }

  /** `s.replace(c, "")`. */
  function Without(s: string, c: char): string { WithoutTo(s, c, |s|) }

  /** `s.replace(c, d)`. */
  function Replace(s: string, c: char, d: char): string {
    seq(|s|, i requires 0 <= i < |s| => if s[i] == c then d else s[i])
  }

  function CountTo(s: string, c: char, n: nat): nat
    requires n <= |s|
  {
    if n == 0 then 0 else CountTo(s, c, n - 1) + (if s[n - 1] == c then 1 else 0)
  }

  function Count(s: string, c: char): nat { CountTo(s, c, |s|) }

  /** The last index of `c`, or -1. */
  function RFind(s: string, c: char): (k: int)
    ensures -1 <= k < |s| && (k >= 0 ==> s[k] == c)
    ensures forall i | k < i < |s| :: s[i] != c
  {
    if s == [] then -1
    else if s[|s| - 1] == c then |s| - 1
    else RFind(s[..|s| - 1], c)
  }

  /** The first index of `c`, or the length. */
  function Find(s: string, c: char, from: nat): (k: nat)
    requires from <= |s|
    ensures from <= k <= |s| && (k < |s| ==> s[k] == c)
    ensures forall i | from <= i < k :: s[i] != c
    decreases |s| - from
  {
    if from == |s| || s[from] == c then from else Find(s, c, from + 1)
  }

  // ---- printers ------------------------------------------------------------------------- //

  /** Thousands separators. */
  function Group(s: string): string {
    if |s| <= 3 then s else Group(s[..|s| - 3]) + "," + s[|s| - 3..]
  }

  function Sign(d: Dec): string { if d.neg then "-" else "" }

  /** `f"{q2(value):,.2f}"`. */
  function FmtThousands2(v: Dec): string {
    var q := Q2(v);
    Sign(q) + Group(WholeText(q.coef, 2)) + "." + FracText(q.coef, 2)
  }

  /** The digits before and behind the point when `k` places are decimals. */
  function WholeText(n: nat, k: nat): string { Digits(Quotient(n, Pow10(k)), 1) }

  function FracText(n: nat, k: nat): string { if k == 0 then [] else Digits(Remainder(n, Pow10(k)), k) }

  /** `f"{value:f}"`. */
  function FmtFixed(v: Dec): string {
    if v.exp >= 0 then Sign(v) + Digits(Times(v.coef, Pow10(v.exp)), 1)
    else Sign(v) + WholeText(v.coef, 0 - v.exp) + "." + FracText(v.coef, 0 - v.exp)
  }

  /** `s.rstrip(c)`. */
  function RStrip(s: string, c: char): (r: string)
    ensures r <= s && (r == [] || r[|r| - 1] != c)
    ensures forall i | |r| <= i < |s| :: s[i] == c
  {
    if s != [] && s[|s| - 1] == c then RStrip(s[..|s| - 1], c) else s
  }

  function Trim(v: Dec): string { TrimZeros(FmtFixed(v)) }

  function TrimZeros(s: string): string {
    var t := if '.' in s then RStrip(RStrip(s, '0'), '.') else s;
    if t == [] then "0" else t
  }

  function TrimMin1(v: Dec): string {
    var s := Trim(v);
    if '.' in s then s else s + ".0"
  }

  // ---- what stands around the number ---------------------------------------------------- //

  const CURRENCIES: seq<string> := ["rs", "inr", "npr", "usd", "aed", "eur", "gbp", "sgd", "us$", "u.s."]

  function WordAt(s: string, k: int): bool { 0 <= k < |s| && IsWord(s[k]) }

  /** `\b` between the characters k - 1 and k. */
  predicate Boundary(s: string, k: nat) { WordAt(s, k) != WordAt(s, k - 1) }

  predicate CurrencyAt(s: string, k: nat, word: string) {
    k + |word| <= |s| && LowerAll(s[k..k + |word|]) == word && Boundary(s, k + |word|)
  }

  /** The first currency word that stands at `k`, by its length; 0 if none does. */
  function CurrencyLen(s: string, k: nat, words: seq<string>): (n: nat)
    ensures n > 0 ==> k + n <= |s|
  {
    if words == [] then 0
    else if words[0] != [] && CurrencyAt(s, k, words[0]) then |words[0]|
    else CurrencyLen(s, k, words[1..])
  }

  function DropCurrency(s: string): string {
    var k := SkipSpace(s, 0);
    var n := CurrencyLen(s, k, CURRENCIES);
    if n == 0 then s
    else
      var end := k + n;
      var dotted := if end < |s| && s[end] == '.' then end + 1 else end;
      s[SkipSpace(s, dotted)..]
  }

  predicate NotSymbol(c: char) {
    c != '\U{20B9}' && c != '$' && c != '\U{20AC}' && c != '\U{A3}'
  }

  function DropSymbols(s: string): string {
    Filter(NotSymbol, s)
  }

  /** "/-" and "/=" at the end. */
  function DropRupeesOnly(s: string): string {
    var e := TrimEnd(s, 0, |s|);
    if e == 0 || (s[e - 1] != '-' && s[e - 1] != '=') then s
    else
      var f := TrimEnd(s, 0, e - 1);
      if f == 0 || s[f - 1] != '/' then s else s[..TrimEnd(s, 0, f - 1)]
  }

  predicate DrOrCr(w: string) { w == "dr" || w == "cr" }

  /** "Dr" and "Cr" at the end. */
  function DropDrCr(s: string): string {
    var e := TrimEnd(s, 0, |s|);
    var f := if e > 0 && s[e - 1] == '.' then e - 1 else e;
    if f < 2 || !DrOrCr(LowerAll(s[f - 2..f])) || WordAt(s, f - 3) || WordAt(s, f) then s
    else s[..TrimEnd(s, 0, f - 2)]
  }

  // ---- separators --------------------------------------------------------------------------- //

  /** Fullmatch of digits{1,3}(sep digits{3})*: read from the right. */
  predicate Grouped(s: string, sep: char) {
    if |s| <= 3 then |s| >= 1 && AllDigits(s)
    else |s| >= 5 && s[|s| - 4] == sep && AllDigits(s[|s| - 3..]) && Grouped(s[..|s| - 4], sep)
  }

  /** ... with at least `n` groups after the first. */
  predicate GroupedAtLeast(s: string, sep: char, n: nat) {
    |s| > 4 * n && Grouped(s, sep)
  }

  /** A digit, white space, a digit. */
  predicate SplitDigitsAt(s: string, i: nat) {
    i + 2 < |s| && IsDigit(s[i]) && IsSpace(s[i + 1])
    && SkipSpace(s, i + 1) < |s| && IsDigit(s[SkipSpace(s, i + 1)])
  }

  predicate SplitDigits(s: string) { exists i | 0 <= i < |s| :: SplitDigitsAt(s, i) }

  /** digits{1,3}(blank digits{3})+ and perhaps one or two decimals. */
  predicate SpaceThousands(core: string) {
    GroupedAtLeast(core, ' ', 1) || SpaceThousandsWith(core, 1) || SpaceThousandsWith(core, 2)
  }

  predicate SpaceThousandsWith(core: string, decimals: nat) {
    var point := |core| - decimals - 1;
    && point >= 0 && (core[point] == '.' || core[point] == ',')
    && AllDigits(core[point + 1..]) && GroupedAtLeast(core[..point], ' ', 1)
  }

  function CollapseBlanks(s: string, n: nat): string
    requires n <= |s|
  {
    if n == 0 then []
    else if !IsSpace(s[n - 1]) then CollapseBlanks(s, n - 1) + [s[n - 1]]
    else if n > 1 && IsSpace(s[n - 2]) then CollapseBlanks(s, n - 1)
    else CollapseBlanks(s, n - 1) + " "
  }

  predicate InNumbers(c: char) { IsDigit(c) || IsSpace(c) || c == '.' || c == ',' || c == '-' }

  /** Spaces between digits are thousands separators, or two numbers jammed into
      one token, which must not be joined. */
  function JoinSpaces(s: string): Option<string> {
    if !SplitDigits(s) then Some(s)
    else
      var core := Filter(InNumbers, s);
      if SpaceThousands(Strip(CollapseBlanks(core, |core|))) then Some(Squeeze(s)) else None
  }

  /** `re.match(r"\s*-", s)`. */
  function Minus(s: string): string {
    var k := SkipSpace(s, 0);
    if k < |s| && s[k] == '-' then "-" else ""
  }

  predicate DigitOrSeparator(c: char) { IsDigit(c) || c == '.' || c == ',' }

  /** `re.sub(r"[^\d.,]", "", s)`. */
  function DigitsAndSeparators(s: string): string { Filter(DigitOrSeparator, s) }

  /** European digits and separators as a plain decimal, if they are that. */
  function European(digits: string): Option<string> {
    var comma := Find(digits, ',', 0);
    if GroupedAtLeast(digits, '.', 1) then Some(Without(digits, '.'))
    else if comma < |digits| && 1 <= |digits| - comma - 1 <= 6
            && AllDigits(digits[comma + 1..]) && Grouped(digits[..comma], '.') then
      Some(Without(digits[..comma], '.') + "." + digits[comma + 1..])
    else None
  }

  function ApplyLocale(s: string, locale: Locale): string {
    if locale != EU then s
    else match European(DigitsAndSeparators(s))
      case None => s
      case Some(t) => Minus(s) + t
  }

  /** A digit, a comma, and exactly one or two digits, at `i`. */
  predicate CommaDecimalAt(s: string, i: nat) {
    && i + 2 < |s| && IsDigit(s[i]) && s[i + 1] == ',' && IsDigit(s[i + 2])
    && (!WordAt(s, i + 3) || (IsDigit(s[i + 3]) && !WordAt(s, i + 4)))
  }

  predicate CommaDecimal(s: string) { exists i | 0 <= i < |s| :: CommaDecimalAt(s, i) }

  /** Grouped by `sep`, then `mark`, then two digits. */
  predicate Corrupted(digits: string, sep: char, mark: char) {
    && |digits| >= 3 && digits[|digits| - 3] == mark
    && AllDigits(digits[|digits| - 2..]) && GroupedAtLeast(digits[..|digits| - 3], sep, 1)
  }

  function ApplySeparators(s: string): string {
    if CommaDecimal(s) && Count(s, ',') == 1 && RFind(s, '.') < RFind(s, ',') then
      Replace(Without(s, '.'), ',', '.')
    else
      var digits := DigitsAndSeparators(s);
      if Corrupted(digits, '.', '.') then
        Minus(s) + Without(digits[..|digits| - 3], '.') + "." + digits[|digits| - 2..]
      else if GroupedAtLeast(digits, '.', 2) then Minus(s) + Without(digits, '.')
      else if Corrupted(digits, ',', ',') then
        Minus(s) + Without(digits[..|digits| - 3], ',') + "." + digits[|digits| - 2..]
      else s
  }

  /** Digits with at most one point. */
  function Magnitude(neg: bool, body: string): Option<Dec> {
    var point := Find(body, '.', 0);
    var whole := body[..point];
    var frac := if point < |body| then body[point + 1..] else [];
    if whole + frac == [] || !AllDigits(whole) || !AllDigits(frac) then None
    else Some(Dec(neg, NatOf(whole + frac), 0 - |frac|))
  }

  /** `Decimal(s)` on what `_CLEAN` leaves. */
  function DecimalOf(s: string): Option<Dec> {
    if s != [] && s[0] == '-' then Magnitude(true, s[1..]) else Magnitude(false, s)
  }

  predicate InDecimal(c: char) { IsDigit(c) || c == '.' || c == '-' }

  function Cleaned(s: string): string {
    var t := Filter(InDecimal, s);
    if t != [] && t[|t| - 1] == '-' && t[0] != '-' then RStrip(t, '-') else t
  }

  function Convert(t: string): Option<Dec> {
    if t == "" || t == "-" || t == "." || t == "-." then None else DecimalOf(t)
  }

  /** From the separators on. */
  function ParseNumeral(s: string, locale: Locale): Option<Dec> {
    Convert(Cleaned(ApplySeparators(ApplyLocale(s, locale))))
  }

  function DropDecoration(s: string): string {
    Strip(DropDrCr(DropRupeesOnly(DropSymbols(DropCurrency(s)))))
  }

  /** From the currency words on. */
  function ParseInner(s: string, locale: Locale): Option<Dec> {
    var inner := DropDecoration(s);
    if inner == [] then None
    else match JoinSpaces(inner)
      case None => None
      case Some(joined) => ParseNumeral(joined, locale)
  }

  /** "(1,200)" is a negative. */
  predicate Accounting(s: string) { |s| >= 2 && s[0] == '(' && s[|s| - 1] == ')' }

  function ParseToken(text: string, locale: Locale): Option<Dec> {
    var s := Strip(text);
    if s == [] then None
    else
      match ParseInner(if Accounting(s) then s[1..|s| - 1] else s, locale)
      case None => None
      case Some(d) => Some(if Accounting(s) then Negate(d) else d)
  }

  function ParseDecimal(raw: Raw, locale: Locale): Option<Dec> {
    match raw
    case Missing => None
    case Number(value) => Some(value)
    case Token(text) => ParseToken(text, locale)
  }
}
