/** Character classes and whitespace handling shared by the text modules. */
module Text {

  /** What `\s` and `str.strip` treat as white space. */
  predicate IsSpace(c: char) {
    var n := c as int;
    || 9 <= n <= 13 || 28 <= n <= 32 || n == 0x85 || n == 0xA0 || n == 0x1680
    || 0x2000 <= n <= 0x200A || n == 0x2028 || n == 0x2029 || n == 0x202F || n == 0x205F || n == 0x3000
  }

  predicate IsDigit(c: char) { '0' <= c <= '9' }

  predicate IsLetter(c: char) { 'a' <= c <= 'z' || 'A' <= c <= 'Z' }

  predicate IsWord(c: char) { IsDigit(c) || IsLetter(c) || c == '_' }

  predicate AllSpace(s: string) { forall i | 0 <= i < |s| :: IsSpace(s[i]) }

  predicate AllDigits(s: string) { forall i | 0 <= i < |s| :: IsDigit(s[i]) }

  function Lower(c: char): char {
    if 'A' <= c <= 'Z' then (c as int + 32) as char else c
  }

  function Upper(c: char): char {
    if 'a' <= c <= 'z' then (c as int - 32) as char else c
  }

  function UpperAll(s: string): string {
    seq(|s|, i requires 0 <= i < |s| => Upper(s[i]))
  }

  function LowerAll(s: string): string {
    seq(|s|, i requires 0 <= i < |s| => Lower(s[i]))
  }

  /** The first index from `pos` on that does not hold white space. */
  function SkipSpace(s: string, pos: nat): (k: nat)
    requires pos <= |s|
    ensures pos <= k <= |s| && (forall i | pos <= i < k :: IsSpace(s[i])) && (k < |s| ==> !IsSpace(s[k]))
    decreases |s| - pos
  {
    if pos < |s| && IsSpace(s[pos]) then SkipSpace(s, pos + 1) else pos
  }

  /** The first index from `pos` on that holds white space. */
  function SkipVisible(s: string, pos: nat): (k: nat)
    requires pos <= |s|
    ensures pos <= k <= |s| && (forall i | pos <= i < k :: !IsSpace(s[i])) && (k < |s| ==> IsSpace(s[k]))
    decreases |s| - pos
  {
    if pos < |s| && !IsSpace(s[pos]) then SkipVisible(s, pos + 1) else pos
  }

  /** Where the white space that ends `s[from..end]` begins. */
  function TrimEnd(s: string, from: nat, end: nat): (k: nat)
    requires from <= end <= |s|
    ensures from <= k <= end && (forall i | k <= i < end :: IsSpace(s[i])) && (from < k ==> !IsSpace(s[k - 1]))
    decreases end
  {
    if from < end && IsSpace(s[end - 1]) then TrimEnd(s, from, end - 1) else end
  }

  /** `str.strip`: the slice between the first and the last visible character. */
  function Strip(s: string): (r: string)
    ensures r == [] || (!IsSpace(r[0]) && !IsSpace(r[|r| - 1]))
  {
    var from := SkipSpace(s, 0);
    s[from..TrimEnd(s, from, |s|)]
  }

  lemma StripIsSlice(s: string) returns (before: string, after: string)
    ensures s == before + Strip(s) + after && AllSpace(before) && AllSpace(after)
  {
    var from := SkipSpace(s, 0);
    var end := TrimEnd(s, from, |s|);
    before, after := s[..from], s[end..];
    assert s == s[..end] + after && s[..end] == before + s[from..end];
  }

  lemma StripOfVisible(s: string)
    requires s == [] || (!IsSpace(s[0]) && !IsSpace(s[|s| - 1]))
    ensures Strip(s) == s
  {
  }

  function Keep(c: char): string { if IsSpace(c) then "" else [c] }

  /** The visible characters among the first `n`. */
  function VisibleTo(s: string, n: nat): string
    requires n <= |s|
  {
    if n == 0 then [] else VisibleTo(s, n - 1) + Keep(s[n - 1])
  }

  /** `re.sub(r"\s+", "", s)`. */
  function Squeeze(s: string): string { VisibleTo(s, |s|) }

  lemma {:induction false} VisibleOfPrefix(s: string, t: string, n: nat)
    requires n <= |s| && n <= |t| && forall i | 0 <= i < n :: s[i] == t[i]
    ensures VisibleTo(s, n) == VisibleTo(t, n)
  {
    if n > 0 {
      VisibleOfPrefix(s, t, n - 1);
    }
  }

  /** Appending characters appends the visible ones among them. */
  lemma {:induction false} VisibleOfSlice(s: string, from: nat, t: string, n: nat)
    requires n <= |t| && from + n <= |s| && forall i | 0 <= i < n :: s[from + i] == t[i]
    ensures VisibleTo(s, from + n) == VisibleTo(s, from) + VisibleTo(t, n)
  {
    if n > 0 {
      VisibleOfSlice(s, from, t, n - 1);
    }
  }

  lemma {:induction false} VisibleOfTail(a: string, b: string, n: nat)
    requires n <= |b|
    ensures VisibleTo(a + b, |a| + n) == Squeeze(a) + VisibleTo(b, n)
  {
    if n == 0 {
      VisibleOfPrefix(a + b, a, |a|);
    } else {
      VisibleOfTail(a, b, n - 1);
    }
  }

  lemma SqueezeConcat(a: string, b: string)
    ensures Squeeze(a + b) == Squeeze(a) + Squeeze(b)
  {
    VisibleOfTail(a, b, |b|);
  }

  lemma {:induction false} SqueezeSpace(s: string)
    requires AllSpace(s)
    ensures Squeeze(s) == []
  {
    SpaceInvisible(s, |s|);
  }

  lemma {:induction false} SpaceInvisible(s: string, n: nat)
    requires n <= |s| && forall i | 0 <= i < n :: IsSpace(s[i])
    ensures VisibleTo(s, n) == []
  {
    if n > 0 {
      SpaceInvisible(s, n - 1);
    }
  }

  lemma SqueezeStrip(s: string)
    ensures Squeeze(Strip(s)) == Squeeze(s)
  {
    var before, after := StripIsSlice(s);
    SqueezeConcat(before + Strip(s), after);
    SqueezeConcat(before, Strip(s));
    SqueezeSpace(before);
    SqueezeSpace(after);
  }
}
