/** The string operations of ECMAScript the models share, on sequences of Unicode scalar values. */
module Text {
  /** The `\s` class of ECMAScript. */
  predicate IsSpace(c: char) {
    || c == ' ' || '\U{0009}' <= c <= '\U{000D}' || c == '\U{00A0}' || c == '\U{1680}'
    || '\U{2000}' <= c <= '\U{200A}' || c == '\U{2028}' || c == '\U{2029}' || c == '\U{202F}' || c == '\U{205F}'
    || c == '\U{3000}' || c == '\U{FEFF}'
  }

  predicate EndsInSpace(t: string) {
    t != "" && IsSpace(t[|t| - 1])
  }

  /** Case folding of a regular expression with the flag `i`, for ASCII letters. */
  function Lower(c: char): char {
    if 'A' <= c <= 'Z' then ((c as int) + 32) as char else c
  }

  function TrimEnd(t: string): (r: string)
    ensures r <= t && !EndsInSpace(r)
  {
    if EndsInSpace(t) then TrimEnd(t[..|t| - 1]) else t
  }

  /** Only spaces are trimmed off. */
  lemma {:induction false} TrimEndDropsSpaces(t: string)
    ensures forall i :: |TrimEnd(t)| <= i < |t| ==> IsSpace(t[i])
    decreases |t|
  {
    if EndsInSpace(t) {
      TrimEndDropsSpaces(t[..|t| - 1]);
    }
  }

  function TrimStart(t: string): (r: string)
    ensures |r| <= |t| && r == t[|t| - |r|..] && (r != "" ==> !IsSpace(r[0]))
  {
    if t != "" && IsSpace(t[0]) then TrimStart(t[1..]) else t
  }

  function Trim(t: string): (r: string)
    ensures r != "" ==> !IsSpace(r[0]) && !IsSpace(r[|r| - 1])
  {
    TrimEnd(TrimStart(t))
  }

  /** `toLowerCase`, exact for what it can turn into ASCII: besides the capital letters those are the Kelvin sign
      and the dotted capital I. */
  function LowerCase(c: char): string {
    if c == '\U{212A}' then ['k'] else if c == '\U{0130}' then ['i', '\U{0307}'] else [Lower(c)]
  }

  function ToLower(t: string): string {
    if t == "" then "" else LowerCase(t[0]) + ToLower(t[1..])
  }

  function ReplaceChar(t: string, from: char, to: char): (r: string)
    ensures |r| == |t| && forall i :: 0 <= i < |t| ==> r[i] == if t[i] == from then to else t[i]
  {
    seq(|t|, i requires 0 <= i < |t| => if t[i] == from then to else t[i])
  }

  predicate Contains(t: string, part: string) {
    part <= t || (t != "" && Contains(t[1..], part))
  }
}
