/** Character classes and string helpers standing in for the parts of Python's
    `re` module and `str` methods that the assistant relies on. Only the ASCII
    repertoire is modelled: `\d`, `\s`, `\w` and `str.lower()` are given their
    ASCII meaning. */
module Text {

  /** `\d`: an ASCII decimal digit. */
  predicate IsDigit(c: char) { '0' <= c <= '9' }

  /** `\s` and `str.isspace()`: tab, line feed, vertical tab, form feed,
      carriage return, the four information separators and space. */
  predicate IsSpace(c: char) { c == ' ' || '\t' <= c <= '\r' || '\U{1C}' <= c <= '\U{1F}' }

  /** `[a-z0-9]`. */
  predicate IsLowerAlnum(c: char) { 'a' <= c <= 'z' || IsDigit(c) }

  /** `\w`: a letter, a digit or the underscore. */
  predicate IsWordChar(c: char) { 'a' <= c <= 'z' || 'A' <= c <= 'Z' || IsDigit(c) || c == '_' }


  /** `str.lower()` on one character. */
  function Lower(c: char): char { if 'A' <= c <= 'Z' then (c as int + 32) as char else c }

  /** `str.lower()`. */
  function LowerStr(s: string): (r: string)
    ensures |r| == |s|
    ensures forall i :: 0 <= i < |s| ==> r[i] == Lower(s[i])
  {
    seq(|s|, i requires 0 <= i < |s| => Lower(s[i]))
  }

  /** Python's `a.lower() == b.lower()`. */
  predicate EqualIgnoringCase(a: string, b: string) { LowerStr(a) == LowerStr(b) }

  predicate OccursAt(needle: string, hay: string, i: int)
  {
    0 <= i && i + |needle| <= |hay| && hay[i..i + |needle|] == needle
  }

  /** Python's `needle in hay` on strings: a contiguous occurrence. The empty
      string occurs in every string. */
  predicate Contains(needle: string, hay: string)
  {
    exists i | 0 <= i <= |hay| - |needle| :: OccursAt(needle, hay, i)
  }

  /** Python's `needle.lower() in hay.lower()`. */
  predicate ContainsIgnoringCase(needle: string, hay: string)
  {
    Contains(LowerStr(needle), LowerStr(hay))
  }

  /** Index of the first `c` in `s`, or `|s|` when there is none. */
  function IndexOf(s: string, c: char): (r: nat)
    ensures r <= |s|
    ensures r < |s| ==> s[r] == c
    ensures forall j :: 0 <= j < r ==> s[j] != c
  {
    if s == [] then 0
    else if s[0] == c then 0
    else 1 + IndexOf(s[1..], c)
  }

  /** Length of the longest prefix of `s` whose characters all satisfy `p`. */
  function Span(s: string, p: char -> bool): (r: nat)
    ensures r <= |s|
    ensures forall j :: 0 <= j < r ==> p(s[j])
    ensures r < |s| ==> !p(s[r])
  {
    if s == [] || !p(s[0]) then 0
    else 1 + Span(s[1..], p)
  }
}
