/**
 * Character classes shared by name extraction and role suggestion.
 * Letters are ASCII only; whitespace is the fixed set of ASCII characters
 * for which Python's `str.isspace` holds (the set that both the regex class
 * `\s` and `str.split()` use on ASCII text).
 */
module Chars {

  predicate IsUpper(c: char) { 'A' <= c <= 'Z' }

  predicate IsLower(c: char) { 'a' <= c <= 'z' }

  /** Tab, line feed, vertical tab, form feed, carriage return (9-13),
      the four information separators (28-31) and the space (32). */
  predicate IsSpace(c: char)
  {
    c == ' ' || '\t' <= c <= '\r' || '\U{1C}' <= c <= '\U{1F}'
  }

  /** ASCII case folding, the part of `str.lower` this model covers. */
  function ToLower(c: char): (d: char)
    ensures IsUpper(c) ==> IsLower(d) && d as int - c as int == 32
    ensures !IsUpper(c) ==> d == c
    ensures !IsUpper(d)
    ensures IsSpace(d) <==> IsSpace(c)
  {
    if IsUpper(c) then (c as int + 32) as char else c
  }

  /** `text.lower()` on ASCII text: every character folded, nothing moved. */
  function Lower(s: string): (r: string)
    ensures |r| == |s|
    ensures forall i :: 0 <= i < |s| ==> r[i] == ToLower(s[i])
  {
    seq(|s|, i requires 0 <= i < |s| => ToLower(s[i]))
  }
}
