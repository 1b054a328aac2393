/**
 The fragment of JavaScript value semantics the route handlers rely on:
 optional request fields, truthiness of strings, the `||` fallback and
 `String.prototype.trim`.
 */
module Js {

  /** A value that may be `undefined`/`null` (None) or present (Some). */
  datatype Option<+T> = None | Some(value: T)

  /** JavaScript truthiness of an optional string: present and non-empty. */
  predicate Truthy(o: Option<string>)
  {
    o.Some? && |o.value| > 0
  }

  /** `a || b` on optional strings: `a` when it is truthy, `b` otherwise. */
  function Or(a: Option<string>, b: Option<string>): (r: Option<string>)
    ensures r == a || r == b
    ensures Truthy(r) <==> Truthy(a) || Truthy(b)
    ensures Truthy(a) ==> r == a
    ensures !Truthy(a) ==> r == b
  {
    if Truthy(a) then a else b
  }

  /**
   The characters `trim` removes: the WhiteSpace and LineTerminator
   productions of ECMAScript (section 12.2 and 12.3 of ECMA-262),
   with the Unicode space separators (category Zs) written out.
   */
  predicate IsWhitespace(c: char)
  {
    || c == '\t' || c == '\n' || c == '\U{B}' || c == '\U{C}' || c == '\r' || c == ' '
    || c == '\U{A0}' || c == '\U{1680}' || ('\U{2000}' <= c <= '\U{200A}')
    || c == '\U{2028}' || c == '\U{2029}' || c == '\U{202F}' || c == '\U{205F}'
    || c == '\U{3000}' || c == '\U{FEFF}'
  }

  /** Every character of `s` at a position in `[lo, hi)` is whitespace. */
  predicate BlankBetween(s: string, lo: int, hi: int)
  {
    forall i :: lo <= i < hi && 0 <= i < |s| ==> IsWhitespace(s[i])
  }

  /** Every character of `s` is whitespace (the empty string included). */
  predicate Blank(s: string)
  {
    BlankBetween(s, 0, |s|)
  }

  /** The position of the first non-whitespace character at or after `i`, or `|s|`. */
  function SkipLeading(s: string, i: nat): (n: nat)
    requires i <= |s| && BlankBetween(s, 0, i)
    ensures i <= n <= |s| && BlankBetween(s, 0, n)
    ensures n == |s| || !IsWhitespace(s[n])
    decreases |s| - i
  {
    if i == |s| || !IsWhitespace(s[i]) then i else SkipLeading(s, i + 1)
  }

  /** Walking back from `j` to no lower than `lo`: the end of the last non-whitespace run. */
  function SkipTrailing(s: string, lo: nat, j: nat): (m: nat)
    requires lo <= j <= |s| && BlankBetween(s, j, |s|)
    ensures lo <= m <= j && BlankBetween(s, m, |s|)
    ensures m == lo || !IsWhitespace(s[m - 1])
    decreases j
  {
    if j == lo || !IsWhitespace(s[j - 1]) then j else SkipTrailing(s, lo, j - 1)
  }

  /**
   `s.trim()`: the slice of `s` left after removing leading and trailing
   whitespace. The result is a contiguous slice `s[a..b]` with only
   whitespace outside it and no whitespace at either of its ends.
   */
  function Trim(s: string): (r: string)
    ensures exists a, b :: 0 <= a <= b <= |s| && r == s[a..b] && BlankBetween(s, 0, a) && BlankBetween(s, b, |s|)
    ensures r == [] || (!IsWhitespace(r[0]) && !IsWhitespace(r[|r| - 1]))
  {
    var a := SkipLeading(s, 0);
    var b := SkipTrailing(s, a, |s|);
    s[a..b]
  }

  /** `text.trim()` is falsy exactly when `text` consists of whitespace only. */
  lemma TrimEmptyIffBlank(s: string)
    ensures Trim(s) == [] <==> Blank(s)
  {
  }

  /** The test `!text.trim()`: true exactly when `text` is blank. */
  function TrimsToEmpty(s: string): (b: bool)
    ensures b <==> Blank(s)
  {
    TrimEmptyIffBlank(s);
    Trim(s) == []
  }
}
