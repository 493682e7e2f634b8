/**
 * JavaScript strings as the two screens see them.
 *
 * A JavaScript string is a sequence of UTF-16 code units: `.length` counts
 * code units, and a regular expression without the `u` flag tests code units
 * one at a time. The model therefore works on `seq<CodeUnit>` rather than on
 * Dafny's `string` (whose `char` is a Unicode scalar value).
 */
module Js {

  /** One UTF-16 code unit. */
  newtype CodeUnit = u: int | 0 <= u < 0x1_0000

  /** A JavaScript string value. */
  type JsString = seq<CodeUnit>

  /**
   * The code units matched by the regular-expression class `\s`: the
   * ECMAScript WhiteSpace set (TAB, VT, FF, SP, NBSP, ZWNBSP and the Unicode
   * space separators) together with the LineTerminator set (LF, CR, LS, PS).
   * None of them is an ASCII letter or digit.
   */
  predicate IsWhitespace(c: CodeUnit)
    ensures IsWhitespace(c) ==> !(0x30 <= c <= 0x39 || 0x41 <= c <= 0x5A || 0x61 <= c <= 0x7A)
  {
    || (0x09 <= c <= 0x0D)
    || c == 0x20
    || c == 0xA0
    || c == 0x1680
    || (0x2000 <= c <= 0x200A)
    || c == 0x2028
    || c == 0x2029
    || c == 0x202F
    || c == 0x205F
    || c == 0x3000
    || c == 0xFEFF
  }

  /** True when every character of `s` lies in the Basic Multilingual Plane. */
  predicate IsBmp(s: string) {
    forall i :: 0 <= i < |s| ==> s[i] as int < 0x1_0000
  }

  /**
   * The JavaScript value of a Dafny string literal whose characters are all in
   * the Basic Multilingual Plane: one code unit per character.
   */
  function Units(s: string): (r: JsString)
    requires IsBmp(s)
    ensures |r| == |s|
    ensures forall i :: 0 <= i < |s| ==> r[i] as int == s[i] as int
  {
    if |s| == 0 then [] else [s[0] as int as CodeUnit] + Units(s[1..])
  }
}
