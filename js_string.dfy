/** The two string operations of `String.prototype` the pages use, on strings of
    UTF-16 code units: `toLowerCase` (ASCII letters only) and `includes`. */
module JsString {
  import opened JsValues

  /** Lower-cases one code unit; only 'A'..'Z' (0x41..0x5A) are mapped. */
  function LowerUnit(c: CodeUnit): CodeUnit {
    if 0x41 <= c <= 0x5A then c + 0x20 else c
  }

  /** `s.toLowerCase()` restricted to ASCII letters. */
  function ToLowerCase(s: JsText): (r: JsText)
    ensures |r| == |s|
    ensures forall i :: 0 <= i < |s| ==> r[i] == LowerUnit(s[i])
  {
    seq(|s|, i requires 0 <= i < |s| => LowerUnit(s[i]))
  }

  /** `t` occurs in `s` starting at index `i`. */
  predicate OccursAt(s: JsText, t: JsText, i: int) {
    0 <= i && i + |t| <= |s| && s[i..i + |t|] == t
  }

  /** `s.includes(t)` when the search starts at index `from`. */
  function IncludesFrom(s: JsText, t: JsText, from: nat): (b: bool)
    ensures b <==> exists i :: from <= i && OccursAt(s, t, i)
    decreases |s| - from + 1
  {
    if from + |t| > |s| then false
    else if s[from..from + |t|] == t then
      assert OccursAt(s, t, from);
      true
    else
      IncludesFrom(s, t, from + 1)
  }

  /** `s.includes(t)`: `t` is a substring of `s`; the empty string is a substring of every string. */
  function Includes(s: JsText, t: JsText): (b: bool)
    ensures b <==> exists i :: OccursAt(s, t, i)
  {
    IncludesFrom(s, t, 0)
  }

  lemma IncludesEmpty(s: JsText)
    ensures Includes(s, [])
  {
  }
}
