/** JavaScript values the model needs: optional values (`null`/`undefined` as None),
    completions that may throw, and the truthiness tests used by `||`, `&&` and `filter(Boolean)`. */
module JsValues {

  /** An optional value: None stands for `null` or `undefined`. */
  datatype Option<+T> = None | Some(value: T)

  /** The completion of an expression that may throw a `TypeError`
      (reading a property of `undefined`). */
  datatype Completion<+T> = Normal(value: T) | ThrowTypeError

  /** A UTF-16 code unit, the element of a JavaScript string. */
  newtype CodeUnit = x: int | 0 <= x < 0x1_0000

  /** A JavaScript string: a sequence of UTF-16 code units. `length`, indices and
      `slice` count code units, and a string may hold a lone surrogate. */
  type JsText = seq<CodeUnit>

  /** The code units of a literal written in the Basic Multilingual Plane, where
      each character is one code unit (all literals on the pages are ASCII). */
  function BmpText(s: string): (r: JsText)
    ensures |r| == |s|
  {
    seq(|s|, i requires 0 <= i < |s| => (s[i] as int % 0x1_0000) as CodeUnit)
  }

  /** Truthiness of a possibly missing string: missing and "" are falsy. */
  predicate TruthyString(s: Option<JsText>) {
    s.Some? && s.value != []
  }

  /** Truthiness of a possibly missing number: missing and 0 are falsy
      (NaN never arises in this model). */
  predicate TruthyNumber(n: Option<int>) {
    n.Some? && n.value != 0
  }

  /** `xs?.length || 0` */
  function LengthOrZero<T>(xs: Option<seq<T>>): nat {
    if xs.Some? then |xs.value| else 0
  }

  function Min(a: int, b: int): int {
    if a <= b then a else b
  }
}
