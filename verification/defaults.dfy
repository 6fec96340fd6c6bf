/** Optional values and the JavaScript `||` defaulting used by the stores and the coordinator. */
module Defaults {

  /** A field that may be missing from a JSON object (or is `undefined`). */
  datatype Option<T> = None | Some(value: T)

  /** JavaScript truthiness of an optional text field: a missing field and "" are falsy. */
  predicate Truthy(v: Option<string>) {
    v.Some? && v.value != ""
  }

  /** `v || fallback` on an optional text field. */
  function OrText(v: Option<string>, fallback: string): string {
    if Truthy(v) then v.value else fallback
  }

  /** `v || fallback` on an optional number: a missing field and 0 are falsy. */
  function OrNumber(v: Option<int>, fallback: int): int {
    if v.Some? && v.value != 0 then v.value else fallback
  }

  /** `v || false` on an optional boolean. */
  function OrFalse(v: Option<bool>): bool {
    v.Some? && v.value
  }

  /**
   * A JSON value as `JSON.parse` yields it, as far as `||` and `'' + v` can tell values apart:
   * numbers are safe integers and `JObject` is any non-array object.
   */
  datatype Json = JNull | JBool(flag: bool) | JNumber(n: SafeInt) | JString(text: string) | JObject

  /** `Number.MAX_SAFE_INTEGER`, 2^53 - 1. */
  const MaxSafeInteger := 0x1F_FFFF_FFFF_FFFF

  /**
   * The integers a JavaScript number holds exactly; JavaScript prints each of them as its plain
   * decimal digits, never in exponent form.
   */
  type SafeInt = n: int | -MaxSafeInteger <= n <= MaxSafeInteger

  /** JavaScript truthiness of a parsed value: `null`, `false`, `0` and `""` are falsy. */
  predicate JsTruthy(v: Json) {
    match v
    case JNull => false
    case JBool(b) => b
    case JNumber(n) => n != 0
    case JString(t) => t != ""
    case JObject => true
  }

  /** Decimal digits of a natural number, the way JavaScript prints a safe integer. */
  function Digits(n: nat): (r: string)
    ensures |r| > 0
    decreases n
  {
    var d := [(('0' as int) + n % 10) as char];
    if n < 10 then d else Digits(n / 10) + d
  }

  /** `'' + v`: the text JavaScript converts a parsed value to. */
  function JsText(v: Json): string {
    match v
    case JNull => "null"
    case JBool(b) => if b then "true" else "false"
    case JNumber(n) => if n < 0 then "-" + Digits(-n) else Digits(n)
    case JString(t) => t
    case JObject => "[object Object]"
  }

  /** The field is present with a truthy value. */
  predicate Given(v: Option<Json>) {
    v.Some? && JsTruthy(v.value)
  }

  /** `v || fallback` on a parsed field, then converted to text. */
  function OrJson(v: Option<Json>, fallback: string): string {
    if Given(v) then JsText(v.value) else fallback
  }

  /**
   * A field forwarded to a store that applies `field || default`: the falsy values reach the
   * store as missing, and a truthy one as its text.
   */
  function Forwarded(v: Option<Json>): (r: Option<string>)
    ensures Given(v) ==> r == Some(JsText(v.value)) && Truthy(r)
    ensures !Given(v) ==> !Truthy(r)
  {
    if Given(v) then TruthyTextNonEmpty(v.value); Some(JsText(v.value)) else None
  }

  /** 10 to the power `k`. */
  function Pow10(k: nat): (r: nat)
    ensures r >= 1
  {
    if k == 0 then 1 else 10 * Pow10(k - 1)
  }

  /** A number below 10^k has at most k digits. */
  lemma {:induction false} DigitsBound(n: nat, k: nat)
    requires 1 <= k && n < Pow10(k)
    ensures |Digits(n)| <= k
    decreases k
  {
    if k == 1 {
      assert Pow10(1) == 10;
    } else if n >= 10 {
      assert n / 10 < Pow10(k - 1);
      DigitsBound(n / 10, k - 1);
    }
  }

  /** The text of a number has at most 17 characters: a sign and 16 digits. */
  lemma NumberTextShort(n: SafeInt)
    ensures |JsText(JNumber(n))| <= 17
  {
    assert Pow10(8) == 100_000_000;
    assert Pow10(16) == 10_000_000_000_000_000;
    if n < 0 {
      DigitsBound(-n, 16);
    } else {
      DigitsBound(n, 16);
    }
  }

  /** A truthy value's text is never empty, so `'' + (v || fallback)` is empty only if `fallback` is. */
  lemma TruthyTextNonEmpty(v: Json)
    requires JsTruthy(v)
    ensures JsText(v) != ""
  {
    match v
    case JNumber(n) =>
      if n < 0 {
        assert JsText(v) == "-" + Digits(-n);
      }
    case _ =>
  }
}
