/** `Number(text)` and `String(number)` for the counter values the gallery
    keeps in local storage: non-negative integers written in decimal. */
module JsNumbers {

  /** A JavaScript number as far as the counters use it: a non-negative integer, or NaN. */
  datatype Num = Finite(n: nat) | NaN

  function DigitChar(d: nat): (c: char)
    requires d < 10
    ensures '0' <= c <= '9' && c as int - '0' as int == d
  {
    ('0' as int + d) as char
  }

  predicate IsDigits(s: string) {
    |s| > 0 && forall i :: 0 <= i < |s| ==> '0' <= s[i] <= '9'
  }

  /** The value of a string of decimal digits. */
  function DigitsValue(s: string): nat
    requires forall i :: 0 <= i < |s| ==> '0' <= s[i] <= '9'
  {
    if s == [] then 0
    else DigitsValue(s[..|s| - 1]) * 10 + (s[|s| - 1] as int - '0' as int)
  }

  /** `String(n)` for a non-negative integer: its decimal digits, without leading zeros. */
  function NatToString(n: nat): (r: string)
    ensures IsDigits(r)
    ensures |r| > 1 ==> r[0] != '0'
  {
    if n < 10 then [DigitChar(n)]
    else NatToString(n / 10) + [DigitChar(n % 10)]
  }

  /** `Number(s)`: a string of decimal digits denotes its value; any other text is NaN. */
  function ToNumber(s: string): Num {
    if IsDigits(s) then Finite(DigitsValue(s)) else NaN
  }

  /** `String(x)`. */
  function NumToString(x: Num): string {
    match x
    case Finite(n) => NatToString(n)
    case NaN => "NaN"
  }

  /** `x + 1`: NaN stays NaN. */
  function Increment(x: Num): Num {
    match x
    case Finite(n) => Finite(n + 1)
    case NaN => NaN
  }

  /** Reading back what `String` wrote gives the same number. */
  lemma {:induction false} NumberOfString(x: Num)
    ensures ToNumber(NumToString(x)) == x
  {
    match x
    case NaN =>
    case Finite(n) => DigitsOfNat(n);
  }

  lemma {:induction false} DigitsOfNat(n: nat)
    ensures DigitsValue(NatToString(n)) == n
    decreases n
  {
    var s := NatToString(n);
    if n >= 10 {
      DigitsOfNat(n / 10);
      assert s[..|s| - 1] == NatToString(n / 10);
    }
  }
}
