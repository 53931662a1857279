/**
 * Text as NSString sees it: a sequence of UTF-16 code units. Every length,
 * offset and NSRange in the string catalog counts these units, so the model
 * does too. Also the Option and Result wrappers and the few ASCII code units
 * the catalog looks at.
 */
module Utf16 {

  datatype Option<+T> = None | Some(value: T) {
    function GetOr(default: T): T {
      match this
      case Some(v) => v
      case None => default
    }
  }

  datatype Result<+T, +E> = Ok(value: T) | Err(error: E)

  /** One UTF-16 code unit (`unichar`, what `NSString.character(at:)` returns). */
  type CodeUnit = x: int | 0 <= x < 0x1_0000

  /** A Swift `String` bridged to `NSString`. */
  type Text = seq<CodeUnit>

  /** A Dafny string literal made of ASCII characters, as UTF-16 code units. */
  function Ascii(s: string): (t: Text)
    requires forall i | 0 <= i < |s| :: s[i] as int < 128
    ensures |t| == |s|
    ensures forall i | 0 <= i < |s| :: t[i] == s[i] as int
  {
    seq(|s|, i requires 0 <= i < |s| => s[i] as int)
  }

  const Dollar: CodeUnit := 0x24
  const Percent: CodeUnit := 0x25
  const Hyphen: CodeUnit := 0x2D
  const DigitZero: CodeUnit := 0x30
  const DigitNine: CodeUnit := 0x39
  const AtSign: CodeUnit := 0x40
  const Underscore: CodeUnit := 0x5F
  const LowerD: CodeUnit := 0x64
  const LowerF: CodeUnit := 0x66

  predicate IsAsciiDigit(c: CodeUnit) {
    DigitZero <= c <= DigitNine
  }

  predicate IsAsciiUpper(c: CodeUnit) {
    0x41 <= c <= 0x5A
  }

  /** The value of a run of ASCII digits, read most significant digit first. */
  function DecimalValue(digits: Text): (n: nat)
    requires forall i | 0 <= i < |digits| :: IsAsciiDigit(digits[i])
    decreases |digits|
  {
    if digits == [] then 0
    else
      var last := digits[|digits| - 1];
      assert IsAsciiDigit(last);
      10 * DecimalValue(digits[..|digits| - 1]) + (last - DigitZero)
  }

  /** ASCII case folding: `A`..`Z` become `a`..`z`, every other unit is kept. */
  function LowercasedAscii(t: Text): (r: Text)
    ensures |r| == |t|
    ensures forall i | 0 <= i < |t| :: r[i] == (if IsAsciiUpper(t[i]) then t[i] + 0x20 else t[i])
  {
    seq(|t|, i requires 0 <= i < |t| => if IsAsciiUpper(t[i]) then t[i] + 0x20 else t[i])
  }

  /** The offset of the first occurrence of `c` in `t`, if any. */
  function FirstIndexOf(t: Text, c: CodeUnit): (r: Option<nat>)
    ensures r.Some? ==> r.value < |t| && t[r.value] == c
    ensures r.Some? ==> forall i | 0 <= i < r.value :: t[i] != c
    ensures r.None? ==> forall i | 0 <= i < |t| :: t[i] != c
    decreases |t|
  {
    if t == [] then None
    else if t[0] == c then Some(0)
    else match FirstIndexOf(t[1..], c)
      case Some(k) => Some(k + 1)
      case None => None
  }

  /**
   * `t` cut just before the first `c`, or all of `t` when it has no `c`
   * (`range(of:)` followed by `substring(to:)`).
   */
  function TruncatedAt(t: Text, c: CodeUnit): (r: Text)
    ensures |r| <= |t| && r == t[..|r|]
    ensures forall i | 0 <= i < |r| :: r[i] != c
    ensures |r| < |t| ==> t[|r|] == c
  {
    match FirstIndexOf(t, c)
    case Some(k) => t[..k]
    case None => t
  }
}
