/** Strings as Qt sees them: sequences of UTF-16 code units
    (QChar), plus the digit conversions shared by the character-reference
    codecs. */
module Text {
  import opened Wrappers

  /** One UTF-16 code unit (a QChar). Surrogate halves are ordinary units. */
  newtype CodeUnit = c: int | 0 <= c < 0x1_0000

  /** A QString. */
  type UString = seq<CodeUnit>

  const AMP: CodeUnit := 0x26        // '&'
  const HASH: CodeUnit := 0x23       // '#'
  const SEMI: CodeUnit := 0x3B       // ';'
  const LOWER_X: CodeUnit := 0x78    // 'x'

  /** The code units of a plain ASCII literal. */
  function Ascii(s: string): (r: UString)
    requires forall i | 0 <= i < |s| :: s[i] as int < 0x80
    ensures |r| == |s|
    ensures forall i | 0 <= i < |s| :: r[i] as int == s[i] as int
  {
    seq(|s|, i requires 0 <= i < |s| => s[i] as int as CodeUnit)
  }

  /** Number of positions `i` in `s` where `p(s[i])` holds. */
  function CountWhere(s: UString, p: CodeUnit -> bool): (n: nat)
    ensures n <= |s|
  {
    if s == [] then 0 else (if p(s[0]) then 1 else 0) + CountWhere(s[1..], p)
  }

  predicate IsBase(base: nat) {
    base == 10 || base == 16
  }

  /** The value of one digit in the given base: '0'..'9', and for base 16
      also 'a'..'f' and 'A'..'F'. */
  function DigitValue(c: CodeUnit, base: nat): (r: Option<nat>)
    requires IsBase(base)
    ensures r.Some? ==> r.value < base
    ensures c == SEMI ==> r.None?
  {
    if 0x30 <= c <= 0x39 then Some(c as int - 0x30)
    else if base == 16 && 0x61 <= c <= 0x66 then Some(c as int - 0x61 + 10)
    else if base == 16 && 0x41 <= c <= 0x46 then Some(c as int - 0x41 + 10)
    else None
  }

  /** Reads a non-empty run of digits as a number; None when `s` is empty or
      holds a non-digit. */
  function ParseNum(s: UString, base: nat): (r: Option<nat>)
    requires IsBase(base)
    ensures r.Some? ==> s != []
    decreases |s|
  {
    if s == [] then None
    else
      var last := s[|s| - 1];
      match DigitValue(last, base)
      case None => None
      case Some(d) =>
        if |s| == 1 then Some(d)
        else
          match ParseNum(s[..|s| - 1], base)
          case None => None
          case Some(v) => Some(v * base + d)
  }

  /** A run that parses holds digits only. */
  lemma {:induction false} ParseNumAllDigits(s: UString, base: nat)
    requires IsBase(base)
    requires ParseNum(s, base).Some?
    ensures forall i | 0 <= i < |s| :: DigitValue(s[i], base).Some?
    decreases |s|
  {
    if |s| > 1 {
      var init := s[..|s| - 1];
      ParseNumAllDigits(init, base);
      forall i | 0 <= i < |s| ensures DigitValue(s[i], base).Some? {
        if i < |s| - 1 { assert s[i] == init[i]; }
      }
    }
  }

  /** The lower-case digit for `d`. */
  function DigitUnit(d: nat): (c: CodeUnit)
    requires d < 16
  {
    (if d < 10 then 0x30 + d else 0x61 + d - 10) as CodeUnit
  }

  lemma DigitRoundTrip(d: nat, base: nat)
    requires IsBase(base) && d < base
    ensures DigitValue(DigitUnit(d), base) == Some(d)
  {
  }

  /** The digits of `n` in `base`, most significant first, without leading
      zeros ("0" for zero), as QString::arg(n, 0, base) writes them. */
  function Digits(n: nat, base: nat): (r: UString)
    requires IsBase(base)
    ensures r != []
    ensures forall i | 0 <= i < |r| :: DigitValue(r[i], base).Some?
    decreases n
  {
    DigitRoundTrip(n % base, base);
    if n < base then [DigitUnit(n)] else Digits(n / base, base) + [DigitUnit(n % base)]
  }

  /** Parsing the digits of a number gives the number back. */
  lemma {:induction false} ParseDigits(n: nat, base: nat)
    requires IsBase(base)
    ensures ParseNum(Digits(n, base), base) == Some(n)
    decreases n
  {
    var s := Digits(n, base);
    DigitRoundTrip(n % base, base);
    if n >= base {
      ParseDigits(n / base, base);
      assert s[..|s| - 1] == Digits(n / base, base);
    }
  }
}
