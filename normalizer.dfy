/**
 * The value normaliser `safe_float`: a cell value becomes a float or null,
 * and nothing it is given makes it fail. Text goes through the syntax that
 * Python's `float()` accepts for strings: surrounding white space, an
 * optional sign, then a decimal literal with optional `_` digit grouping and
 * exponent, or one of `inf`, `infinity`, `nan` in any letter case.
 */
module Normalizer {
  import opened Cells

  predicate IsDigit(ch: char) { '0' <= ch <= '9' }

  /**
   * The characters `float()` strips from either end of its text: the ASCII
   * controls tab to carriage return, the space, and the non-ASCII white
   * space of `str.isspace`. The ASCII separators U+001C to U+001F count as
   * white space for `str.isspace` but are not stripped.
   */
  predicate IsSpace(ch: char) {
    var n := ch as int;
    || 0x09 <= n <= 0x0D
    || n == 0x20
    || n == 0x85 || n == 0xA0 || n == 0x1680
    || 0x2000 <= n <= 0x200A
    || n == 0x2028 || n == 0x2029 || n == 0x202F || n == 0x205F || n == 0x3000
  }

  predicate IsSign(ch: char) { ch == '+' || ch == '-' }

  predicate NoDigit(s: string) {
    forall i :: 0 <= i < |s| ==> !IsDigit(s[i])
  }

  function TrimStart(s: string): (t: string)
    ensures |t| <= |s|
  {
    if |s| > 0 && IsSpace(s[0]) then TrimStart(s[1..]) else s
  }

  function TrimEnd(s: string): (t: string)
    ensures |t| <= |s|
  {
    if |s| > 0 && IsSpace(s[|s| - 1]) then TrimEnd(s[..|s| - 1]) else s
  }

  lemma {:induction false} TrimStartIsSuffix(s: string)
    ensures TrimStart(s) == s[|s| - |TrimStart(s)|..]
  {
    if |s| > 0 && IsSpace(s[0]) {
      TrimStartIsSuffix(s[1..]);
    }
  }

  lemma {:induction false} TrimEndIsPrefix(s: string)
    ensures TrimEnd(s) == s[..|TrimEnd(s)|]
  {
    if |s| > 0 && IsSpace(s[|s| - 1]) {
      TrimEndIsPrefix(s[..|s| - 1]);
    }
  }

  /** Stripping from the front is unaffected by white space added at the back, unless nothing is left. */
  lemma {:induction false} TrimStartAppend(s: string, ch: char)
    requires IsSpace(ch)
    ensures TrimStart(s + [ch]) == if TrimStart(s) == [] then [] else TrimStart(s) + [ch]
  {
    if |s| > 0 && IsSpace(s[0]) {
      assert (s + [ch])[1..] == s[1..] + [ch];
      TrimStartAppend(s[1..], ch);
    } else if s == [] {
      assert s + [ch] == [ch];
      assert [ch][1..] == [];
    }
  }

  /** `s` without its leading and trailing white space. */
  function Strip(s: string): string {
    TrimEnd(TrimStart(s))
  }

  /** The first index of `s` holding one of `chars`, or `|s|` if there is none. */
  function IndexOf(s: string, chars: set<char>): (k: nat)
    ensures k <= |s|
    ensures k < |s| ==> s[k] in chars
    ensures forall j :: 0 <= j < k ==> s[j] !in chars
  {
    if s == [] then 0
    else if s[0] in chars then 0
    else 1 + IndexOf(s[1..], chars)
  }

  function LowerAscii(s: string): (t: string)
  {
    seq(|s|, i requires 0 <= i < |s| => if 'A' <= s[i] <= 'Z' then (s[i] as int + 32) as char else s[i])
  }

  /** A digit part: digits, with single underscores allowed between two digits. */
  predicate IsDigitPart(s: string) {
    && |s| > 0 && IsDigit(s[0]) && IsDigit(s[|s| - 1])
    && forall i :: 0 <= i < |s| ==>
         IsDigit(s[i]) || (s[i] == '_' && 0 < i < |s| - 1 && IsDigit(s[i - 1]) && IsDigit(s[i + 1]))
  }

  /** The number the digits of `s` spell, ignoring every other character. */
  function DigitsValue(s: string): nat {
    if s == [] then 0
    else if IsDigit(s[|s| - 1]) then 10 * DigitsValue(s[..|s| - 1]) + (s[|s| - 1] as int - '0' as int)
    else DigitsValue(s[..|s| - 1])
  }

  function DigitCount(s: string): nat {
    if s == [] then 0
    else (if IsDigit(s[|s| - 1]) then 1 else 0) + DigitCount(s[..|s| - 1])
  }

  function Pow10(n: nat): (p: nat)
    ensures p >= 1
  {
    if n == 0 then 1 else 10 * Pow10(n - 1)
  }

  /** `m` times ten to the power `x`. */
  function Scale(m: real, x: int): real {
    if x >= 0 then m * Pow10(x) as real else m / Pow10(-x) as real
  }

  /** `[digitpart] "." digitpart | digitpart ["."]` */
  function ParseMantissa(t: string): Option<real> {
    var p := IndexOf(t, {'.'});
    if p == |t| then
      if IsDigitPart(t) then Some(DigitsValue(t) as real) else None
    else
      var whole, fraction := t[..p], t[p + 1..];
      if (whole == [] && fraction == [])
         || (whole != [] && !IsDigitPart(whole))
         || (fraction != [] && !IsDigitPart(fraction))
      then None
      else Some(DigitsValue(whole) as real + DigitsValue(fraction) as real / Pow10(DigitCount(fraction)) as real)
  }

  /** `[sign] digitpart`, the text after the exponent marker. */
  function ParseExponent(u: string): Option<int> {
    if |u| > 0 && IsSign(u[0]) then
      var magnitude: int := DigitsValue(u[1..]);
      if IsDigitPart(u[1..]) then Some(if u[0] == '-' then -magnitude else magnitude)
      else None
    else if IsDigitPart(u) then Some(DigitsValue(u))
    else None
  }

  /** `mantissa [("e" | "E") exponent]` */
  function ParseNumber(t: string): Option<real> {
    var k := IndexOf(t, {'e', 'E'});
    if k == |t| then ParseMantissa(t)
    else
      match ParseMantissa(t[..k])
      case None => None
      case Some(m) =>
        match ParseExponent(t[k + 1..])
        case None => None
        case Some(x) => Some(Scale(m, x))
  }

  /** A literal without its sign: a number, an infinity or a NaN. */
  function ParseUnsigned(t: string): Option<Float> {
    var lower := LowerAscii(t);
    if lower == "inf" || lower == "infinity" then Some(Infinity(false))
    else if lower == "nan" then Some(NaN)
    else
      match ParseNumber(t)
      case None => None
      case Some(r) => Some(Finite(r))
  }

  function Negate(v: Float): Float {
    match v
    case Finite(r) => Finite(-r)
    case Infinity(negative) => Infinity(!negative)
    case NaN => NaN
  }

  /** What `float(s)` returns for a string, or None where it raises ValueError. */
  function ParseFloat(s: string): Option<Float> {
    var t := Strip(s);
    if |t| > 0 && IsSign(t[0]) then
      match ParseUnsigned(t[1..])
      case None => None
      case Some(v) => Some(if t[0] == '-' then Negate(v) else v)
    else ParseUnsigned(t)
  }

  /**
   * `safe_float`: null for an absent value; the float for a value `float()`
   * converts; null where `float()` raises ValueError (unparsable text) or
   * TypeError (a date-time or other non-numeric value).
   */
  function SafeFloat(c: Cell): (r: Option<Float>)
    ensures r.None? <==> (c.Empty? || c.DateTime? || c.OtherValue? || (c.Text? && ParseFloat(c.text).None?))
    ensures c.Number? ==> r == Some(Finite(c.number))
    ensures c.Boolean? ==> r == Some(Finite(if c.flag then 1.0 else 0.0))
    ensures c.Text? ==> r == ParseFloat(c.text)
  {
    match c
    case Empty => None
    case Number(x) => Some(Finite(x))
    case Boolean(b) => Some(Finite(if b then 1.0 else 0.0))
    case Text(s) => ParseFloat(s)
    case DateTime(_, _) => None
    case OtherValue => None
  }

  // ---------------------------------------------------------------------
  // Rendering integers and fixed-point numbers as text, the partner of the
  // parser: what is rendered parses back to the same value.

  function DigitChar(d: nat): char
    requires d < 10
  {
    ('0' as int + d) as char
  }

  /** The decimal digits of `n`, most significant first, without leading zeros. */
  function DecimalString(n: nat): (s: string)
    ensures |s| > 0
  {
    if n < 10 then [DigitChar(n)] else DecimalString(n / 10) + [DigitChar(n % 10)]
  }

  function IntString(i: int): string {
    if i < 0 then "-" + DecimalString(-i) else DecimalString(i)
  }

  lemma {:induction false} DecimalStringDigits(n: nat)
    ensures forall i :: 0 <= i < |DecimalString(n)| ==> IsDigit(DecimalString(n)[i])
    ensures DigitsValue(DecimalString(n)) == n
    ensures DigitCount(DecimalString(n)) == |DecimalString(n)|
  {
    if n >= 10 {
      DecimalStringDigits(n / 10);
      var s := DecimalString(n);
      assert s[..|s| - 1] == DecimalString(n / 10);
    }
  }

  lemma DecimalStringIsDigitPart(n: nat)
    ensures IsDigitPart(DecimalString(n))
  {
    DecimalStringDigits(n);
  }

  /** Text that neither starts nor ends with white space is its own stripped form. */
  lemma StripUnpadded(s: string)
    requires s != [] && !IsSpace(s[0]) && !IsSpace(s[|s| - 1])
    ensures Strip(s) == s
  {
  }

  /** Text that starts with a digit is none of the words `inf`, `infinity` and `nan`. */
  lemma LowerOfDigitsIsNotWord(t: string)
    requires t != [] && IsDigit(t[0])
    ensures LowerAscii(t) != "inf" && LowerAscii(t) != "infinity" && LowerAscii(t) != "nan"
  {
    assert LowerAscii(t)[0] == t[0];
  }

  /** White space added before or after text does not change what it parses to. */
  lemma {:induction false} ParseIgnoresPadding(s: string, ch: char)
    requires IsSpace(ch)
    ensures ParseFloat([ch] + s) == ParseFloat(s)
    ensures ParseFloat(s + [ch]) == ParseFloat(s)
  {
    assert ([ch] + s)[1..] == s;
    assert Strip([ch] + s) == Strip(s);
    TrimStartAppend(s, ch);
    var u := TrimStart(s);
    if u != [] {
      assert (u + [ch])[..|u + [ch]| - 1] == u;
    }
    assert Strip(s + [ch]) == Strip(s);
  }

  /** A file separator (U+001C) in front of a number is not stripped: the text is rejected. */
  lemma SeparatorIsNotPadding()
    ensures ParseFloat([28 as char] + "5").None?
    ensures ParseFloat("5") == Some(Finite(5.0))
  {
    var t := [28 as char] + "5";
    assert Strip(t) == t;
    assert LowerAscii(t)[0] == 28 as char;
    assert IndexOf(t, {'e', 'E'}) == |t|;
    assert IndexOf(t, {'.'}) == |t|;
    assert !IsDigitPart(t);
    ParseIntRoundTrip(5);
  }

  /** An unsigned unpadded digit string parses to the number it spells. */
  lemma ParseNaturalAt(n: nat)
    ensures ParseUnsigned(DecimalString(n)) == Some(Finite(n as real))
  {
    var t := DecimalString(n);
    DecimalStringDigits(n);
    DecimalStringIsDigitPart(n);
    LowerOfDigitsIsNotWord(t);
    assert IndexOf(t, {'e', 'E'}) == |t|;
    assert IndexOf(t, {'.'}) == |t|;
  }

  /** Unpadded unsigned text is parsed as it stands. */
  lemma ParseUnpaddedUnsigned(t: string)
    requires t != [] && !IsSpace(t[0]) && !IsSpace(t[|t| - 1]) && !IsSign(t[0])
    ensures ParseFloat(t) == ParseUnsigned(t)
  {
    StripUnpadded(t);
  }

  /** A leading minus sign negates what follows it. */
  lemma ParseUnpaddedNegative(t: string)
    requires t != [] && !IsSpace(t[|t| - 1])
    ensures ParseFloat("-" + t) == match ParseUnsigned(t) case None => None case Some(v) => Some(Negate(v))
  {
    var s := "-" + t;
    StripUnpadded(s);
    assert s[1..] == t;
  }

  lemma {:induction false} ParseNaturalRoundTrip(n: nat)
    ensures ParseFloat(DecimalString(n)) == Some(Finite(n as real))
  {
    var t := DecimalString(n);
    assert ParseUnsigned(t) == Some(Finite(n as real)) && !IsSpace(t[|t| - 1]) && !IsSpace(t[0]) && !IsSign(t[0]) by {
      DecimalStringDigits(n);
      ParseNaturalAt(n);
    }
    ParseUnpaddedUnsigned(t);
  }

  lemma {:induction false} ParseNegativeRoundTrip(n: nat)
    ensures ParseFloat("-" + DecimalString(n)) == Some(Finite(-(n as real)))
  {
    var t := DecimalString(n);
    assert ParseUnsigned(t) == Some(Finite(n as real)) && !IsSpace(t[|t| - 1]) by {
      DecimalStringDigits(n);
      ParseNaturalAt(n);
    }
    ParseUnpaddedNegative(t);
  }

  /** Round trip: the decimal rendering of any integer parses back to it. */
  lemma {:induction false} ParseIntRoundTrip(i: int)
    ensures ParseFloat(IntString(i)) == Some(Finite(i as real))
  {
    if i < 0 {
      ParseNegativeRoundTrip(-i);
    } else {
      ParseNaturalRoundTrip(i);
    }
  }

  /** The fixed-point text `a.b` of two digit strings, split at its point. */
  lemma {:induction false} FixedPointMantissa(a: string, b: string)
    requires IsDigitPart(a) && IsDigitPart(b)
    requires forall j :: 0 <= j < |a| ==> IsDigit(a[j])
    ensures ParseMantissa(a + "." + b)
         == Some(DigitsValue(a) as real + DigitsValue(b) as real / Pow10(DigitCount(b)) as real)
  {
    var t := a + "." + b;
    assert IndexOf(t, {'.'}) == |a| by {
      assert forall j :: 0 <= j < |a| ==> t[j] == a[j];
      assert t[|a|] == '.';
    }
    assert t[..|a|] == a && t[|a| + 1..] == b;
  }

  /** Text of digits and points has no exponent marker. */
  lemma NoExponentMarker(t: string)
    requires forall j :: 0 <= j < |t| ==> t[j] == '.' || IsDigit(t[j])
    ensures IndexOf(t, {'e', 'E'}) == |t|
  {
  }

  lemma {:induction false} FixedPointUnsigned(a: string, b: string)
    requires IsDigitPart(a) && IsDigitPart(b)
    requires forall j :: 0 <= j < |a| ==> IsDigit(a[j])
    requires forall j :: 0 <= j < |b| ==> IsDigit(b[j])
    ensures ParseUnsigned(a + "." + b)
         == Some(Finite(DigitsValue(a) as real + DigitsValue(b) as real / Pow10(DigitCount(b)) as real))
  {
    var t := a + "." + b;
    FixedPointMantissa(a, b);
    assert t[0] == a[0];
    LowerOfDigitsIsNotWord(t);
    forall j | 0 <= j < |t| ensures t[j] == '.' || IsDigit(t[j]) {
      if j < |a| {
        assert t[j] == a[j];
      } else if j > |a| {
        assert t[j] == b[j - |a| - 1];
      }
    }
    NoExponentMarker(t);
  }

  /**
   * Round trip for fixed-point text `w.f`: it parses to `w` plus `f` scaled
   * down by one power of ten per fraction digit.
   */
  lemma {:induction false} ParseFixedPointRoundTrip(w: nat, f: nat)
    ensures ParseFloat(DecimalString(w) + "." + DecimalString(f))
         == Some(Finite(w as real + f as real / Pow10(|DecimalString(f)|) as real))
  {
    var a, b := DecimalString(w), DecimalString(f);
    var t := a + "." + b;
    assert IsDigit(t[0]) && IsDigit(t[|t| - 1]) by {
      DecimalStringDigits(w);
      DecimalStringDigits(f);
      assert t[0] == a[0] && t[|t| - 1] == b[|b| - 1];
    }
    assert ParseUnsigned(t) == Some(Finite(w as real + f as real / Pow10(|b|) as real)) by {
      DecimalStringDigits(w);
      DecimalStringDigits(f);
      DecimalStringIsDigitPart(w);
      DecimalStringIsDigitPart(f);
      FixedPointUnsigned(a, b);
    }
    ParseUnpaddedUnsigned(t);
  }

  // ---------------------------------------------------------------------
  // Text without any digit never yields a finite number.

  lemma NoDigitSlice(s: string, lo: int, hi: int)
    requires NoDigit(s) && 0 <= lo <= hi <= |s|
    ensures NoDigit(s[lo..hi])
  {
    forall i | 0 <= i < hi - lo ensures !IsDigit(s[lo..hi][i]) {
      assert s[lo..hi][i] == s[lo + i];
    }
  }

  lemma NoDigitMantissa(t: string)
    requires NoDigit(t)
    ensures ParseMantissa(t).None?
  {
    var p := IndexOf(t, {'.'});
    if p < |t| {
      NoDigitSlice(t, 0, p);
      NoDigitSlice(t, p + 1, |t|);
    }
  }

  lemma NoDigitNumber(t: string)
    requires NoDigit(t)
    ensures ParseNumber(t).None?
  {
    var k := IndexOf(t, {'e', 'E'});
    if k < |t| {
      NoDigitSlice(t, 0, k);
      NoDigitMantissa(t[..k]);
    } else {
      NoDigitMantissa(t);
    }
  }

  /**
   * A text cell without a single digit normalises to null or to a
   * non-finite value (an infinity or NaN spelled out), never a number.
   */
  lemma NoDigitNeverFinite(s: string)
    requires NoDigit(s)
    ensures ParseFloat(s).None? || !ParseFloat(s).value.Finite?
  {
    var t := Strip(s);
    var u := TrimStart(s);
    TrimStartIsSuffix(s);
    TrimEndIsPrefix(u);
    NoDigitSlice(s, |s| - |u|, |s|);
    NoDigitSlice(u, 0, |t|);
    if |t| > 0 && IsSign(t[0]) {
      NoDigitSlice(t, 1, |t|);
      NoDigitNumber(t[1..]);
    } else {
      NoDigitNumber(t);
    }
  }
}
