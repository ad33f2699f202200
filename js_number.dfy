/**
 * JavaScript's global `parseFloat`, over exact decimals: leading
 * StrWhiteSpaceChar is skipped, then the longest prefix made of an optional
 * sign, decimal digits and at most one `.` is read; without a digit in that
 * prefix the answer is NaN.
 */
module JsNumber {

  /** A JavaScript number as this model needs it: NaN or an exact finite value. */
  datatype Number = NaN | Num(value: real)

  predicate IsDigit(c: char) { '0' <= c <= '9' }

  predicate AllDigits(s: string) { forall i :: 0 <= i < |s| ==> IsDigit(s[i]) }

  /** StrWhiteSpaceChar: TAB, VT, FF, ZWNBSP, every space separator (Zs) and every line terminator. */
  predicate IsJsSpace(c: char)
  {
    c == '\t' || c == '\U{B}' || c == '\U{C}' || c == '\U{FEFF}' ||
    c == ' ' || c == '\U{A0}' || c == '\U{1680}' || ('\U{2000}' <= c <= '\U{200A}') ||
    c == '\U{202F}' || c == '\U{205F}' || c == '\U{3000}' ||
    c == '\n' || c == '\r' || c == '\U{2028}' || c == '\U{2029}'
  }

  predicate AllSpaces(s: string) { forall i :: 0 <= i < |s| ==> IsJsSpace(s[i]) }

  /** Length of the longest all-space prefix. */
  function SpaceRun(s: string): (n: nat)
    ensures n <= |s| && AllSpaces(s[..n])
    ensures n < |s| ==> !IsJsSpace(s[n])
  {
    if |s| > 0 && IsJsSpace(s[0]) then 1 + SpaceRun(s[1..]) else 0
  }

  /** Length of the longest all-digit prefix. */
  function DigitRun(s: string): (n: nat)
    ensures n <= |s| && AllDigits(s[..n])
    ensures n < |s| ==> !IsDigit(s[n])
  {
    if |s| > 0 && IsDigit(s[0]) then 1 + DigitRun(s[1..]) else 0
  }

  function TrimStart(s: string): string { s[SpaceRun(s)..] }

  /** The text after an optional leading sign. */
  function Unsigned(t: string): string
  {
    if |t| > 0 && (t[0] == '+' || t[0] == '-') then t[1..] else t
  }

  /** The value of a string of decimal digits. */
  function DigitsValue(d: string): int
  {
    if |d| == 0 then 0 else 10 * DigitsValue(d[..|d| - 1]) + (d[|d| - 1] as int - '0' as int)
  }

  /** Helper: the scale of a fraction with `n` digits. */
  function Pow10(n: nat): (p: nat)
    ensures p >= 1
  {
    if n == 0 then 1 else 10 * Pow10(n - 1)
  }

  /** The value written `intDigits.fracDigits`. */
  function DecimalValue(intDigits: string, fracDigits: string): real
  {
    DigitsValue(intDigits) as real + DigitsValue(fracDigits) as real / Pow10(|fracDigits|) as real
  }

  function Signed(neg: bool, x: real): real { if neg then -x else x }

  /**
   * The accepted grammar, independently of how the parse is computed: after
   * the spaces and an optional sign comes a digit, or a `.` and a digit.
   */
  predicate HasNumericPrefix(s: string)
  {
    var u := Unsigned(TrimStart(s));
    (|u| > 0 && IsDigit(u[0])) || (|u| > 1 && u[0] == '.' && IsDigit(u[1]))
  }

  /** The digits after a leading `.`, if the text starts with one. */
  function FractionDigits(r: string): (f: string)
    ensures AllDigits(f)
  {
    if |r| > 0 && r[0] == '.' then r[1..][..DigitRun(r[1..])] else ""
  }

  /** The longest `digits[.digits]` prefix, read as an unsigned decimal. */
  function ParseMagnitude(u: string): (n: Number)
    ensures n.Num? <==> (|u| > 0 && IsDigit(u[0])) || (|u| > 1 && u[0] == '.' && IsDigit(u[1]))
  {
    var k := DigitRun(u);
    var frac := FractionDigits(u[k..]);
    if k == 0 && |frac| == 0 then NaN else Num(DecimalValue(u[..k], frac))
  }

  function ParseFloat(s: string): (n: Number)
    ensures n.Num? <==> HasNumericPrefix(s)
  {
    var t := TrimStart(s);
    match ParseMagnitude(Unsigned(t))
    case NaN => NaN
    case Num(m) => Num(Signed(|t| > 0 && t[0] == '-', m))
  }

  lemma {:induction false} TrimSpaces(w: string, z: string)
    requires AllSpaces(w)
    requires z == [] || !IsJsSpace(z[0])
    ensures TrimStart(w + z) == z
  {
    if |w| > 0 {
      assert (w + z)[1..] == w[1..] + z;
      TrimSpaces(w[1..], z);
    } else {
      assert w + z == z;
    }
  }

  lemma {:induction false} DigitRunOf(a: string, r: string)
    requires AllDigits(a)
    requires r == [] || !IsDigit(r[0])
    ensures DigitRun(a + r) == |a|
  {
    if |a| > 0 {
      assert (a + r)[1..] == a[1..] + r;
      DigitRunOf(a[1..], r);
    } else {
      assert a + r == r;
    }
  }

  lemma {:induction false} MagnitudeDecimal(a: string, f: string, tail: string)
    requires AllDigits(a) && AllDigits(f) && |a| + |f| > 0
    requires tail == [] || !IsDigit(tail[0])
    ensures ParseMagnitude(a + ("." + (f + tail))) == Num(DecimalValue(a, f))
  {
    var r := "." + (f + tail);
    var u := a + r;
    DigitRunOf(a, r);
    assert u[..|a|] == a && u[|a|..] == r;
    assert r[1..] == f + tail;
    DigitRunOf(f, tail);
    assert (f + tail)[..|f|] == f;
  }

  lemma {:induction false} MagnitudeInteger(a: string, tail: string)
    requires AllDigits(a) && |a| > 0
    requires tail == [] || (!IsDigit(tail[0]) && tail[0] != '.')
    ensures ParseMagnitude(a + tail) == Num(DigitsValue(a) as real)
  {
    DigitRunOf(a, tail);
    assert (a + tail)[..|a|] == a && (a + tail)[|a|..] == tail;
  }

  /** Spaces and an optional sign (`+` or `-`) in front of a magnitude only set the sign. */
  lemma {:induction false} ParseFloatSigned(w: string, sg: string, body: string)
    requires AllSpaces(w) && (sg == "" || sg == "+" || sg == "-")
    requires |body| > 0 && (IsDigit(body[0]) || body[0] == '.')
    ensures ParseFloat(w + (sg + body)) ==
      match ParseMagnitude(body)
      case NaN => NaN
      case Num(m) => Num(Signed(sg == "-", m))
  {
    var z := sg + body;
    TrimSpaces(w, z);
    assert Unsigned(z) == body by {
      if sg != "" { assert z[1..] == body; } else { assert z == body; }
    }
    assert (|z| > 0 && z[0] == '-') == (sg == "-");
  }

  /**
   * An exact decimal written with a point, after spaces and an optional
   * sign, parses to its value whatever non-digit text follows it.
   */
  lemma {:induction false} ParseFloatDecimal(w: string, sg: string, a: string, f: string, tail: string)
    requires AllSpaces(w) && (sg == "" || sg == "+" || sg == "-")
    requires AllDigits(a) && AllDigits(f) && |a| + |f| > 0
    requires tail == [] || !IsDigit(tail[0])
    ensures ParseFloat(w + (sg + (a + ("." + (f + tail))))) == Num(Signed(sg == "-", DecimalValue(a, f)))
  {
    MagnitudeDecimal(a, f, tail);
    ParseFloatSigned(w, sg, a + ("." + (f + tail)));
  }

  /** A digit string not followed by a digit or a point parses to its integer value. */
  lemma {:induction false} ParseFloatInteger(w: string, sg: string, a: string, tail: string)
    requires AllSpaces(w) && (sg == "" || sg == "+" || sg == "-")
    requires AllDigits(a) && |a| > 0
    requires tail == [] || (!IsDigit(tail[0]) && tail[0] != '.')
    ensures ParseFloat(w + (sg + (a + tail))) == Num(Signed(sg == "-", DigitsValue(a) as real))
  {
    MagnitudeInteger(a, tail);
    ParseFloatSigned(w, sg, a + tail);
  }
}
