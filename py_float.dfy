/// Python's `float(str)` on the strings the split/sort tool feeds it, read as
/// exact decimals: a finite value is `mantissa * 10^exponent`.  Comparisons of
/// parsed values follow IEEE rules for infinities and NaN.
module PyFloat {
  import opened Wrappers
  import opened DigitStrings
  import opened PyStr

  datatype Float = Finite(mantissa: int, exponent: int) | PosInf | NegInf | NaN

  /// End of the longest `digitpart` (`digit (["_"] digit)*`) starting at `i`;
  /// `i` itself when no digit is there.
  function DigitPartEnd(s: string, i: nat): (j: nat)
    requires i <= |s|
    ensures i <= j <= |s|
  {
    if i < |s| && IsDigit(s[i]) then MoreDigits(s, i + 1) else i
  }

  /// Continues a `digitpart` whose last character, at `j - 1`, is a digit:
  /// a digit, or an underscore followed by a digit, extends it.
  function MoreDigits(s: string, j: nat): (k: nat)
    requires 0 < j <= |s|
    ensures j <= k <= |s|
    decreases |s| - j
  {
    if j < |s| && IsDigit(s[j]) then MoreDigits(s, j + 1)
    else if j + 1 < |s| && s[j] == '_' && IsDigit(s[j + 1]) then MoreDigits(s, j + 2)
    else j
  }

  /// The digits of `s[i..j]`; on a `digitpart` this drops the underscores.
  function PartDigits(s: string, i: nat, j: nat): (r: string)
    requires i <= j <= |s|
    ensures AllDigits(r) && |r| <= j - i
    decreases j - i
  {
    if i == j then []
    else if IsDigit(s[i]) then [s[i]] + PartDigits(s, i + 1, j)
    else PartDigits(s, i + 1, j)
  }

  /// A decimal literal without sign: `digitpart? ("." digitpart?)? exponent?`
  /// with at least one digit before the exponent.  The result is
  /// `(mantissa, exponent)`, or `None` where `float` raises `ValueError`.
  function ParseDecimal(b: string): (r: Option<(nat, int)>)
    ensures r.Some? ==> b != [] && (IsDigit(b[0]) || b[0] == '.')
  {
    match Significand(b)
    case None => None
    case Some((mantissa, scale, end)) =>
      if end == |b| then Some((mantissa, 0 - scale))
      else if b[end] == 'e' || b[end] == 'E' then
        match ParseExponent(b, end + 1)
        case None => None
        case Some(e) => Some((mantissa, e - scale))
      else None
  }

  /// The digits before the exponent, `digitpart? ("." digitpart?)?` with at
  /// least one digit: its digits read as one integer, the number of digits
  /// after the point, and where it ends.
  function Significand(b: string): (r: Option<(nat, nat, nat)>)
    ensures r.Some? ==> r.value.2 <= |b| && b != [] && (IsDigit(b[0]) || b[0] == '.')
  {
    var a := DigitPartEnd(b, 0);
    var dot := a < |b| && b[a] == '.';
    var fracEnd := if dot then DigitPartEnd(b, a + 1) else a;
    var fracStart := if dot then a + 1 else a;
    if a == 0 && fracEnd == fracStart then None
    else
      var whole, fraction := PartDigits(b, 0, a), PartDigits(b, fracStart, fracEnd);
      assert AllDigits(whole + fraction);
      Some((Value(whole + fraction), |fraction|, fracEnd))
  }

  /// The exponent after `e`/`E`: an optional sign and a `digitpart` reaching
  /// the end of the literal.
  function ParseExponent(b: string, i: nat): (r: Option<int>)
    requires i <= |b|
  {
    var signed := i < |b| && (b[i] == '+' || b[i] == '-');
    var start := if signed then i + 1 else i;
    var end := DigitPartEnd(b, start);
    if end == start || end != |b| then None
    else
      var e := Value(PartDigits(b, start, end));
      Some(if signed && b[i] == '-' then 0 - e else e)
  }

  /// `float(s)`: the whitespace `float` skips stripped from both ends, then
  /// an optional sign.
  function Parse(s: string): (r: Option<Float>)
  {
    ParseSigned(Strip(s, FloatBlanks))
  }

  /// An optional sign before an unsigned literal; `-` negates it.
  function ParseSigned(t: string): (r: Option<Float>)
  {
    var body := if t != [] && (t[0] == '+' || t[0] == '-') then t[1..] else t;
    var r := ParseUnsigned(body);
    if t != [] && t[0] == '-' && r.Some? then Some(Negate(r.value)) else r
  }

  /// `-x`; NaN stays NaN.
  function Negate(v: Float): (r: Float)
  {
    match v
    case Finite(m, e) => Finite(0 - m, e)
    case PosInf => NegInf
    case NegInf => PosInf
    case NaN => NaN
  }

  /// `inf`, `infinity`, `nan` (any case) or a decimal literal.
  function ParseUnsigned(body: string): (r: Option<Float>)
    ensures r.Some? && r.value.Finite? ==> r.value.mantissa >= 0
  {
    if LowerIs(body, "inf") || LowerIs(body, "infinity") then Some(PosInf)
    else if LowerIs(body, "nan") then Some(NaN)
    else match ParseDecimal(body)
      case None => None
      case Some((m, e)) => Some(Finite(m, e))
  }

  /// `body.lower() == w`, character by character.
  predicate LowerIs(body: string, w: string)
  {
    |body| == |w| && forall k | 0 <= k < |w| :: LowerChar(body[k]) == w[k]
  }

  lemma LowerIsLower(body: string, w: string)
    ensures LowerIs(body, w) <==> Lower(body) == w
  {
    if LowerIs(body, w) {
      assert forall k | 0 <= k < |w| :: Lower(body)[k] == w[k];
    }
  }

  /// `v1 < v2` on floats: false whenever NaN is involved.
  predicate FloatLess(v1: Float, v2: Float)
  {
    match (v1, v2)
    case (NaN, _) => false
    case (_, NaN) => false
    case (NegInf, NegInf) => false
    case (NegInf, _) => true
    case (_, NegInf) => false
    case (PosInf, _) => false
    case (_, PosInf) => true
    case (Finite(m1, e1), Finite(m2, e2)) => Scaled(m1, e1, e2) < Scaled(m2, e2, e1)
  }

  /// `m * 10^e` expressed in units of `10^min(e, other)`.
  function Scaled(m: int, e: int, other: int): int
  {
    if e <= other then m else m * Pow10(e - other)
  }

  /// `(v1 > v2) - (v1 < v2)`.
  function FloatCmp(v1: Float, v2: Float): (r: int)
    ensures -1 <= r <= 1
  {
    (if FloatLess(v2, v1) then 1 else 0) - (if FloatLess(v1, v2) then 1 else 0)
  }

  lemma FloatLessAsymmetric(v1: Float, v2: Float)
    ensures !(FloatLess(v1, v2) && FloatLess(v2, v1))
    ensures !FloatLess(v1, v1)
  {
  }

  /// Comparing a float with itself gives 0 (NaN included: all its comparisons
  /// are false), and swapping the operands negates the result.
  lemma FloatCmpProperties(v1: Float, v2: Float)
    ensures FloatCmp(v1, v1) == 0
    ensures FloatCmp(v2, v1) == -FloatCmp(v1, v2)
  {
    FloatLessAsymmetric(v1, v2);
  }

  /// `repr`-like rendering of a finite value: `[-]digits e [-]digits`.
  function Render(m: int, e: int): (s: string)
  {
    (if m < 0 then "-" else "") + RenderUnsigned(if m < 0 then -m else m, e)
  }

  /// `digits e [-]digits` for a mantissa without sign.
  function RenderUnsigned(n: nat, e: int): (s: string)
  {
    ShowNat(n) + ("e" + (if e < 0 then "-" else "") + ShowNat(if e < 0 then -e else e))
  }

  /// A run of digits that ends the string or stops at a character that is
  /// neither a digit nor an underscore is one whole `digitpart`.
  lemma {:induction false} DigitRunEnd(s: string, i: nat, j: nat)
    requires i < j <= |s| && forall k | i <= k < j :: IsDigit(s[k])
    requires j < |s| ==> !IsDigit(s[j]) && s[j] != '_'
    ensures DigitPartEnd(s, i) == j
  {
    MoreDigitsRun(s, i + 1, j);
  }

  lemma {:induction false} MoreDigitsRun(s: string, k: nat, j: nat)
    requires 0 < k <= j <= |s| && forall m | k - 1 <= m < j :: IsDigit(s[m])
    requires j < |s| ==> !IsDigit(s[j]) && s[j] != '_'
    ensures MoreDigits(s, k) == j
    decreases j - k
  {
    if k < j { MoreDigitsRun(s, k + 1, j); }
  }

  lemma {:induction false} PlainDigits(s: string, i: nat, j: nat)
    requires i <= j <= |s| && forall k | i <= k < j :: IsDigit(s[k])
    ensures PartDigits(s, i, j) == s[i..j]
    decreases j - i
  {
    if i < j {
      PlainDigits(s, i + 1, j);
      assert s[i..j] == [s[i]] + s[i + 1..j];
    }
  }

  lemma StripUnspaced(s: string, b: Blanks)
    requires s != [] && !IsBlank(b, s[0]) && !IsBlank(b, s[|s| - 1])
    ensures Strip(s, b) == s
  {
    assert SkipSpaces(s, 0, b) == 0;
    assert s[0..] == s;
  }

  /// Parsing what `Render` prints gives the value back: `float` inverts the
  /// printing of every finite decimal.
  lemma ParseRender(m: int, e: int)
    ensures Parse(Render(m, e)) == Some(Finite(m, e))
  {
    var n: nat := if m < 0 then -m else m;
    var body := RenderUnsigned(n, e);
    ParseRenderUnsigned(n, e);
    SignedDecimal(Render(m, e), m < 0, body, n, e);
  }

  /// The unsigned rendering reads back as the same value.
  lemma ParseRenderUnsigned(n: nat, e: int)
    ensures var body := RenderUnsigned(n, e);
      body != [] && IsDigit(body[0]) && IsDigit(body[|body| - 1])
      && ParseUnsigned(body) == Some(Finite(n, e))
  {
    var digits, exps := ShowNat(n), ShowNat(if e < 0 then -e else e);
    var body := RenderUnsigned(n, e);
    assert body[0] == digits[0];
    assert body[|body| - 1] == exps[|exps| - 1];
    ParseBody(digits, e < 0, exps);
    ValueShowNat(n);
    ValueShowNat(if e < 0 then -e else e);
    assert ParseDecimal(body) == Some((n, e));
    UnsignedDecimal(body);
  }

  /// An optional minus sign before an unsigned literal that starts with a
  /// digit or a point and does not end with whitespace: the literal's value, negated after a sign.
  lemma SignedDecimal(s: string, negative: bool, body: string, m: nat, e: int)
    requires body != [] && (IsDigit(body[0]) || body[0] == '.') && !IsSpace(body[|body| - 1])
    requires s == (if negative then "-" else "") + body
    requires ParseUnsigned(body) == Some(Finite(m, e))
    ensures Parse(s) == Some(Finite(if negative then 0 - m else m, e))
  {
    StripUnspaced(s, FloatBlanks);
    SignedLiteral(s, negative, body, m, e);
  }

  lemma SignedLiteral(s: string, negative: bool, body: string, m: nat, e: int)
    requires body != [] && (IsDigit(body[0]) || body[0] == '.')
    requires s == (if negative then "-" else "") + body
    requires ParseUnsigned(body) == Some(Finite(m, e))
    ensures ParseSigned(s) == Some(Finite(if negative then 0 - m else m, e))
  {
    if negative {
      assert s[0] == '-' && s[1..] == body;
    } else {
      assert s == body;
    }
  }

  /// A literal that starts with a digit or a point is read as a decimal.
  lemma UnsignedDecimal(body: string)
    requires body != [] && (IsDigit(body[0]) || body[0] == '.') && ParseDecimal(body).Some?
    ensures ParseUnsigned(body) == Some(Finite(ParseDecimal(body).value.0, ParseDecimal(body).value.1))
  {
    NotAWord(body);
  }

  /// A body that does not start with an `i` or an `n` is none of the words `inf`, `infinity`, `nan`.
  lemma NotAWord(body: string)
    requires body != [] && LowerChar(body[0]) != 'i' && LowerChar(body[0]) != 'n'
    ensures !LowerIs(body, "inf") && !LowerIs(body, "infinity") && !LowerIs(body, "nan")
  {
  }

  lemma ParseBody(digits: string, negative: bool, exps: string)
    requires AllDigits(digits) && AllDigits(exps) && digits != [] && exps != []
    ensures ParseDecimal(digits + ("e" + (if negative then "-" else "") + exps))
      == Some((Value(digits), if negative then 0 - Value(exps) else Value(exps)))
  {
    ExponentLayout(digits, negative, exps);
    DecimalLayout(digits + ("e" + (if negative then "-" else "") + exps), digits, negative, exps);
  }

  /// Digits, `e`, and an optionally negative exponent.
  lemma DecimalLayout(b: string, digits: string, negative: bool, exps: string)
    requires AllDigits(digits) && AllDigits(exps) && digits != [] && exps != []
    requires |digits| < |b| && b[..|digits|] == digits && b[|digits|] == 'e'
    requires b[|digits| + 1..] == (if negative then "-" else "") + exps
    ensures ParseDecimal(b) == Some((Value(digits), if negative then 0 - Value(exps) else Value(exps)))
  {
    IntegerSignificand(b, digits);
    ExponentPart(b, |digits| + 1, negative, exps);
    DecimalWithExponent(b, |digits|);
  }

  lemma ExponentLayout(digits: string, negative: bool, exps: string)
    ensures var b := digits + ("e" + (if negative then "-" else "") + exps);
      |digits| < |b| && b[..|digits|] == digits && b[|digits|] == 'e'
      && b[|digits| + 1..] == (if negative then "-" else "") + exps
  {
  }

  /// A significand followed by `e` and a valid exponent.
  lemma DecimalWithExponent(b: string, end: nat)
    requires Significand(b).Some? && Significand(b).value.2 == end < |b|
    requires b[end] == 'e' && ParseExponent(b, end + 1).Some?
    ensures ParseDecimal(b)
      == Some((Significand(b).value.0, ParseExponent(b, end + 1).value - Significand(b).value.1))
  {
  }

  /// A run of plain digits that ends the literal or is followed by something
  /// other than a digit, `_` or `.` is a significand without fraction.
  lemma IntegerSignificand(b: string, digits: string)
    requires AllDigits(digits) && digits != [] && |digits| <= |b| && b[..|digits|] == digits
    requires |digits| < |b| ==> !IsDigit(b[|digits|]) && b[|digits|] != '_' && b[|digits|] != '.'
    ensures Significand(b) == Some((Value(digits), 0, |digits|))
  {
    var a := |digits|;
    forall k | 0 <= k < a ensures IsDigit(b[k]) { assert b[k] == digits[k]; }
    DigitRunEnd(b, 0, a);
    PlainDigits(b, 0, a);
    assert b[0..a] == digits;
    assert PartDigits(b, a, a) == [];
    assert digits + [] == digits;
  }

  lemma ExponentPart(b: string, i: nat, negative: bool, exps: string)
    requires AllDigits(exps) && exps != []
    requires i <= |b| && b[i..] == (if negative then "-" else "") + exps
    ensures ParseExponent(b, i) == Some(if negative then 0 - Value(exps) else Value(exps))
  {
    if negative {
      assert b[i] == '-' && b[i + 1..] == exps;
      ExponentDigits(b, i + 1, exps);
    } else {
      assert b[i] == exps[0];
      ExponentDigits(b, i, exps);
    }
  }

  /// Digits running to the end of the literal form one `digitpart`.
  lemma ExponentDigits(b: string, start: nat, exps: string)
    requires AllDigits(exps) && exps != []
    requires start <= |b| && b[start..] == exps
    ensures DigitPartEnd(b, start) == |b|
    ensures PartDigits(b, start, |b|) == exps
  {
    forall k | start <= k < |b| ensures IsDigit(b[k]) {
      assert b[k] == exps[k - start];
    }
    DigitRunEnd(b, start, |b|);
    PlainDigits(b, start, |b|);
    assert b[start..|b|] == exps;
  }

  /// Digits, a point, and digits (either run may be empty, not both) form a
  /// significand whose fraction has as many digits as follow the point.
  lemma PointSignificand(b: string, a: nat, c: nat)
    requires a < c <= |b| && (a > 0 || c > a + 1) && b[a] == '.'
    requires forall k | 0 <= k < a :: IsDigit(b[k])
    requires forall k | a < k < c :: IsDigit(b[k])
    requires c < |b| ==> !IsDigit(b[c]) && b[c] != '_'
    ensures Significand(b) == Some((Value(b[..a] + b[a + 1..c]), c - a - 1, c))
  {
    DigitsTo(b, 0, a);
    DigitsTo(b, a + 1, c);
    SignificandWithPoint(b, a, c);
    assert b[0..a] == b[..a];
  }

  /// Plain digits from `i` to `j`, not continued by a digit or `_`, are a
  /// whole `digitpart` (an empty one when `i == j`).
  lemma DigitsTo(b: string, i: nat, j: nat)
    requires i <= j <= |b| && forall k | i <= k < j :: IsDigit(b[k])
    requires j < |b| ==> !IsDigit(b[j]) && b[j] != '_'
    ensures DigitPartEnd(b, i) == j && PartDigits(b, i, j) == b[i..j]
  {
    if i < j {
      DigitRunEnd(b, i, j);
    }
    PlainDigits(b, i, j);
  }

  lemma SignificandWithPoint(b: string, a: nat, c: nat)
    requires DigitPartEnd(b, 0) == a < |b| && b[a] == '.' && DigitPartEnd(b, a + 1) == c
    requires a > 0 || c > a + 1
    ensures Significand(b)
      == Some((Value(PartDigits(b, 0, a) + PartDigits(b, a + 1, c)), |PartDigits(b, a + 1, c)|, c))
  {
  }

  /// A significand that runs to the end of the literal needs no exponent.
  lemma DecimalAtEnd(b: string)
    requires Significand(b).Some? && Significand(b).value.2 == |b|
    ensures ParseDecimal(b) == Some((Significand(b).value.0, 0 - Significand(b).value.1))
  {
  }

  /// `float` of a run of digits: the integer they denote.
  lemma UnsignedInteger(body: string)
    requires body != [] && AllDigits(body)
    ensures ParseUnsigned(body) == Some(Finite(Value(body), 0))
  {
    assert body[..|body|] == body;
    IntegerSignificand(body, body);
    DecimalAtEnd(body);
    UnsignedDecimal(body);
  }

  /// `float` of `digits.digits` (either run may be empty, not both): the
  /// digits read as one integer, scaled down by the digits after the point.
  lemma UnsignedPoint(body: string, a: nat)
    requires a < |body| && body[a] == '.' && |body| > 1
    requires forall k | 0 <= k < |body| && k != a :: IsDigit(body[k])
    ensures ParseUnsigned(body) == Some(Finite(Value(body[..a] + body[a + 1..]), a + 1 - |body|))
  {
    PointSignificand(body, a, |body|);
    assert body[a + 1..|body|] == body[a + 1..];
    DecimalAtEnd(body);
    assert IsDigit(body[0]) || body[0] == '.' by {
      if a > 0 { assert IsDigit(body[0]); }
    }
    UnsignedDecimal(body);
  }
}
