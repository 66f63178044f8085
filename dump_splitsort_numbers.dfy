/// The numeric branch of the Python `linecomp`: two fields that `try_float`
/// reads as floats compare by their values, not by their text.
module DumpSplitSortNumbers {
  import opened Wrappers
  import opened DigitStrings
  import opened PyStr
  import opened PyFloat
  import opened DumpSplitSort

  /// The sign of an integer.
  function Sign(x: int): int
  {
    if x > 0 then 1 else if x < 0 then -1 else 0
  }

  /// `-v` after a minus sign, `v` otherwise.
  function Signed(negative: bool, v: int): int
  {
    if negative then -v else v
  }

  /// Single fields that both start like a number and both read as floats
  /// compare as `(v1 > v2) - (v1 < v2)` on their values.
  lemma NumericFields(l1: string, l2: string)
    requires '\t' !in l1 && '\t' !in l2 && NumericStart(l1) && NumericStart(l2)
    requires Parse(l1).Some? && Parse(l2).Some?
    ensures LineComp(l1, l2) == FloatCmp(Parse(l1).value, Parse(l2).value)
  {
    NoTabSplit(l1);
    NoTabSplit(l2);
  }

  lemma {:induction false} Pow10Add(a: nat, b: nat)
    ensures Pow10(a + b) == Pow10(a) * Pow10(b)
    decreases a
  {
    if a > 0 {
      Pow10Add(a - 1, b);
      assert Pow10(a + b) == 10 * Pow10(a - 1 + b);
    }
  }

  lemma SignScaled(a: int, b: int, p: nat)
    requires p >= 1
    ensures Sign(a * p - b * p) == Sign(a - b)
  {
    if a < b {
      Scale(a, b, p);
    } else if b < a {
      Scale(b, a, p);
    }
  }

  lemma ScaledBy(m: int, e: int, lo: int, e0: int)
    requires e0 <= lo <= e
    ensures m * Pow10(e - e0) == m * Pow10(e - lo) * Pow10(lo - e0)
  {
    Pow10Add(e - lo, lo - e0);
    assert m * (Pow10(e - lo) * Pow10(lo - e0)) == m * Pow10(e - lo) * Pow10(lo - e0);
  }

  /// Two finite values compare by the sign of their exact difference, counted
  /// in units of any power of ten `10^e0` that divides both.
  lemma FiniteCmp(m1: int, e1: int, m2: int, e2: int, e0: int)
    requires e0 <= e1 && e0 <= e2
    ensures FloatCmp(Finite(m1, e1), Finite(m2, e2))
      == Sign(m1 * Pow10(e1 - e0) - m2 * Pow10(e2 - e0))
  {
    var lo := if e1 <= e2 then e1 else e2;
    var a, b := Scaled(m1, e1, e2), Scaled(m2, e2, e1);
    assert a == m1 * Pow10(e1 - lo);
    assert b == m2 * Pow10(e2 - lo);
    ScaledBy(m1, e1, lo, e0);
    ScaledBy(m2, e2, lo, e0);
    SignScaled(a, b, Pow10(lo - e0));
  }

  lemma DigitsNoTab(s: string)
    requires AllDigits(s)
    ensures '\t' !in s
  {
    assert forall k | 0 <= k < |s| :: s[k] != '\t';
  }

  /// A printed finite decimal is a single field that starts like a number.
  lemma RenderedField(m: int, e: int)
    ensures '\t' !in Render(m, e) && NumericStart(Render(m, e))
  {
    var n: nat := if m < 0 then -m else m;
    var digits, exps := ShowNat(n), ShowNat(if e < 0 then -e else e);
    DigitsNoTab(digits);
    DigitsNoTab(exps);
    assert RenderUnsigned(n, e) == digits + ("e" + (if e < 0 then "-" else "") + exps);
    assert Render(m, e)[0] == if m < 0 then '-' else digits[0];
  }

  /// Two printed finite decimals compare by the sign of the exact difference
  /// of the values they print.
  lemma RenderedOrder(m1: int, e1: int, m2: int, e2: int, e0: int)
    requires e0 <= e1 && e0 <= e2
    ensures LineComp(Render(m1, e1), Render(m2, e2))
      == Sign(m1 * Pow10(e1 - e0) - m2 * Pow10(e2 - e0))
  {
    RenderedField(m1, e1);
    RenderedField(m2, e2);
    ParseRender(m1, e1);
    ParseRender(m2, e2);
    NumericFields(Render(m1, e1), Render(m2, e2));
    FiniteCmp(m1, e1, m2, e2, e0);
  }

  lemma DigitsEnds(digits: string)
    requires digits != [] && AllDigits(digits)
    ensures '\t' !in digits && NumericStart(digits)
    ensures IsDigit(digits[0]) && !IsSpace(digits[|digits| - 1])
  {
    DigitsNoTab(digits);
    assert IsDigit(digits[|digits| - 1]);
  }

  /// A field of ASCII digits reads as the integer it denotes.
  lemma UnsignedField(digits: string)
    requires digits != [] && AllDigits(digits)
    ensures '\t' !in digits && NumericStart(digits)
    ensures Parse(digits) == Some(Finite(Value(digits), 0))
  {
    DigitsEnds(digits);
    UnsignedInteger(digits);
    assert digits == "" + digits;
    SignedDecimal(digits, false, digits, Value(digits), 0);
  }

  /// Integers compare by the sign of their difference.
  lemma IntegerCmp(x: int, y: int)
    ensures FloatCmp(Finite(x, 0), Finite(y, 0)) == Sign(x - y)
  {
  }

  /// `NumericFields` with the values named.
  lemma NumericValues(l1: string, l2: string, v1: Float, v2: Float)
    requires '\t' !in l1 && '\t' !in l2 && NumericStart(l1) && NumericStart(l2)
    requires Parse(l1) == Some(v1) && Parse(l2) == Some(v2)
    ensures LineComp(l1, l2) == FloatCmp(v1, v2)
  {
    NumericFields(l1, l2);
  }

  /// Fields of ASCII digits compare by the integers they denote: `2 < 10`
  /// and `19 > 2`, where the text and the Rust comparator say otherwise.
  lemma IntegerFields(d1: string, d2: string)
    requires d1 != [] && AllDigits(d1) && d2 != [] && AllDigits(d2)
    ensures LineComp(d1, d2) == Sign(Value(d1) - Value(d2))
  {
    UnsignedField(d1);
    UnsignedField(d2);
    NumericValues(d1, d2, Finite(Value(d1), 0), Finite(Value(d2), 0));
    IntegerCmp(Value(d1), Value(d2));
  }

  /// `digits.digits`: ASCII digits around one point, at least one digit.
  predicate PointNumeral(body: string, a: nat)
  {
    a < |body| && body[a] == '.' && |body| > 1
    && forall k | 0 <= k < |body| && k != a :: IsDigit(body[k])
  }

  lemma PointLayout(body: string, a: nat)
    requires PointNumeral(body, a)
    ensures AllDigits(body[..a] + body[a + 1..]) && '\t' !in body && NumericStart(body)
    ensures IsDigit(body[0]) || body[0] == '.'
    ensures !IsSpace(body[|body| - 1])
  {
    var digits := body[..a] + body[a + 1..];
    forall k | 0 <= k < |digits| ensures IsDigit(digits[k]) {
      if k < a { assert digits[k] == body[k]; } else { assert digits[k] == body[k + 1]; }
    }
    assert forall k | 0 <= k < |body| :: body[k] != '\t';
    if a > 0 { assert IsDigit(body[0]); }
    assert body[|body| - 1] == '.' || IsDigit(body[|body| - 1]);
  }

  /// A point numeral reads as its digits scaled down by the number of digits
  /// after the point.
  lemma PointField(body: string, a: nat)
    requires PointNumeral(body, a)
    ensures AllDigits(body[..a] + body[a + 1..]) && '\t' !in body && NumericStart(body)
    ensures Parse(body) == Some(Finite(Value(body[..a] + body[a + 1..]), a + 1 - |body|))
  {
    PointLayout(body, a);
    PointValue(body, a);
    PlainLiteral(body, Value(body[..a] + body[a + 1..]), a + 1 - |body|);
  }

  lemma PointValue(body: string, a: nat)
    requires PointNumeral(body, a)
    ensures AllDigits(body[..a] + body[a + 1..])
    ensures ParseUnsigned(body) == Some(Finite(Value(body[..a] + body[a + 1..]), a + 1 - |body|))
  {
    PointLayout(body, a);
    UnsignedPoint(body, a);
  }

  lemma Value42()
    ensures Value("42") == 42 && Value("042") == 42 && Value("0042") == 42 && Value("420") == 420
  {
    assert "42"[1..] == "2" && "2"[1..] == [];
    assert "042"[1..] == "42" && "0042"[1..] == "042";
    assert "420"[1..] == "20" && "20"[1..] == "0" && "0"[1..] == [];
  }

  /// `float` of a literal that starts with a digit or a point and does not
  /// end with whitespace is the literal's unsigned value.
  lemma PlainLiteral(s: string, m: nat, e: int)
    requires s != [] && (IsDigit(s[0]) || s[0] == '.') && !IsSpace(s[|s| - 1])
    requires ParseUnsigned(s) == Some(Finite(m, e))
    ensures Parse(s) == Some(Finite(m, e))
  {
    assert s == "" + s;
    SignedDecimal(s, false, s, m, e);
  }

  /// `float` of a minus sign before such a literal is its value negated.
  lemma MinusLiteral(s: string, body: string, m: nat, e: int)
    requires body != [] && (IsDigit(body[0]) || body[0] == '.') && IsDigit(body[|body| - 1])
    requires s == "-" + body && ParseUnsigned(body) == Some(Finite(m, e))
    ensures Parse(s) == Some(Finite(-(m as int), e))
  {
    SignedDecimal(s, true, body, m, e);
  }

  lemma ZeroPointFortyTwoValue()
    ensures ParseUnsigned("0.42") == Some(Finite(42, -2))
  {
    Value42();
    assert "0.42"[..1] + "0.42"[2..] == "042";
    UnsignedPoint("0.42", 1);
  }

  lemma ZeroPointFortyTwo()
    ensures Parse("0.42") == Some(Finite(42, -2))
  {
    ZeroPointFortyTwoValue();
    PlainLiteral("0.42", 42, -2);
  }

  lemma ZeroPointZeroFortyTwoValue()
    ensures ParseUnsigned("0.042") == Some(Finite(42, -3))
  {
    Value42();
    assert "0.042"[..1] + "0.042"[2..] == "0042";
    UnsignedPoint("0.042", 1);
  }

  lemma ZeroPointZeroFortyTwo()
    ensures Parse("0.042") == Some(Finite(42, -3))
  {
    ZeroPointZeroFortyTwoValue();
    PlainLiteral("0.042", 42, -3);
  }

  lemma FourPointTwoValue()
    ensures ParseUnsigned("4.2") == Some(Finite(42, -1))
  {
    Value42();
    assert "4.2"[..1] + "4.2"[2..] == "42";
    UnsignedPoint("4.2", 1);
  }

  lemma FourPointTwo()
    ensures Parse("4.2") == Some(Finite(42, -1))
  {
    FourPointTwoValue();
    PlainLiteral("4.2", 42, -1);
  }

  lemma FortyTwoPointZeroValue()
    ensures ParseUnsigned("42.0") == Some(Finite(420, -1))
  {
    Value42();
    assert "42.0"[..2] + "42.0"[3..] == "420";
    UnsignedPoint("42.0", 2);
  }

  lemma FortyTwoPointZero()
    ensures Parse("42.0") == Some(Finite(420, -1))
  {
    FortyTwoPointZeroValue();
    PlainLiteral("42.0", 420, -1);
  }

  lemma PointFortyTwoValue()
    ensures ParseUnsigned(".42") == Some(Finite(42, -2))
  {
    Value42();
    assert ".42"[..0] + ".42"[1..] == "42";
    UnsignedPoint(".42", 0);
  }

  lemma PointFortyTwo()
    ensures Parse(".42") == Some(Finite(42, -2))
  {
    PointFortyTwoValue();
    PlainLiteral(".42", 42, -2);
  }

  lemma MinusPointFortyTwo()
    ensures '\t' !in "-.42" && NumericStart("-.42") && Parse("-.42") == Some(Finite(-42, -2))
  {
    PointFortyTwoValue();
    MinusLiteral("-.42", ".42", 42, -2);
  }

  lemma FortyTwo()
    ensures '\t' !in "42" && NumericStart("42") && Parse("42") == Some(Finite(42, 0))
  {
    Value42();
    UnsignedField("42");
  }

  /// `0.42 > 0.042`: 42 hundredths against 42 thousandths.
  lemma HundredthsCase()
    ensures LineComp("0.42", "0.042") == 1
  {
    ZeroPointFortyTwo();
    ZeroPointZeroFortyTwo();
    NumericValues("0.42", "0.042", Finite(42, -2), Finite(42, -3));
    FiniteCmp(42, -2, 42, -3, -3);
  }

  /// `4.2 < 42.0`: the text compares the other way at its second character.
  lemma TenthsCase()
    ensures LineComp("4.2", "42.0") == -1
  {
    FourPointTwo();
    FortyTwoPointZero();
    NumericValues("4.2", "42.0", Finite(42, -1), Finite(420, -1));
    FiniteCmp(42, -1, 420, -1, -1);
  }

  /// `-.42 < .42`: a minus sign before the point negates the value.
  lemma NegativePointCase()
    ensures LineComp("-.42", ".42") == -1
  {
    PointFortyTwo();
    MinusPointFortyTwo();
    NumericValues("-.42", ".42", Finite(-42, -2), Finite(42, -2));
    FiniteCmp(-42, -2, 42, -2, -2);
  }

  /// `.42 > -.42`.
  lemma PositivePointCase()
    ensures LineComp(".42", "-.42") == 1
  {
    NegativePointCase();
    Antisymmetric("-.42", ".42");
  }

  /// `42 == 42.0`: equal values tie although the texts differ.
  lemma EqualValueCase()
    ensures LineComp("42", "42.0") == 0
  {
    FortyTwo();
    FortyTwoPointZero();
    NumericValues("42", "42.0", Finite(42, 0), Finite(420, -1));
    FiniteCmp(42, 0, 420, -1, -1);
  }

  /// `0.42 < 4.2`.
  lemma FractionCase()
    ensures LineComp("0.42", "4.2") == -1
  {
    ZeroPointFortyTwo();
    FourPointTwo();
    NumericValues("0.42", "4.2", Finite(42, -2), Finite(42, -1));
    FiniteCmp(42, -2, 42, -1, -2);
  }

  /// `foo\t0.42 < foo\t4.2`: equal heads, then the second fields by value.
  lemma SecondFieldCase()
    ensures LineComp("foo\t0.42", "foo\t4.2") == -1
  {
    HeadCmpProperties("foo", "foo");
    assert "foo\t0.42" == "foo" + ['\t'] + "0.42" && "foo\t4.2" == "foo" + ['\t'] + "4.2";
    TwoFields("foo", "0.42", "foo", "4.2");
    FractionCase();
  }

  lemma ZeroAndOne()
    ensures AllDigits("0") && AllDigits("1") && Value("0") == 0 && Value("1") == 1
  {
    assert "0"[1..] == [] && "1"[1..] == [];
  }

  lemma ZeroOne()
    ensures '\t' !in "0" && NumericStart("0") && Parse("0") == Some(Finite(0, 0))
    ensures '\t' !in "1" && NumericStart("1") && Parse("1") == Some(Finite(1, 0))
  {
    ZeroAndOne();
    UnsignedField("0");
    UnsignedField("1");
  }

  /// `0 < 1`.
  lemma ZeroOneCase()
    ensures LineComp("0", "1") == -1
  {
    ZeroOne();
    NumericValues("0", "1", Finite(0, 0), Finite(1, 0));
    IntegerCmp(0, 1);
  }

  /// `1 > 0`.
  lemma OneZeroCase()
    ensures LineComp("1", "0") == 1
  {
    ZeroOneCase();
    Antisymmetric("0", "1");
  }

  lemma ZeroMinusOne()
    ensures '\t' !in "0" && NumericStart("0") && Parse("0") == Some(Finite(0, 0))
    ensures '\t' !in "-1" && NumericStart("-1") && Parse("-1") == Some(Finite(-1, 0))
  {
    ZeroAndOne();
    UnsignedField("0");
    UnsignedInteger("1");
    MinusLiteral("-1", "1", 1, 0);
  }

  /// `0 > -1`.
  lemma MinusOneCase()
    ensures LineComp("0", "-1") == 1
  {
    ZeroMinusOne();
    NumericValues("0", "-1", Finite(0, 0), Finite(-1, 0));
    IntegerCmp(0, -1);
  }

  /// `-1 < 0`.
  lemma MinusOneSwapped()
    ensures LineComp("-1", "0") == -1
  {
    MinusOneCase();
    Antisymmetric("0", "-1");
  }
}
