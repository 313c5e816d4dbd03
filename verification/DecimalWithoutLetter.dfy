// What parse_float_str makes of a decimal text without the exponent letter, such as "3.5":
// the search for the letter fails, and the whole text is taken for the exponent.

module DecimalWithoutLetter {
  import opened DecimalParser
  import opened DecimalNumbers

  /** Without a letter and without a point every text reads as zero. */
  lemma WithoutLetterZero(s: string)
    requires forall c :: c in s ==> !IsExponent(c) && !IsPoint(c)
    ensures Read(Text(s)) == Value(0.0)
  {
    assert forall j :: 0 <= j < |s| ==> s[j] in s;
    assert s != "9.9E+37" && s != "9.91E+37" by { assert "9.9E+37"[1] == '.' && "9.91E+37"[1] == '.'; }
    assert FracSum("") + Num("") == 0.0;
    MulZero(Pow10(Exp(Split(s))));
  }

  lemma MulZero(x: real)
    ensures Mul(0.0, x) == 0.0
  {
  }

  // Sign, digits and, in a style with a point, point and digits.
  predicate PlainDecimal(n: Number, style: Style) {
    Digits(n.whole) && Digits(n.frac) && (n.frac != "" ==> style.point)
  }

  function PlainValue(n: Number): real { Signed(n.neg, Num(n.whole) + FracSum(n.frac)) }

  // How the parser cuts it: the fraction is lost, and everything behind the sign, the point
  // included, becomes the exponent.
  function Misread(n: Number): Number {
    Number(n.neg, n.whole, "", n.neg, n.whole + "." + n.frac)
  }

  lemma SplitPlain(n: Number, style: Style)
    requires PlainDecimal(n, style) && style.point
    ensures Split(Mantissa(n, style)) == Misread(n)
  {
    PlainSearches(n, style);
    PlainParts(n, style);
    SplitPlainAt(Mantissa(n, style), n, |SignText(n.neg, style.plus)|, |SignText(n.neg, style.plus)| + |n.whole|);
  }

  lemma PlainParts(n: Number, style: Style)
    requires PlainDecimal(n, style) && style.point
    ensures var s, sg := Mantissa(n, style), SignText(n.neg, style.plus);
            && (At(s, 0) == '-' <==> n.neg) && |sg| == (if IsSign(At(s, 0)) then 1 else 0)
            && s[|sg|..|sg| + |n.whole|] == n.whole && s[|sg|..] == n.whole + "." + n.frac
  {
    var s, sg, rest := Mantissa(n, style), SignText(n.neg, style.plus), n.whole + "." + n.frac;
    assert s == sg + rest;
    assert n.whole != "" ==> n.whole[0] in n.whole;
    assert At(rest, 0) == if n.whole != "" then n.whole[0] else '.';
    SignFirst(n.neg, style.plus, rest);
    Behind(sg, rest, 0);
    assert s == sg + n.whole + ("." + n.frac);
    Middle(sg, n.whole, "." + n.frac);
  }

  // With a point at d and no letter, the exponent starts where the digits start.
  lemma SplitPlainAt(s: string, n: Number, w: nat, d: nat)
    requires w <= d < |s| && w == (if IsSign(At(s, 0)) then 1 else 0)
    requires n.neg == (At(s, 0) == '-') && n.whole == s[w..d] && n.whole + "." + n.frac == s[w..]
    ensures SplitAt(s, d, -1) == Misread(n)
  {
  }

  lemma PlainSearches(n: Number, style: Style)
    requires PlainDecimal(n, style) && style.point
    ensures var s := Mantissa(n, style);
            && IndexOf(s, IsExponent, 0) == -1
            && IndexOf(s, IsPoint, 0) == |SignText(n.neg, style.plus)| + |n.whole|
  {
    var s, front := Mantissa(n, style), SignText(n.neg, style.plus) + n.whole;
    forall j | 0 <= j < |s| ensures !IsExponent(s[j]) { assert s[j] in s; }
    forall j | 0 <= j < |front| ensures !IsPoint(s[j]) {
      assert s[j] == front[j] && front[j] in front;
    }
    IndexIs(s, IsPoint, 0, |front|);
  }

  // ---------- sizes ----------

  lemma DigitsInit(s: string)
    requires s != "" && Digits(s)
    ensures Digits(s[..|s| - 1]) && 0 <= Digit(s[|s| - 1]) <= 9
  {
    var t := s[..|s| - 1];
    assert s[|s| - 1] in s;
    forall c | c in t ensures '0' <= c <= '9' { assert c in s; }
  }

  lemma {:induction false} DigitsNotNegative(s: string)
    requires Digits(s)
    ensures NumInt(s) >= 0
    decreases |s|
  {
    if s != "" {
      DigitsInit(s);
      DigitsNotNegative(s[..|s| - 1]);
    }
  }

  // Further digits do not make a number smaller.
  lemma {:induction false} DigitsGrow(a: string, b: string)
    requires Digits(b) && NumInt(a) >= 0
    ensures NumInt(a + b) >= NumInt(a)
    decreases |b|
  {
    if b == "" {
      assert a + b == a;
    } else {
      var t := b[..|b| - 1];
      DigitsInit(b);
      assert (a + b)[..|a| + |t|] == a + t;
      DigitsGrow(a, t);
    }
  }

  lemma ExponentIsPositive(n: Number)
    requires Digits(n.whole) && Digits(n.frac) && NumInt(n.whole) > 0
    ensures NumInt(n.whole + "." + n.frac) >= 1
  {
    assert (n.whole + ".")[..|n.whole|] == n.whole;
    assert NumInt(n.whole + ".") == 10 * NumInt(n.whole) - 2;
    DigitsGrow(n.whole + ".", n.frac);
  }

  lemma {:induction false} FractionBelowOne(f: string)
    requires Digits(f)
    ensures 0.0 <= FracSum(f) <= 1.0 - Pow10(-|f|) && Pow10(-|f|) > 0.0
    decreases |f|
  {
    if f != "" {
      DigitsInit(f);
      FractionBelowOne(f[..|f| - 1]);
      Pow10Step(-|f|);
      MulDigit(Digit(f[|f| - 1]), Pow10(-|f|));
    }
  }

  lemma MulDigit(d: int, p: real)
    requires 0 <= d <= 9 && p > 0.0
    ensures 0.0 <= Mul(d as real, p) <= 9.0 * p
  {
    var x, r := d as real, 9.0 - d as real;
    NotNegative(x, p);
    NotNegative(r, p);
    MulAdd(x, r, p);
    assert x + r == 9.0;
  }

  lemma NotNegative(x: real, y: real)
    requires x >= 0.0 && y >= 0.0
    ensures Mul(x, y) >= 0.0
  {
  }

  lemma {:induction false} PowersOfTen(k: int)
    requires k >= 1
    ensures Pow10(k) >= 10.0 && 0.0 < Pow10(-k) <= 0.1
  {
    Pow10Step(-k);
    if k > 1 { PowersOfTen(k - 1); }
  }

  // Scaling by ten or more, or by a tenth or less, leaves the unit interval behind.
  lemma ScaledAway(w: real, f: real, p: real)
    requires w >= 1.0 && 0.0 <= f < 1.0 && (p >= 10.0 || 0.0 < p <= 0.1)
    ensures Mul(w, p) != w + f
  {
    if p >= 10.0 {
      NotNegative(w, p - 10.0);
      MulAdd2(w, p - 10.0, 10.0);
    } else {
      NotNegative(w, 0.1 - p);
      MulAdd2(w, 0.1 - p, p);
    }
  }

  lemma MulAdd2(x: real, y: real, z: real)
    ensures Mul(x, y + z) == Mul(x, y) + Mul(x, z)
  {
  }

  lemma MisreadDiffers(n: Number)
    requires Digits(n.whole) && Digits(n.frac) && NumInt(n.whole) > 0
    ensures Meaning(Misread(n)) != PlainValue(n) && PlainValue(n) != 0.0
  {
    var m := Misread(n);
    var e := NumInt(m.exp);
    ExponentIsPositive(n);
    PowersOfTen(e);
    FractionBelowOne(n.frac);
    NumIsInt(n.whole);
    SignedScale(n.neg, Num(n.whole), Pow10(Exp(m)));
    ScaledAway(Num(n.whole), FracSum(n.frac), Pow10(Exp(m)));
  }

  lemma MisreadZero(n: Number)
    requires Digits(n.whole) && NumInt(n.whole) == 0
    ensures Meaning(Misread(n)) == 0.0 && PlainValue(n) == Signed(n.neg, FracSum(n.frac))
  {
    NumIsInt(n.whole);
    MulZero(Pow10(Exp(Misread(n))));
  }

  lemma PointReadsRightIffZero(n: Number, style: Style)
    requires PlainDecimal(n, style) && style.point
    ensures Meaning(Split(Mantissa(n, style))) == PlainValue(n) <==> PlainValue(n) == 0.0
  {
    SplitPlain(n, style);
    DigitsNotNegative(n.whole);
    if NumInt(n.whole) > 0 { MisreadDiffers(n); } else { MisreadZero(n); }
  }

  /** The exponent letter is not optional: a decimal text without it reads as its value if and
      only if that value is zero. */
  lemma ReadsRightIffZero(n: Number, style: Style)
    requires PlainDecimal(n, style)
    ensures Read(Text(Mantissa(n, style))) == Value(PlainValue(n)) <==> PlainValue(n) == 0.0
  {
    NoLetter(n, style);
    if style.point {
      PointReadsRightIffZero(n, style);
    } else {
      WithoutLetterZero(Mantissa(n, style));
    }
  }

  // Such a text is not one of the two codes.
  lemma NoLetter(n: Number, style: Style)
    requires PlainDecimal(n, style)
    ensures var s := Mantissa(n, style);
            && s != "9.9E+37" && s != "9.91E+37"
            && (forall c :: c in s ==> !IsExponent(c))
            && (!style.point ==> forall c :: c in s ==> !IsPoint(c))
  {
    var s := Mantissa(n, style);
    assert 'E' !in s;
    assert "9.9E+37"[3] == 'E' && "9.91E+37"[4] == 'E';
  }

  // ---------- numbers ----------

  // The same text without the letter and the exponent.
  function PlainText(neg: bool, w: nat, x: nat, f: nat, l: Layout): string {
    (if neg then "-" else if l.plus then "+" else "") + Zeroed(l.zeros, w) + (if l.point then "." + Padded(x, f) else "")
  }

  lemma PlainValueIs(neg: bool, w: nat, x: nat, f: nat, l: Layout)
    requires x < TenTo(f)
    ensures IsScaled(PlainValue(Parts(neg, w, x, f, 0, l)), Unscaled(neg, w, x, f), 0 - f)
  {
    var n := Parts(neg, w, x, f, 0, l);
    ExponentIs(n, 0, l.ezeros);
    MeaningIsScientific(n);
    Unit(Signed(neg, FracSum(n.frac) + Num(n.whole)));
    ScientificIs(neg, w, x, f, 0, l);
  }

  lemma ScaledOnce(u: real, v: real, n: int, k: int)
    requires IsScaled(u, n, k)
    ensures IsScaled(v, n, k) <==> v == u
    ensures u == 0.0 <==> n == 0
  {
    if k >= 0 { NoZero(n, TenTo(k)); } else { OneFactor(u, v, TenTo(-k) as real, n as real); }
  }

  lemma NoZero(n: int, p: nat)
    requires p > 0
    ensures n * p == 0 <==> n == 0
  {
  }

  lemma OneFactor(u: real, v: real, p: real, x: real)
    requires p > 0.0 && u * p == x
    ensures v * p == x <==> v == u
    ensures u == 0.0 <==> x == 0.0
  {
    assert (v - u) * p == v * p - u * p;
  }

  lemma UnscaledZero(neg: bool, w: nat, x: nat, f: nat)
    ensures Unscaled(neg, w, x, f) == 0 <==> w == 0 && x == 0
  {
    NoZero(w, TenTo(f));
  }

  lemma PlainTextIs(neg: bool, w: nat, x: nat, f: nat, l: Layout)
    requires x < TenTo(f) && (!l.point ==> f == 0)
    ensures var n, style := Parts(neg, w, x, f, 0, l), StyleOf(l);
            PlainText(neg, w, x, f, l) == Mantissa(n, style) && PlainDecimal(n, style)
  {
    ZeroedIs(l.zeros, w);
    PaddedIs(Zeroed(l.zeros, w), w, x, f);
  }

  lemma ReadIsValue(n: Number, style: Style)
    requires PlainDecimal(n, style)
    ensures Read(Text(Mantissa(n, style))).Value?
  {
    NoLetter(n, style);
  }

  /** So, for numbers: without the letter the text of a number is read as that number if and
      only if the number is zero. */
  lemma LetterIsNeeded(neg: bool, w: nat, x: nat, f: nat, l: Layout)
    requires x < TenTo(f) && (!l.point ==> f == 0)
    ensures var r := Read(Text(PlainText(neg, w, x, f, l)));
            r.Value? && (IsScaled(r.v, Unscaled(neg, w, x, f), 0 - f) <==> w == 0 && x == 0)
  {
    var n, style, u := Parts(neg, w, x, f, 0, l), StyleOf(l), Unscaled(neg, w, x, f);
    PlainTextIs(neg, w, x, f, l);
    ReadIsValue(n, style);
    var v := Read(Text(Mantissa(n, style))).v;
    ReadsRightIffZero(n, style);
    PlainValueIs(neg, w, x, f, l);
    ScaledOnce(PlainValue(n), v, u, 0 - f);
    UnscaledZero(neg, w, x, f);
  }
}
