// Numbers, not digit strings: the decimal text of an integer or a fraction is read as its
// value. Texts are written with the ten digits here, independently of the parser's loops.

module DecimalNumbers {
  import opened DecimalParser

  const DIGITS := "0123456789"

  function Decimal(n: nat): string {
    if n < 10 then [DIGITS[n]] else Decimal(n / 10) + [DIGITS[n % 10]]
  }

  // The last f digits of x, with leading zeros.
  function Padded(x: nat, f: nat): string {
    if f == 0 then "" else Padded(x / 10, f - 1) + [DIGITS[x % 10]]
  }

  // With z zeros in front.
  function Zeroed(z: nat, n: nat): string {
    if z == 0 then Decimal(n) else "0" + Zeroed(z - 1, n)
  }

  function IntText(m: int): string {
    if m < 0 then "-" + Decimal(-m) else Decimal(m)
  }

  function TenTo(k: nat): (p: nat)
    ensures p > 0
  {
    if k == 0 then 1 else 10 * TenTo(k - 1)
  }

  // v is n times the k-th power of ten.
  predicate IsScaled(v: real, n: int, k: int) {
    if k >= 0 then v == (n * TenTo(k)) as real else v * TenTo(-k) as real == n as real
  }

  // ---------- digits ----------

  lemma DigitOf(d: nat)
    requires d < 10
    ensures '0' <= DIGITS[d] <= '9' && Digit(DIGITS[d]) == d
  {
  }

  lemma DigitsAppend(s: string, d: nat)
    requires Digits(s) && d < 10
    ensures Digits(s + [DIGITS[d]])
  {
    DigitOf(d);
  }

  lemma {:induction false} DecimalIs(n: nat)
    ensures Num(Decimal(n)) == n as real && Digits(Decimal(n)) && Decimal(n) != ""
  {
    if n < 10 {
      DigitOf(n);
      NumSnoc("", DIGITS[n]);
      assert "" + [DIGITS[n]] == [DIGITS[n]];
    } else {
      DecimalIs(n / 10);
      DigitOf(n % 10);
      DigitsAppend(Decimal(n / 10), n % 10);
      NumSnoc(Decimal(n / 10), DIGITS[n % 10]);
      TenSplit(n);
    }
  }

  lemma TenSplit(n: nat)
    ensures n as real == 10.0 * (n / 10) as real + (n % 10) as real
  {
    assert n == 10 * (n / 10) + n % 10;
  }

  lemma {:induction false} ZeroedIs(z: nat, n: nat)
    ensures Num(Zeroed(z, n)) == n as real && Digits(Zeroed(z, n)) && Zeroed(z, n) != ""
  {
    if z == 0 {
      DecimalIs(n);
    } else {
      ZeroedIs(z - 1, n);
      NumCons('0', Zeroed(z - 1, n));
      assert Mul(0.0, Pow10(|Zeroed(z - 1, n)|)) == 0.0;
    }
  }

  // Digits before the point, and f digits behind it.
  lemma {:induction false} PaddedIs(s: string, w: nat, x: nat, f: nat)
    requires Num(s) == w as real && x < TenTo(f)
    ensures Num(s + Padded(x, f)) == (w * TenTo(f) + x) as real
    ensures Digits(Padded(x, f)) && |Padded(x, f)| == f
    decreases f
  {
    if f == 0 {
      assert s + "" == s;
    } else {
      PaddedIs(s, w, x / 10, f - 1);
      DigitOf(x % 10);
      DigitsAppend(Padded(x / 10, f - 1), x % 10);
      assert s + Padded(x, f) == (s + Padded(x / 10, f - 1)) + [DIGITS[x % 10]];
      NumSnoc(s + Padded(x / 10, f - 1), DIGITS[x % 10]);
      TenShift(w, TenTo(f - 1), x);
    }
  }

  lemma TenShift(w: nat, p: nat, x: nat)
    ensures (w * (10 * p) + x) as real == 10.0 * (w * p + x / 10) as real + (x % 10) as real
  {
    assert w * (10 * p) == 10 * (w * p);
    assert w * (10 * p) + x == 10 * (w * p + x / 10) + x % 10;
  }

  lemma {:induction false} TenToIsPow10(k: nat)
    ensures Pow10(k) == TenTo(k) as real
  {
    if k > 0 { TenToIsPow10(k - 1); }
  }

  lemma ScaledByPow10(n: int, k: int)
    ensures IsScaled(Mul(n as real, Pow10(k)), n, k)
  {
    if k >= 0 {
      TenToIsPow10(k);
      ProductOf(n, TenTo(k));
    } else {
      TenToIsPow10(-k);
      Pow10Add(k, -k);
      MulAssoc(n as real, Pow10(k), Pow10(-k));
      Unit(n as real);
    }
  }

  lemma ProductOf(n: int, p: int)
    ensures Mul(n as real, p as real) == (n * p) as real
  {
  }

  lemma Unit(x: real)
    ensures Mul(x, 1.0) == x
  {
  }

  // ---------- the text of a number ----------

  // The free choices of a text: a '+' or zeros in front, a point, the letter, a '+' or zeros
  // in the exponent.
  datatype Layout = Layout(plus: bool, zeros: nat, point: bool, letter: char, eplus: bool, ezeros: nat)

  // Sign, digits, point and f digits, letter, sign, digits.
  function NumberText(neg: bool, w: nat, x: nat, f: nat, e: int, l: Layout): string {
    (if neg then "-" else if l.plus then "+" else "") + Zeroed(l.zeros, w)
    + (if l.point then "." + Padded(x, f) else "")
    + [l.letter] + (if e < 0 then "-" else if l.eplus then "+" else "") + Zeroed(l.ezeros, if e < 0 then -e else e)
  }

  function StyleOf(l: Layout): Style { Style(l.plus, l.point, l.letter, l.eplus) }

  function Parts(neg: bool, w: nat, x: nat, f: nat, e: int, l: Layout): Number {
    Number(neg, Zeroed(l.zeros, w), Padded(x, f), e < 0, Zeroed(l.ezeros, if e < 0 then -e else e))
  }

  lemma TextIsPrint(neg: bool, w: nat, x: nat, f: nat, e: int, l: Layout)
    ensures NumberText(neg, w, x, f, e, l) == Print(Parts(neg, w, x, f, e, l), StyleOf(l))
  {
    var n, style := Parts(neg, w, x, f, e, l), StyleOf(l);
    Regroup(Mantissa(n, style), [l.letter], SignText(n.eneg, l.eplus), n.exp);
  }

  // All digits as one integer, with the sign.
  function Unscaled(neg: bool, w: nat, x: nat, f: nat): int {
    if neg then -(w * TenTo(f) + x) else w * TenTo(f) + x
  }

  lemma ScientificIs(neg: bool, w: nat, x: nat, f: nat, e: int, l: Layout)
    requires x < TenTo(f)
    ensures IsScaled(Scientific(Parts(neg, w, x, f, e, l)), Unscaled(neg, w, x, f), e - f)
  {
    var n := Parts(neg, w, x, f, e, l);
    ZeroedIs(l.zeros, w);
    PaddedIs(n.whole, w, x, f);
    ExponentIs(n, e, l.ezeros);
    assert Signed(neg, Num(n.whole + n.frac)) == Unscaled(neg, w, x, f) as real;
    ScaledByPow10(Unscaled(neg, w, x, f), e - f);
  }

  lemma ExponentIs(n: Number, e: int, z: nat)
    requires n.eneg == (e < 0) && n.exp == Zeroed(z, if e < 0 then -e else e)
    ensures Exp(n) == e
  {
    ZeroedIs(z, if e < 0 then -e else e);
    NumIsInt(n.exp);
  }

  /** Parsing undoes the printing of numbers. The text of a number with f digits behind the
      point and any exponent, in any layout, reads as that number, unless it is one of the two
      codes of the instrument. */
  lemma ReadsNumber(neg: bool, w: nat, x: nat, f: nat, e: int, l: Layout)
    requires x < TenTo(f) && (l.letter == 'e' || l.letter == 'E') && (!l.point ==> f == 0)
    ensures var text := NumberText(neg, w, x, f, e, l);
            var r := Read(Text(text));
            if text == "9.9E+37" then r == NaN
            else if text == "9.91E+37" then r == Infinity
            else r.Value? && IsScaled(r.v, Unscaled(neg, w, x, f), e - f)
  {
    TextIsPrint(neg, w, x, f, e, l);
    ZeroedIs(l.zeros, w);
    ZeroedIs(l.ezeros, if e < 0 then -e else e);
    PaddedIs(Zeroed(l.zeros, w), w, x, f);
    ParseUndoesPrint(Parts(neg, w, x, f, e, l), StyleOf(l));
    ScientificIs(neg, w, x, f, e, l);
  }

  // No sign but a minus, no zeros, no point, 'E'.
  const PLAIN := Layout(false, 0, false, 'E', false, 0)

  lemma Assoc(a: string, b: string, c: string)
    ensures (a + b) + c == a + (b + c)
  {
  }

  lemma IntTexts(m: int, e: int)
    ensures IntText(m) + "E" + IntText(e) == NumberText(m < 0, if m < 0 then -m else m, 0, 0, e, PLAIN)
  {
    var sign, digits := if e < 0 then "-" else "", Decimal(if e < 0 then -e else e);
    IntTextIs(m);
    IntTextIs(e);
    Assoc(IntText(m) + "E", sign, digits);
  }

  lemma IntTextIs(m: int)
    ensures IntText(m) == (if m < 0 then "-" else "") + Decimal(if m < 0 then -m else m)
    ensures IntText(m) + "" == IntText(m)
  {
  }

  lemma NoPoint(m: int, e: int)
    ensures '.' !in IntText(m) + "E" + IntText(e)
  {
    DecimalIs(if m < 0 then -m else m);
    DecimalIs(if e < 0 then -e else e);
  }

  lemma NoCode(s: string)
    requires '.' !in s
    ensures s != "9.9E+37" && s != "9.91E+37"
  {
    assert '.' in "9.9E+37" && '.' in "9.91E+37";
  }

  /** For all integers m and e, the text of m, 'E' and the text of e reads as m times ten to
      the e. */
  lemma ReadsInteger(m: int, e: int)
    ensures var r := Read(Text(IntText(m) + "E" + IntText(e)));
            r.Value? && IsScaled(r.v, m, e)
  {
    var text, w := IntText(m) + "E" + IntText(e), if m < 0 then -m else m;
    IntTexts(m, e);
    NoPoint(m, e);
    NoCode(text);
    ReadsNumber(m < 0, w, 0, 0, e, PLAIN);
    assert Unscaled(m < 0, w, 0, 0) == m;
  }
}
