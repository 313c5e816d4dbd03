// parse_float_str of probes/libenergyyoko/yokosrv.c: decimal numbers in scientific notation,
// as the Yokogawa WT210 sends them, read into a real number and an exponent without bound.

module DecimalParser {

  datatype CString = Null | Text(s: string)

  datatype Reading = NaN | Infinity | Value(v: real)

  // ---------- numbers ----------

  function Digit(c: char): int { c as int - '0' as int }

  // The number written by a string of digits; other characters count by their distance to '0'.
  function Num(s: string): real {
    if s == "" then 0.0 else 10.0 * Num(s[..|s| - 1]) + Digit(s[|s| - 1]) as real
  }

  function NumInt(s: string): int {
    if s == "" then 0 else 10 * NumInt(s[..|s| - 1]) + Digit(s[|s| - 1])
  }

  lemma {:induction false} NumIsInt(s: string)
    ensures NumInt(s) as real == Num(s)
    decreases |s|
  {
    if s != "" { NumIsInt(s[..|s| - 1]); }
  }

  // Products of two variables get a name, so that equal factors give equal products.
  function Mul(x: real, y: real): real { x * y }

  // pow(10, k)
  function Pow10(k: int): real
    decreases if k < 0 then -k else k
  {
    if k == 0 then 1.0 else if k > 0 then 10.0 * Pow10(k - 1) else Pow10(k + 1) * 0.1
  }

  lemma Pow10Step(k: int)
    ensures Pow10(k + 1) == 10.0 * Pow10(k)
  {
  }

  lemma {:induction false} Pow10Add(a: int, b: nat)
    ensures Pow10(a + b) == Mul(Pow10(a), Pow10(b))
    decreases b
  {
    if b > 0 {
      Pow10Add(a, b - 1);
      Pow10Step(a + b - 1);
      MulTen(Pow10(a), Pow10(b - 1));
    }
  }

  lemma MulTen(x: real, y: real)
    ensures Mul(x, 10.0 * y) == 10.0 * Mul(x, y) == Mul(10.0 * x, y)
  {
  }

  lemma MulAdd(x: real, y: real, z: real)
    ensures Mul(x + y, z) == Mul(x, z) + Mul(y, z)
  {
  }

  lemma NumSnoc(s: string, c: char)
    ensures Num(s + [c]) == 10.0 * Num(s) + Digit(c) as real
  {
    assert (s + [c])[..|s|] == s;
  }

  lemma {:induction false} NumCons(c: char, s: string)
    ensures Num([c] + s) == Mul(Digit(c) as real, Pow10(|s|)) + Num(s)
    decreases |s|
  {
    if s == "" {
      assert [c] + s == "" + [c];
      NumSnoc("", c);
    } else {
      var t, d := s[..|s| - 1], s[|s| - 1];
      assert [c] + s == ([c] + t) + [d];
      NumSnoc([c] + t, d);
      NumCons(c, t);
      MulTen(Digit(c) as real, Pow10(|t|));
    }
  }

  lemma {:induction false} NumConcat(a: string, b: string)
    ensures Num(a + b) == Mul(Num(a), Pow10(|b|)) + Num(b)
    decreases |b|
  {
    if b == "" {
      assert a + b == a;
    } else {
      var t, d := b[..|b| - 1], b[|b| - 1];
      assert a + b == (a + t) + [d];
      NumSnoc(a + t, d);
      NumConcat(a, t);
      MulTen(Num(a), Pow10(|t|));
    }
  }

  // ---------- what the parser computes on any string ----------

  function IndexOf(s: string, p: char -> bool, i: nat): (k: int)
    requires i <= |s|
    ensures k == -1 || i <= k < |s|
    ensures k != -1 ==> p(s[k]) && forall j :: i <= j < k ==> !p(s[j])
    ensures k == -1 ==> forall j :: i <= j < |s| ==> !p(s[j])
    decreases |s| - i
  {
    if i == |s| then -1 else if p(s[i]) then i else IndexOf(s, p, i + 1)
  }

  predicate IsPoint(c: char) { c == '.' }

  predicate IsExponent(c: char) { c == 'e' || c == 'E' }

  predicate IsSign(c: char) { c == '+' || c == '-' }

  // A number as the parser cuts it out of a string.
  datatype Number = Number(neg: bool, whole: string, frac: string, eneg: bool, exp: string)

  function Sign(neg: bool): int { if neg then -1 else 1 }

  // The digits behind the point, each at its place.
  function FracSum(f: string): real {
    if f == "" then 0.0 else FracSum(f[..|f| - 1]) + Mul(Digit(f[|f| - 1]) as real, Pow10(-|f|))
  }

  function Signed(neg: bool, x: real): real { if neg then -x else x }

  function Exp(n: Number): int { if n.eneg then -NumInt(n.exp) else NumInt(n.exp) }

  // The mantissa as the two digit loops add it up, times the power of ten.
  function Meaning(n: Number): real {
    Mul(Signed(n.neg, FracSum(n.frac) + Num(n.whole)), Pow10(Exp(n)))
  }

  // str[i], the terminator included
  function At(s: string, i: nat): char
    requires i <= |s|
  {
    if i < |s| then s[i] else '\0'
  }

  // s[i..j], nothing when j is below i
  function Cut(s: string, i: nat, j: int): string
    requires j <= |s|
  {
    if i <= j then s[i..j] else ""
  }

  function Split(s: string): Number {
    SplitAt(s, IndexOf(s, IsPoint, 0), IndexOf(s, IsExponent, 0))
  }

  // The parts, for a point at dpos and a letter at epos, where -1 says that there is none.
  function SplitAt(s: string, dpos: int, epos: int): Number
    requires -1 <= dpos < |s| && -1 <= epos < |s|
  {
    var npos := if IsSign(At(s, 0)) then 1 else 0;
    var enpos := if IsSign(At(s, epos + 1)) then epos + 2 else epos + 1;
    Number(At(s, 0) == '-',
           Cut(s, npos, if dpos == -1 then epos else dpos),
           if dpos == -1 then "" else Cut(s, dpos + 1, epos),
           At(s, epos + 1) == '-',
           s[enpos..])
  }

  function Read(text: CString): Reading {
    match text
    case Null => Value(-1.0)
    case Text(s) =>
      if s == "9.9E+37" then NaN
      else if s == "9.91E+37" then Infinity
      else Value(Meaning(Split(s)))
  }

  // ---------- the loops ----------

  method Search(s: string, p: char -> bool) returns (pos: int)
    ensures pos == IndexOf(s, p, 0)
  {
    pos := -1;
    var i := 0;
    while i < |s|
      invariant i <= |s| && IndexOf(s, p, 0) == IndexOf(s, p, i)
    {
      if p(s[i]) {
        pos := i;
        break;
      }
      i := i + 1;
    }
  }

  // Digits after the point, from left to right.
  method AddFraction(s: string, dpos: nat, epos: int) returns (res: real)
    requires dpos < |s| && epos < |s|
    ensures res == FracSum(Cut(s, dpos + 1, epos))
  {
    res := 0.0;
    var coeff := 0.1;
    var i := 1;
    ghost var f := Cut(s, dpos + 1, epos);
    while i < epos - dpos
      invariant 1 <= i <= |f| + 1
      invariant coeff == Pow10(-i) && res == FracSum(f[..i - 1])
    {
      assert f[..i][..i - 1] == f[..i - 1];
      res := res + Mul(Digit(s[dpos + i]) as real, coeff);
      Pow10Step(-i - 1);
      coeff := coeff * 0.1;
      i := i + 1;
    }
    assert f[..i - 1] == f;
  }

  // One more digit to the left of the last j.
  lemma WholeStep(w: string, j: nat)
    requires j < |w|
    ensures Num(w[|w| - j - 1..]) == Mul(Digit(w[|w| - j - 1]) as real, Pow10(j)) + Num(w[|w| - j..])
  {
    assert w[|w| - j - 1..] == [w[|w| - j - 1]] + w[|w| - j..];
    NumCons(w[|w| - j - 1], w[|w| - j..]);
  }

  // Digits before the point, from right to left, added to res.
  method AddWhole(s: string, npos: nat, end: int, res: real) returns (sum: real)
    requires npos <= |s| && end <= |s|
    ensures sum == res + Num(Cut(s, npos, end))
  {
    sum := res;
    var coeff := 1.0;
    var i := end - 1;
    ghost var w := Cut(s, npos, end);
    while i >= npos
      invariant 0 <= end - 1 - i <= |w| && i < end
      invariant coeff == Pow10(end - 1 - i) && sum == res + Num(w[|w| - (end - 1 - i)..])
    {
      WholeStep(w, end - 1 - i);
      Pow10Step(end - 1 - i);
      sum := sum + Mul(Digit(s[i]) as real, coeff);
      coeff := coeff * 10.0;
      i := i - 1;
    }
    assert w[|w| - (end - 1 - i)..] == w;
  }

  // A double assigned to an int variable.
  function Truncate(x: real): int {
    if x >= 0.0 then x.Floor else -(-x).Floor
  }

  // eval += digit * coeff, on an int and a double
  lemma TruncateStep(w: string, j: nat)
    requires j < |w|
    ensures Truncate(NumInt(w[|w| - j..]) as real + Mul(Digit(w[|w| - j - 1]) as real, Pow10(j)))
         == NumInt(w[|w| - j - 1..])
  {
    WholeStep(w, j);
    NumIsInt(w[|w| - j..]);
    NumIsInt(w[|w| - j - 1..]);
    var n := NumInt(w[|w| - j - 1..]);
    assert (n as real).Floor == n && (-(n as real)).Floor == -n;
  }

  // After the last j digits of w.
  predicate ExponentSoFar(w: string, j: int, coeff: real, eval: int) {
    0 <= j <= |w| && coeff == Pow10(j) && eval == NumInt(w[|w| - j..])
  }

  lemma ExponentStep(w: string, j: nat, coeff: real, eval: int)
    requires ExponentSoFar(w, j, coeff, eval) && j < |w|
    ensures ExponentSoFar(w, j + 1, coeff * 10.0,
                          Truncate(eval as real + Mul(Digit(w[|w| - j - 1]) as real, coeff)))
  {
    TruncateStep(w, j);
    Pow10Step(j);
  }

  lemma ExponentEnds(w: string, coeff: real, eval: int)
    requires ExponentSoFar(w, |w|, coeff, eval)
    ensures eval == NumInt(w)
  {
    assert w[|w| - |w|..] == w;
  }

  // Digits of the exponent, from right to left.
  method Exponent(s: string, enpos: nat) returns (eval: int)
    requires enpos <= |s|
    ensures eval == NumInt(s[enpos..])
  {
    eval := 0;
    var coeff := 1.0;
    var i := |s| - 1;
    ghost var w := s[enpos..];
    while i >= enpos
      invariant enpos - 1 <= i < |s| && ExponentSoFar(w, |s| - 1 - i, coeff, eval)
    {
      ExponentStep(w, |s| - 1 - i, coeff, eval);
      eval := Truncate(eval as real + Mul(Digit(s[i]) as real, coeff));
      coeff := coeff * 10.0;
      i := i - 1;
    }
    ExponentEnds(w, coeff, eval);
  }

  // A sign at position i: its value, and where the number after it starts.
  method SignAt(s: string, i: nat) returns (sign: int, pos: nat)
    requires i <= |s|
    ensures sign == Sign(At(s, i) == '-') && pos == (if IsSign(At(s, i)) then i + 1 else i) && pos <= |s|
  {
    if At(s, i) == '-' {
      sign, pos := -1, i + 1;
    } else if At(s, i) == '+' {
      sign, pos := 1, i + 1;
    } else {
      sign, pos := 1, i;
    }
  }

  lemma SignTimes(sign: int, neg: bool, x: real, k: int)
    requires sign == Sign(neg)
    ensures sign as real * x == Signed(neg, x)
    ensures sign * k == if neg then -k else k
  {
  }

  // Both digit loops of the mantissa.
  method MantissaOf(s: string, dpos: int, epos: int, npos: nat) returns (res: real)
    requires -1 <= dpos < |s| && epos < |s| && npos <= |s|
    ensures res == FracSum(if dpos == -1 then "" else Cut(s, dpos + 1, epos))
                   + Num(Cut(s, npos, if dpos == -1 then epos else dpos))
  {
    res := 0.0;
    if dpos != -1 {
      res := AddFraction(s, dpos, epos);
    }
    res := AddWhole(s, npos, if dpos == -1 then epos else dpos, res);
  }

  method Assemble(sign: int, res: real, esign: int, eval: int, ghost n: Number) returns (r: real)
    requires sign == Sign(n.neg) && res == FracSum(n.frac) + Num(n.whole)
    requires esign == Sign(n.eneg) && eval == NumInt(n.exp)
    ensures r == Meaning(n)
  {
    SignTimes(sign, n.neg, res, 0);
    SignTimes(esign, n.eneg, 0.0, eval);
    var mantissa, exp := sign as real * res, esign * eval;
    r := Mul(mantissa, Pow10(exp));
  }

  // Everything behind the special cases.
  method ParseNumber(s: string) returns (r: real)
    ensures r == Meaning(Split(s))
  {
    var dpos := Search(s, IsPoint);
    var epos := Search(s, IsExponent);
    var sign, npos := SignAt(s, 0);
    var res := MantissaOf(s, dpos, epos, npos);
    var esign, enpos := SignAt(s, epos + 1);
    var eval := Exponent(s, enpos);
    r := Assemble(sign, res, esign, eval, Split(s));
  }

  /** parse_float_str, on every string. */
  method ParseFloatStr(text: CString) returns (r: Reading)
    ensures r == Read(text) && (text == Null ==> r == Value(-1.0))
  {
    if text == Null { return Value(-1.0); }
    var s := text.s;
    if s == "9.9E+37" { return NaN; }
    if s == "9.91E+37" { return Infinity; }
    var v := ParseNumber(s);
    r := Value(v);
  }

  // ---------- parse undoes print ----------

  predicate Digits(s: string) {
    forall c :: c in s ==> '0' <= c <= '9'
  }

  // The free choices of a notation: a '+' in front, a point, the letter, a '+' in the exponent.
  datatype Style = Style(plus: bool, point: bool, letter: char, eplus: bool)

  predicate WellFormed(n: Number, style: Style) {
    && Digits(n.whole) && Digits(n.frac) && Digits(n.exp)
    && (n.frac != "" ==> style.point) && IsExponent(style.letter)
  }

  function SignText(neg: bool, plus: bool): string {
    if neg then "-" else if plus then "+" else ""
  }

  function Mantissa(n: Number, style: Style): string {
    SignText(n.neg, style.plus) + n.whole + (if style.point then "." + n.frac else "")
  }

  // From the letter on.
  function Back(n: Number, style: Style): string {
    [style.letter] + SignText(n.eneg, style.eplus) + n.exp
  }

  // [sign] digits [. digits] E [sign] digits
  function Print(n: Number, style: Style): string {
    Mantissa(n, style) + Back(n, style)
  }

  lemma {:induction false} IndexIs(s: string, p: char -> bool, i: nat, k: nat)
    requires i <= k < |s| && p(s[k]) && forall j :: i <= j < k ==> !p(s[j])
    ensures IndexOf(s, p, i) == k
  {
  }

  lemma SignFirst(neg: bool, plus: bool, rest: string)
    requires !IsSign(At(rest, 0))
    ensures var t := SignText(neg, plus) + rest;
            && (At(t, 0) == '-' <==> neg)
            && |SignText(neg, plus)| == (if IsSign(At(t, 0)) then 1 else 0)
  {
  }

  lemma SearchLetter(n: Number, style: Style)
    requires WellFormed(n, style)
    ensures IndexOf(Print(n, style), IsExponent, 0) == |Mantissa(n, style)|
  {
    var s, m := Print(n, style), Mantissa(n, style);
    forall j | 0 <= j < |m| ensures !IsExponent(s[j]) {
      assert s[j] == m[j] && m[j] in m;
    }
    IndexIs(s, IsExponent, 0, |m|);
  }

  // Where the point stands, or -1.
  function PointAt(n: Number, style: Style): int {
    if style.point then |SignText(n.neg, style.plus)| + |n.whole| else -1
  }

  lemma SearchPoint(n: Number, style: Style)
    requires WellFormed(n, style)
    ensures IndexOf(Print(n, style), IsPoint, 0) == PointAt(n, style)
  {
    var s, front := Print(n, style), SignText(n.neg, style.plus) + n.whole;
    if style.point {
      forall j | 0 <= j < |front| ensures !IsPoint(s[j]) {
        assert s[j] == front[j] && front[j] in front;
      }
      IndexIs(s, IsPoint, 0, |front|);
    } else {
      forall j | 0 <= j < |s| ensures !IsPoint(s[j]) {
        assert s[j] in s;
      }
    }
  }

  lemma Middle(a: string, b: string, c: string)
    ensures (a + b + c)[|a|..|a| + |b|] == b
  {
  }

  // The mantissa of n fills s[..m]: its digits start at w, and its point is at d, if not -1.
  predicate FrontAt(s: string, n: Number, w: nat, d: int, m: nat) {
    && n.neg == (At(s, 0) == '-') && w == (if IsSign(At(s, 0)) then 1 else 0)
    && m < |s| && -1 <= d < m && w <= (if d == -1 then m else d)
    && n.whole == s[w..if d == -1 then m else d]
    && n.frac == (if d == -1 then "" else s[d + 1..m])
  }

  // The exponent of n is what stands behind the letter at m; its digits start at x.
  predicate BackAt(s: string, n: Number, m: nat, x: nat) {
    && m < |s| && n.eneg == (At(s, m + 1) == '-') && x == (if IsSign(At(s, m + 1)) then m + 2 else m + 1)
    && x <= |s| && n.exp == s[x..]
  }

  lemma FrontOfPoint(s: string, n: Number, sg: string, back: string)
    requires s == sg + n.whole + "." + n.frac + back && back != ""
    requires n.neg == (At(s, 0) == '-') && |sg| == (if IsSign(At(s, 0)) then 1 else 0)
    ensures FrontAt(s, n, |sg|, |sg| + |n.whole|, |sg| + |n.whole| + 1 + |n.frac|)
  {
    Regroup(sg + n.whole, ".", n.frac, back);
    Middle(sg, n.whole, "." + n.frac + back);
    Middle(sg + n.whole + ".", n.frac, back);
  }

  lemma FrontOfWhole(s: string, n: Number, sg: string, back: string)
    requires s == sg + n.whole + back && back != "" && n.frac == ""
    requires n.neg == (At(s, 0) == '-') && |sg| == (if IsSign(At(s, 0)) then 1 else 0)
    ensures FrontAt(s, n, |sg|, -1, |sg| + |n.whole|)
  {
    Middle(sg, n.whole, back);
  }

  lemma Regroup(a: string, b: string, c: string, d: string)
    ensures a + b + c + d == a + (b + c + d) == (a + b) + (c + d)
  {
  }

  // The sign in front.
  lemma FrontSign(n: Number, style: Style)
    requires WellFormed(n, style)
    ensures var s, sg := Print(n, style), SignText(n.neg, style.plus);
            (At(s, 0) == '-' <==> n.neg) && |sg| == (if IsSign(At(s, 0)) then 1 else 0)
  {
    var tail := (if style.point then "." + n.frac else "") + Back(n, style);
    assert tail[0] == if style.point then '.' else style.letter;
    assert n.whole != "" ==> n.whole[0] in n.whole;
    assert Print(n, style) == SignText(n.neg, style.plus) + (n.whole + tail);
    SignFirst(n.neg, style.plus, n.whole + tail);
  }

  lemma FrontOf(n: Number, style: Style)
    requires WellFormed(n, style)
    ensures FrontAt(Print(n, style), n, |SignText(n.neg, style.plus)|, PointAt(n, style), |Mantissa(n, style)|)
  {
    var s, sg, back := Print(n, style), SignText(n.neg, style.plus), Back(n, style);
    FrontSign(n, style);
    if style.point {
      assert s == sg + n.whole + "." + n.frac + back;
      FrontOfPoint(s, n, sg, back);
    } else {
      assert s == sg + n.whole + back;
      FrontOfWhole(s, n, sg, back);
    }
  }

  lemma BackOf(n: Number, style: Style)
    requires WellFormed(n, style)
    ensures var m := |Mantissa(n, style)|;
            BackAt(Print(n, style), n, m, m + 1 + |SignText(n.eneg, style.eplus)|)
  {
    var m, e := Mantissa(n, style), SignText(n.eneg, style.eplus);
    assert n.exp != "" ==> n.exp[0] in n.exp;
    SignFirst(n.eneg, style.eplus, n.exp);
    var front := m + [style.letter];
    Regroup(m, [style.letter], e, n.exp);
    Behind(front, e + n.exp, 0);
    Behind(front, e + n.exp, |e|);
  }

  lemma Behind(a: string, b: string, k: nat)
    requires k <= |b|
    ensures At(a + b, |a| + k) == At(b, k) && (a + b)[|a| + k..] == b[k..]
  {
  }

  lemma SplitFrom(s: string, n: Number, w: nat, d: int, m: nat, x: nat)
    requires FrontAt(s, n, w, d, m) && BackAt(s, n, m, x)
    ensures SplitAt(s, d, m) == n
  {
  }

  /** The scan finds the parts that were printed. */
  lemma SplitPrint(n: Number, style: Style)
    requires WellFormed(n, style)
    ensures Split(Print(n, style)) == n
  {
    SearchLetter(n, style);
    SearchPoint(n, style);
    FrontOf(n, style);
    BackOf(n, style);
    var m := |Mantissa(n, style)|;
    SplitFrom(Print(n, style), n, |SignText(n.neg, style.plus)|, PointAt(n, style), m,
              m + 1 + |SignText(n.eneg, style.eplus)|);
  }

  // The value scientific notation stands for: all digits as one integer, scaled.
  function Scientific(n: Number): real {
    Mul(Signed(n.neg, Num(n.whole + n.frac)), Pow10(Exp(n) - |n.frac|))
  }

  lemma {:induction false} FracSumIsScaled(f: string)
    ensures FracSum(f) == Mul(Num(f), Pow10(-|f|))
    decreases |f|
  {
    if f != "" {
      var t := f[..|f| - 1];
      FracSumIsScaled(t);
      Pow10Step(-|f|);
      MulTen(Num(t), Pow10(-|f|));
      MulAdd(10.0 * Num(t), Digit(f[|f| - 1]) as real, Pow10(-|f|));
    }
  }

  lemma MulAssoc(x: real, y: real, z: real)
    ensures Mul(Mul(x, y), z) == Mul(x, Mul(y, z))
  {
  }

  lemma MulSwap(x: real, y: real)
    ensures Mul(x, y) == Mul(y, x)
  {
  }

  // (a + w) * 10^e == (w * 10^k + f) * 10^(e - k) when a == f * 10^-k
  lemma MantissaScale(a: real, w: real, f: real, k: int, e: int)
    requires 0 <= k && a == Mul(f, Pow10(-k))
    ensures Mul(a + w, Pow10(e)) == Mul(Mul(w, Pow10(k)) + f, Pow10(e - k))
  {
    var up, low := Pow10(k), Pow10(e - k);
    Pow10Add(-k, k);
    MulAssoc(f, Pow10(-k), up);
    assert Mul(f, 1.0) == f;
    Pow10Add(e - k, k);
    MulSwap(low, up);
    MulAssoc(a + w, up, low);
    MulAdd(a, w, up);
  }

  lemma SignedScale(neg: bool, x: real, p: real)
    ensures Mul(Signed(neg, x), p) == Signed(neg, Mul(x, p))
  {
  }

  lemma MeaningIsScientific(n: Number)
    ensures Meaning(n) == Scientific(n)
  {
    var k, e := |n.frac|, Exp(n);
    FracSumIsScaled(n.frac);
    MantissaScale(FracSum(n.frac), Num(n.whole), Num(n.frac), k, e);
    NumConcat(n.whole, n.frac);
    SignedScale(n.neg, FracSum(n.frac) + Num(n.whole), Pow10(e));
    SignedScale(n.neg, Num(n.whole + n.frac), Pow10(e - k));
  }

  /** Parsing a printed number gives its exact value, in every style, unless the text is one
      of the two codes of the instrument. */
  lemma ParseUndoesPrint(n: Number, style: Style)
    requires WellFormed(n, style)
    ensures var s := Print(n, style);
            Read(Text(s)) == if s == "9.9E+37" then NaN
                             else if s == "9.91E+37" then Infinity
                             else Value(Scientific(n))
  {
    SplitPrint(n, style);
    MeaningIsScientific(n);
  }
}
