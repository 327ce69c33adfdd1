/**
 * JavaScript values as the front end meets them in a parsed CSV row, with the parts of the language's
 * number semantics the components rely on: truthiness, `Number(text)`, `String(n)`, the relational
 * operators (every comparison with NaN is false), `Math.min`/`Math.max` and the arithmetic of the
 * price histogram. Finite numbers are exact reals: the rounding of IEEE doubles is not modelled.
 */
module JsValues {
  import opened Strings

  /** A JavaScript number. The sign of zero is not modelled. */
  datatype JsNum = Fin(r: real) | NaN | PosInf | NegInf

  /** A value of a record field: `undefined`, `null`, a boolean, a number, a string or an array of strings. */
  datatype JsValue = Undefined | Null | Bool(b: bool) | Number(n: JsNum) | Text(s: string) | TextList(items: seq<string>)

  /** `Boolean(v)`: false exactly for `undefined`, `null`, `false`, `0`, `NaN` and `""`. */
  predicate Truthy(v: JsValue)
  {
    match v
    case Undefined => false
    case Null => false
    case Bool(b) => b
    case Number(n) => n != NaN && n != Fin(0.0)
    case Text(s) => s != ""
    case TextList(_) => true
  }

  /** `v || 0`: the value itself when truthy, otherwise the number 0. */
  function OrZero(v: JsValue): (r: JsValue)
    ensures Truthy(v) ==> r == v
    ensures !Truthy(v) ==> r == Number(Fin(0.0))
  {
    if Truthy(v) then v else Number(Fin(0.0))
  }

  /** `a < b` on numbers: false whenever either side is NaN. */
  predicate Lt(a: JsNum, b: JsNum)
  {
    match (a, b)
    case (NaN, _) => false
    case (_, NaN) => false
    case (NegInf, _) => b != NegInf
    case (_, NegInf) => false
    case (PosInf, _) => false
    case (_, PosInf) => true
    case (Fin(x), Fin(y)) => x < y
  }

  /** `a <= b` on numbers: false whenever either side is NaN. */
  predicate Le(a: JsNum, b: JsNum)
  {
    a != NaN && b != NaN && !Lt(b, a)
  }

  lemma LtIrreflexive(a: JsNum)
    ensures !Lt(a, a)
  {
  }

  lemma LtTransitive(a: JsNum, b: JsNum, c: JsNum)
    requires Lt(a, b) && Lt(b, c)
    ensures Lt(a, c)
  {
  }

  /** Apart from NaN, the numbers are totally ordered by `<`. */
  lemma LtTotal(a: JsNum, b: JsNum)
    requires a != NaN && b != NaN
    ensures Lt(a, b) || a == b || Lt(b, a)
  {
  }

  /** `Math.min(a, b)`: NaN when either is NaN, otherwise the smaller. */
  function Min(a: JsNum, b: JsNum): (r: JsNum)
    ensures r == NaN <==> a == NaN || b == NaN
    ensures r != NaN ==> Le(r, a) && Le(r, b) && (r == a || r == b)
  {
    if a == NaN || b == NaN then NaN else if Lt(b, a) then b else a
  }

  /** `Math.max(a, b)`: NaN when either is NaN, otherwise the larger. */
  function Max(a: JsNum, b: JsNum): (r: JsNum)
    ensures r == NaN <==> a == NaN || b == NaN
    ensures r != NaN ==> Le(a, r) && Le(b, r) && (r == a || r == b)
  {
    if a == NaN || b == NaN then NaN else if Lt(a, b) then b else a
  }

  /** `Math.min(...xs)`: Infinity for no arguments. */
  function MinOf(xs: seq<JsNum>): JsNum
  {
    if xs == [] then PosInf else Min(xs[0], MinOf(xs[1..]))
  }

  /** `Math.max(...xs)`: -Infinity for no arguments. */
  function MaxOf(xs: seq<JsNum>): JsNum
  {
    if xs == [] then NegInf else Max(xs[0], MaxOf(xs[1..]))
  }

  predicate NoNaN(xs: seq<JsNum>)
  {
    forall i :: 0 <= i < |xs| ==> xs[i] != NaN
  }

  /** Without NaN, `Math.min(...xs)` is one of the arguments and no argument is below it. */
  lemma {:induction false} MinOfBounds(xs: seq<JsNum>)
    requires xs != [] && NoNaN(xs)
    ensures MinOf(xs) in xs
    ensures forall i :: 0 <= i < |xs| ==> Le(MinOf(xs), xs[i])
  {
    if |xs| > 1 {
      MinOfBounds(xs[1..]);
      forall i | 0 <= i < |xs|
        ensures Le(MinOf(xs), xs[i])
      {
        if i > 0 {
          assert xs[i] == xs[1..][i - 1];
          if MinOf(xs) != MinOf(xs[1..]) {
            LtTotal(xs[0], MinOf(xs[1..]));
          }
        }
      }
    }
  }

  /** Without NaN, `Math.max(...xs)` is one of the arguments and no argument is above it. */
  lemma {:induction false} MaxOfBounds(xs: seq<JsNum>)
    requires xs != [] && NoNaN(xs)
    ensures MaxOf(xs) in xs
    ensures forall i :: 0 <= i < |xs| ==> Le(xs[i], MaxOf(xs))
  {
    if |xs| > 1 {
      MaxOfBounds(xs[1..]);
      forall i | 0 <= i < |xs|
        ensures Le(xs[i], MaxOf(xs))
      {
        if i > 0 {
          assert xs[i] == xs[1..][i - 1];
          if MaxOf(xs) != MaxOf(xs[1..]) {
            LtTotal(xs[0], MaxOf(xs[1..]));
          }
        }
      }
    }
  }

  /** `-a`. */
  function Negate(a: JsNum): JsNum
  {
    match a
    case Fin(x) => Fin(-x)
    case NaN => NaN
    case PosInf => NegInf
    case NegInf => PosInf
  }

  /** `a + b`. */
  function Add(a: JsNum, b: JsNum): (r: JsNum)
    ensures a.Fin? && b.Fin? ==> r == Fin(a.r + b.r)
  {
    match (a, b)
    case (NaN, _) => NaN
    case (_, NaN) => NaN
    case (PosInf, NegInf) => NaN
    case (NegInf, PosInf) => NaN
    case (PosInf, _) => PosInf
    case (NegInf, _) => NegInf
    case (_, PosInf) => PosInf
    case (_, NegInf) => NegInf
    case (Fin(x), Fin(y)) => Fin(x + y)
  }

  /** `a - b`. */
  function Sub(a: JsNum, b: JsNum): JsNum
  {
    Add(a, Negate(b))
  }

  /** `a / b`, with the sign of a zero divisor taken as positive. */
  function Div(a: JsNum, b: JsNum): (r: JsNum)
    ensures a.Fin? && b.Fin? && b.r != 0.0 ==> r == Fin(a.r / b.r)
  {
    match (a, b)
    case (NaN, _) => NaN
    case (_, NaN) => NaN
    case (Fin(x), Fin(y)) =>
      if y != 0.0 then Fin(x / y) else if x > 0.0 then PosInf else if x < 0.0 then NegInf else NaN
    case (Fin(_), _) => Fin(0.0)
    case (_, Fin(y)) => if y < 0.0 then Negate(a) else a
    case (_, _) => NaN
  }

  /** `Math.floor(a)`: the infinities and NaN are their own floor. */
  function Floor(a: JsNum): (r: JsNum)
    ensures a.Fin? ==> r.Fin? && r.r == a.r.Floor as real
    ensures !a.Fin? ==> r == a
  {
    if a.Fin? then Fin(a.r.Floor as real) else a
  }

  /** A finite number with no fractional part. */
  predicate IsIntegral(a: JsNum)
  {
    a.Fin? && a.r == a.r.Floor as real
  }

  /**
   * `Number(s)` for a string: blank text is 0; otherwise, after trimming, an optional sign followed
   * by `Infinity` or by a decimal literal with digits before or after a single point.
   */
  function StringToNumber(s: string): JsNum
  {
    var t := JsTrim(s);
    if t == "" then Fin(0.0)
    else if t == "Infinity" || t == "+Infinity" then PosInf
    else if t == "-Infinity" then NegInf
    else if t[0] == '-' then Negate(UnsignedDecimal(t[1..]))
    else if t[0] == '+' then UnsignedDecimal(t[1..])
    else UnsignedDecimal(t)
  }

  /** The value of digits with an optional single decimal point, NaN for anything else. */
  function UnsignedDecimal(u: string): (r: JsNum)
    ensures r == NaN || (r.Fin? && r.r >= 0.0)
  {
    if '.' in u then
      var a := Before(u, '.');
      var b := After(u, '.');
      if AllDigits(a) && AllDigits(b) && |a| + |b| > 0
      then Fin(DigitsValue(a) as real + DigitsValue(b) as real / Pow10(|b|) as real)
      else NaN
    else if u != "" && AllDigits(u) then Fin(DigitsValue(u) as real)
    else NaN
  }

  /** `Number(v)`: strings are read as above; a string array is not a number in this model. */
  function ToNumber(v: JsValue): JsNum
  {
    match v
    case Undefined => NaN
    case Null => Fin(0.0)
    case Bool(b) => if b then Fin(1.0) else Fin(0.0)
    case Number(n) => n
    case Text(s) => StringToNumber(s)
    case TextList(_) => NaN
  }

  /** `isNaN(v)`. */
  predicate IsNaN(v: JsValue)
  {
    ToNumber(v) == NaN
  }

  /** The number of fractional digits a non-integral number is written with. */
  const FractionDigits: nat := 20

  /**
   * `String(n)`: NaN, the infinities and integral values below 1e21 in magnitude are written as
   * JavaScript writes them; larger integral values are written in full digits, where JavaScript
   * uses the exponent form; any other value is written with its first 20 fractional digits,
   * trailing zeros dropped.
   */
  function NumberText(n: JsNum): string
  {
    match n
    case NaN => "NaN"
    case PosInf => "Infinity"
    case NegInf => "-Infinity"
    case Fin(x) => if IsIntegral(n) then IntToString(x.Floor) else FractionText(x)
  }

  function FractionText(x: real): string
  {
    var a := if x < 0.0 then -x else x;
    var whole := a.Floor;
    var frac := a - whole as real;
    var scaled := (frac * Pow10(FractionDigits) as real).Floor;
    var digits := if 0 <= scaled < Pow10(FractionDigits) then PadDigits(scaled, FractionDigits) else "";
    (if x < 0.0 then "-" else "") + IntToString(whole) + "." + digits[..|digits| - BackSpan(digits, c => c == '0')]
  }

  /** `String(v)`, which is also the property key `obj[v]` uses. */
  function ToText(v: JsValue): string
  {
    match v
    case Undefined => "undefined"
    case Null => "null"
    case Bool(b) => if b then "true" else "false"
    case Number(n) => NumberText(n)
    case Text(s) => s
    case TextList(items) => Join(items, ',')
  }

  /** Trimming a text that neither starts nor ends with white space leaves it as it is. */
  lemma TrimUnspaced(s: string)
    requires s != [] && !IsJsSpace(s[0]) && !IsJsSpace(s[|s| - 1])
    ensures JsTrim(s) == s
  {
    assert Span(s, IsJsSpace) == 0;
    assert s[0..] == s;
    assert BackSpan(s, IsJsSpace) == 0;
  }

  lemma DigitsUnspaced(d: string)
    requires d != [] && AllDigits(d)
    ensures !IsJsSpace(d[0]) && !IsJsSpace(d[|d| - 1]) && '.' !in d
  {
    assert IsDigit(d[0]) && IsDigit(d[|d| - 1]);
    DigitsExclude(d, '.');
  }

  /** `Number(String(n))` gives back every integral value. */
  lemma IntegralTextRoundTrip(n: JsNum)
    requires IsIntegral(n)
    ensures StringToNumber(NumberText(n)) == n
  {
    var i := n.r.Floor;
    var d := NatToString(if i < 0 then -i else i);
    DigitsUnspaced(d);
    if i < 0 {
      var t := "-" + d;
      assert NumberText(n) == t;
      assert t[|t| - 1] == d[|d| - 1];
      TrimUnspaced(t);
      assert t[1..] == d;
      assert t != "Infinity" && t != "+Infinity" && t != "-Infinity" by {
        assert t[1] == d[0] && IsDigit(d[0]);
      }
    } else {
      assert NumberText(n) == d;
      TrimUnspaced(d);
      assert d != "Infinity" && d != "+Infinity" && d != "-Infinity" by {
        assert IsDigit(d[0]);
      }
    }
  }
}
