/** Text operations of Python's `str` and JavaScript's `String` that the model needs. */
module Strings {

  /** An ASCII decimal digit (what `\d` and `str.isdigit` accept in this model). */
  predicate IsDigit(c: char)
  {
    '0' <= c <= '9'
  }

  predicate AllDigits(s: string)
  {
    forall k :: 0 <= k < |s| ==> IsDigit(s[k])
  }

  predicate HasDigit(s: string)
  {
    exists k :: 0 <= k < |s| && IsDigit(s[k])
  }

  function DigitValue(c: char): (d: nat)
    requires IsDigit(c)
    ensures d < 10
  {
    c as int - '0' as int
  }

  function DigitChar(d: nat): (c: char)
    requires d < 10
    ensures IsDigit(c) && DigitValue(c) == d
  {
    ('0' as int + d) as char
  }

  /** The number a string of decimal digits denotes (`int(s)` on such a string). */
  function DigitsValue(s: string): nat
    requires AllDigits(s)
  {
    if s == [] then 0 else 10 * DigitsValue(s[..|s| - 1]) + DigitValue(s[|s| - 1])
  }

  /** The decimal text of a natural number (`str(n)`). */
  function NatToString(n: nat): (s: string)
    ensures |s| > 0 && AllDigits(s)
    ensures DigitsValue(s) == n
    ensures n > 0 ==> s[0] != '0'
    decreases n
  {
    if n < 10 then [DigitChar(n)]
    else
      var t := NatToString(n / 10);
      var s := t + [DigitChar(n % 10)];
      assert s[..|s| - 1] == t;
      s
  }

  /** The last `w` decimal digits of `n`, with leading zeros (`f"{n:0{w}d}"` for `n < 10^w`). */
  function PadDigits(n: nat, w: nat): (t: string)
    requires n < Pow10(w)
    ensures |t| == w && AllDigits(t) && DigitsValue(t) == n
  {
    if w == 0 then ""
    else
      var t := PadDigits(n / 10, w - 1) + [DigitChar(n % 10)];
      assert t[..|t| - 1] == PadDigits(n / 10, w - 1);
      t
  }

  /** A digit string is the padded text of its own value at its own width. */
  lemma {:induction false} PadDigitsOfValue(x: string)
    requires AllDigits(x)
    ensures DigitsValue(x) < Pow10(|x|) && PadDigits(DigitsValue(x), |x|) == x
    decreases |x|
  {
    if x != [] {
      var x' := x[..|x| - 1];
      PadDigitsOfValue(x');
      var n := DigitsValue(x);
      assert n / 10 == DigitsValue(x') && n % 10 == DigitValue(x[|x| - 1]);
      assert DigitChar(n % 10) == x[|x| - 1];
      assert x == x' + [x[|x| - 1]];
    }
  }

  /** The decimal text of an integer, with a leading '-' when negative. */
  function IntToString(i: int): (s: string)
    ensures |s| > 0
    ensures i >= 0 ==> s == NatToString(i)
    ensures i < 0 ==> s == "-" + NatToString(-i)
  {
    if i < 0 then "-" + NatToString(-i) else NatToString(i)
  }

  lemma AllDigitsAppend(a: string, b: string)
    requires AllDigits(a) && AllDigits(b)
    ensures AllDigits(a + b)
  {
    assert forall k :: 0 <= k < |a + b| ==> (a + b)[k] == if k < |a| then a[k] else b[k - |a|];
  }

  /** A text of digits holds no other character. */
  lemma DigitsExclude(t: string, c: char)
    requires AllDigits(t) && !IsDigit(c)
    ensures c !in t
  {
    forall k | 0 <= k < |t|
      ensures t[k] != c
    {
      assert IsDigit(t[k]);
    }
  }

  /** The value of digits read from the left: the last digit is the least significant. */
  lemma {:induction false} DigitsValueAppend(a: string, b: string)
    requires AllDigits(a) && AllDigits(b)
    ensures AllDigits(a + b)
    ensures DigitsValue(a + b) == DigitsValue(a) * Pow10(|b|) + DigitsValue(b)
    decreases |b|
  {
    if b != [] {
      var b' := b[..|b| - 1];
      DigitsValueLast(a, b);
      DigitsValueAppend(a, b');
      ShiftDigit(DigitsValue(a), Pow10(|b'|), DigitsValue(b'), DigitValue(b[|b| - 1]));
    } else {
      assert a + b == a;
    }
  }

  /** Reading the last digit of `a + b` off its end. */
  lemma DigitsValueLast(a: string, b: string)
    requires AllDigits(a) && AllDigits(b) && b != []
    ensures AllDigits(a + b) && AllDigits(a + b[..|b| - 1]) && AllDigits(b[..|b| - 1])
    ensures DigitsValue(a + b) == 10 * DigitsValue(a + b[..|b| - 1]) + DigitValue(b[|b| - 1])
  {
    var b' := b[..|b| - 1];
    AllDigitsAppend(a, b);
    forall k | 0 <= k < |b'|
      ensures IsDigit(b'[k])
    {
      assert b'[k] == b[k];
    }
    AllDigitsAppend(a, b');
    assert (a + b)[..|a + b| - 1] == a + b';
  }

  lemma ShiftDigit(va: int, p: int, vb: int, d: int)
    ensures 10 * (va * p + vb) + d == va * (10 * p) + (10 * vb + d)
  {
  }

  function Pow10(k: nat): (p: nat)
    ensures p >= 1
  {
    if k == 0 then 1 else 10 * Pow10(k - 1)
  }

  /** A character Python's `str.isspace` accepts, which is also what `\s` matches in a `str` pattern. */
  predicate IsPySpace(c: char)
  {
    c == ' ' || '\t' <= c <= '\r' || '\U{1C}' <= c <= '\U{1F}' || c == '\U{85}' || c == '\U{A0}'
    || c == '\U{1680}' || '\U{2000}' <= c <= '\U{200A}' || c == '\U{2028}' || c == '\U{2029}'
    || c == '\U{202F}' || c == '\U{205F}' || c == '\U{3000}'
  }

  /** A character JavaScript's `String.prototype.trim` removes (white space and line terminators). */
  predicate IsJsSpace(c: char)
  {
    c == ' ' || '\t' <= c <= '\r' || c == '\U{A0}' || c == '\U{1680}' || '\U{2000}' <= c <= '\U{200A}'
    || c == '\U{2028}' || c == '\U{2029}' || c == '\U{202F}' || c == '\U{205F}' || c == '\U{3000}' || c == '\U{FEFF}'
  }

  /** The number of leading characters of `s` that satisfy `p`. */
  function Span(s: string, p: char -> bool): (n: nat)
    ensures n <= |s|
    ensures forall k :: 0 <= k < n ==> p(s[k])
    ensures n < |s| ==> !p(s[n])
  {
    if s == [] || !p(s[0]) then 0 else 1 + Span(s[1..], p)
  }

  /** The number of trailing characters of `s` that satisfy `p`. */
  function BackSpan(s: string, p: char -> bool): (n: nat)
    ensures n <= |s|
    ensures forall k :: |s| - n <= k < |s| ==> p(s[k])
    ensures n < |s| ==> !p(s[|s| - n - 1])
  {
    if s == [] || !p(s[|s| - 1]) then 0 else 1 + BackSpan(s[..|s| - 1], p)
  }

  /** `s` with the characters satisfying `p` removed from both ends. */
  function Trim(s: string, p: char -> bool): (r: string)
    ensures exists i, j ::
              (0 <= i <= j <= |s| && r == s[i..j]
               && (forall k :: 0 <= k < i ==> p(s[k])) && (forall k :: j <= k < |s| ==> p(s[k])))
    ensures r != [] ==> !p(r[0]) && !p(r[|r| - 1])
  {
    var i := Span(s, p);
    var rest := s[i..];
    var j := i + |rest| - BackSpan(rest, p);
    assert rest[..|rest| - BackSpan(rest, p)] == s[i..j];
    s[i..j]
  }

  /** Python's `str.strip()` with no argument. */
  function PyStrip(s: string): string
  {
    Trim(s, IsPySpace)
  }

  /** JavaScript's `String.prototype.trim()`. */
  function JsTrim(s: string): string
  {
    Trim(s, IsJsSpace)
  }

  /** The pieces of `s` between the occurrences of `c` (`s.split(c)` in Python and in JavaScript). */
  function Split(s: string, c: char): (r: seq<string>)
    ensures |r| >= 1
    ensures forall k :: 0 <= k < |r| ==> c !in r[k]
    ensures |r| == 1 <==> c !in s
    decreases |s|
  {
    if s == [] then [""]
    else
      var rest := Split(s[1..], c);
      if s[0] == c then [""] + rest else [[s[0]] + rest[0]] + rest[1..]
  }

  /** The pieces joined with `c` between them (`c.join(parts)`). */
  function Join(parts: seq<string>, c: char): string
  {
    if parts == [] then ""
    else if |parts| == 1 then parts[0]
    else parts[0] + [c] + Join(parts[1..], c)
  }

  /** The pieces joined with the text `sep` between them (`sep.join(parts)`). */
  function JoinWith(parts: seq<string>, sep: string): string
  {
    if parts == [] then ""
    else if |parts| == 1 then parts[0]
    else parts[0] + sep + JoinWith(parts[1..], sep)
  }

  /** Splitting loses nothing: joining the pieces with the separator gives the text back. */
  lemma {:induction false} JoinSplit(s: string, c: char)
    ensures Join(Split(s, c), c) == s
    decreases |s|
  {
    if s != [] {
      var rest := Split(s[1..], c);
      JoinSplit(s[1..], c);
      if s[0] == c {
        assert Join([""] + rest, c) == "" + [c] + Join(rest, c);
      } else {
        var r := [[s[0]] + rest[0]] + rest[1..];
        if |rest| == 1 {
          assert r == [[s[0]] + rest[0]];
          assert Join(rest, c) == rest[0];
        } else {
          assert r[1..] == rest[1..];
          assert Join(rest, c) == rest[0] + [c] + Join(rest[1..], c);
        }
      }
    }
  }

  /** A piece without `c` followed by `c` splits off as the first piece. */
  lemma {:induction false} SplitPrefix(a: string, t: string, c: char)
    requires c !in a
    ensures Split(a + [c] + t, c) == [a] + Split(t, c)
    decreases |a|
  {
    if a == [] {
      assert (a + [c] + t)[1..] == t;
    } else {
      assert (a + [c] + t)[1..] == a[1..] + [c] + t;
      SplitPrefix(a[1..], t, c);
      assert [a[0]] + a[1..] == a;
    }
  }

  /** Joining pieces that hold no `c` and splitting again gives the pieces back. */
  lemma {:induction false} SplitJoin(parts: seq<string>, c: char)
    requires parts != [] && forall k :: 0 <= k < |parts| ==> c !in parts[k]
    ensures Split(Join(parts, c), c) == parts
  {
    if |parts| == 1 {
      JoinSplit(parts[0], c);
    } else {
      SplitJoin(parts[1..], c);
      SplitPrefix(parts[0], Join(parts[1..], c), c);
    }
  }

  /** The text before the first `c`, all of `s` when there is none (`s.split(c)[0]`). */
  function Before(s: string, c: char): (r: string)
    ensures r <= s && c !in r
    ensures |r| < |s| ==> s[|r|] == c
  {
    if s == [] || s[0] == c then "" else [s[0]] + Before(s[1..], c)
  }

  /** Without a `c`, the text before the first `c` is all of it. */
  lemma BeforeAbsent(s: string, c: char)
    requires c !in s
    ensures Before(s, c) == s
  {
    assert forall k :: 0 <= k < |s| ==> s[k] != c;
  }

  /** The text after the first `c`, empty when there is none. */
  function After(s: string, c: char): (r: string)
    ensures c in s ==> s == Before(s, c) + [c] + r
    ensures c !in s ==> r == ""
  {
    if s == [] then ""
    else if s[0] == c then s[1..]
    else
      var r := After(s[1..], c);
      assert c in s[1..] ==> s[1..] == Before(s[1..], c) + [c] + r;
      r
  }

  /** Cutting at the first `c` of `a + [c] + b` gives back `a` and `b` when `a` has no `c`. */
  lemma {:induction false} BeforeAfterAt(a: string, b: string, c: char)
    requires c !in a
    ensures Before(a + [c] + b, c) == a && After(a + [c] + b, c) == b
  {
    if a != [] {
      assert (a + [c] + b)[1..] == a[1..] + [c] + b;
      BeforeAfterAt(a[1..], b, c);
    }
  }

  lemma {:induction false} BeforeAppend(a: string, b: string, c: char)
    requires c !in a && (b == [] || b[0] == c)
    ensures Before(a + b, c) == a
  {
    if a == [] {
      assert a + b == b;
    } else {
      assert (a + b)[1..] == a[1..] + b;
      BeforeAppend(a[1..], b, c);
    }
  }

  /** `sub` occurs in `s` (Python's `sub in s`). */
  predicate Contains(s: string, sub: string)
    decreases |s|
  {
    sub <= s || (s != [] && Contains(s[1..], sub))
  }

  /** `s` with every occurrence of `c` deleted (`s.replace(c, '')`). */
  function Delete(s: string, c: char): (r: string)
    ensures c !in r && |r| <= |s|
    ensures forall k :: 0 <= k < |r| ==> r[k] in s
    ensures c !in s ==> r == s
  {
    if s == [] then s
    else if s[0] == c then Delete(s[1..], c)
    else [s[0]] + Delete(s[1..], c)
  }

  lemma {:induction false} DeleteAppend(a: string, b: string, c: char)
    ensures Delete(a + b, c) == Delete(a, c) + Delete(b, c)
  {
    if a == [] {
      assert a + b == b;
    } else {
      assert (a + b)[1..] == a[1..] + b;
      DeleteAppend(a[1..], b, c);
    }
  }

  /** `s` with every `a` replaced by `b` (`s.replace(a, b)` for single characters). */
  function Replace(s: string, a: char, b: char): (r: string)
    ensures |r| == |s|
    ensures forall k :: 0 <= k < |s| ==> r[k] == if s[k] == a then b else s[k]
    ensures a !in s ==> r == s
  {
    if s == [] then s else [if s[0] == a then b else s[0]] + Replace(s[1..], a, b)
  }

  /** The first whitespace-separated word of `s` (`s.split()[0]`), absent when `s` is blank. */
  function FirstWord(s: string): (r: string)
    ensures forall k :: 0 <= k < |r| ==> !IsPySpace(r[k])
    ensures r == [] <==> forall k :: 0 <= k < |s| ==> IsPySpace(s[k])
  {
    var i := Span(s, IsPySpace);
    var rest := s[i..];
    var n := Span(rest, (c: char) => !IsPySpace(c));
    rest[..n]
  }
}
