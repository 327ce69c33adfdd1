/**
 * The free-text parsers of the listing pages: asking prices such as "1.250.000 €" and key-fact
 * strings such as "147,5 m²", "4,5 Zimmer" and "500 m² Grundstück". Each returns `None` for
 * sentinels and for text it cannot read, and never fails.
 */
module Parsers {
  import opened Wrappers
  import opened Strings
  import opened Regex
  import opened Frames

  /** The page texts that stand for "no price". */
  const PriceSentinels: seq<string> := ["Preis auf Anfrage", "Keine Info"]

  /** The texts the parsers hand to `float`: digits, optionally a point and more digits. */
  predicate IsDecimal(t: string)
  {
    AllDigits(Before(t, '.')) && AllDigits(After(t, '.'))
  }

  /** The number with integer digits `whole` and fraction digits `frac`. */
  function NumberValue(whole: string, frac: string): (v: real)
    requires AllDigits(whole) && AllDigits(frac)
    ensures v >= 0.0
  {
    DigitsValue(whole) as real + DigitsValue(frac) as real / Pow10(|frac|) as real
  }

  /** `float(t)` on a decimal text, read exactly. */
  function PyFloat(t: string): real
    requires IsDecimal(t)
  {
    NumberValue(Before(t, '.'), After(t, '.'))
  }

  /** `re.search(r'\d+', p).group()`: the first run of digits, absent when `p` has no digit. */
  function FirstDigitRun(p: string): (r: Option<string>)
    ensures r.Some? ==> |r.value| > 0 && AllDigits(r.value)
    ensures r.None? <==> !HasDigit(p)
  {
    var i := Span(p, c => !IsDigit(c));
    if i == |p| then None else Some(p[i..DigitsEnd(p, i)])
  }

  /**
   * `clean_price`: the sentinels and every text without both a '€' and a digit give `None`;
   * otherwise the first digit run of the text before the first '€', with its dots deleted.
   */
  function CleanPrice(c: Cell): (r: Option<real>)
    ensures c.Str? && c.s in PriceSentinels ==> r.None?
    ensures r.Some? ==> c.Str? && '€' in c.s && HasDigit(c.s)
    ensures r.Some? ==> r.value >= 0.0 && r.value.Floor as real == r.value
  {
    match c
    case Str(s) =>
      if s in PriceSentinels then None
      else if '€' in s && HasDigit(s) then
        var amount := Delete(PyStrip(Before(s, '€')), '.');
        match FirstDigitRun(amount)
        case None => None
        case Some(run) => Some(DigitsValue(run) as real)
      else None
    case _ => None
  }

  /** The conversion `extract_sqm` and `extract_plot_size` apply to the matched number. */
  function AreaText(g: string): string
  {
    Replace(Delete(g, '.'), ',', '.')
  }

  /**
   * Reading a matched number `s[i..e]` (digits up to `e1`, then optionally a separator and digits):
   * a point is a thousands separator and a comma the decimal point.
   */
  lemma AreaTextValue(s: string, i: nat, e1: nat, e: nat)
    requires i < e1 <= e <= |s| && AllDigits(s[i..e1])
    requires e > e1 ==> e1 + 1 < e && s[e1] in {'.', ','} && AllDigits(s[e1 + 1..e])
    ensures IsDecimal(AreaText(s[i..e]))
    ensures PyFloat(AreaText(s[i..e])) ==
      if e == e1 then DigitsValue(s[i..e1]) as real
      else if s[e1] == '.' then DigitsValue(s[i..e1] + s[e1 + 1..e]) as real
      else NumberValue(s[i..e1], s[e1 + 1..e])
  {
    var whole := s[i..e1];
    if e == e1 {
      assert AreaText(s[i..e]) == whole;
      WholeNumberValue(whole);
    } else {
      var frac := s[e1 + 1..e];
      assert s[i..e] == whole + [s[e1]] + frac;
      if s[e1] == '.' {
        PointGroupText(whole, frac);
        WholeNumberValue(whole + frac);
      } else {
        CommaGroupText(whole, frac);
      }
    }
  }

  /** "1.200": the point is dropped. */
  lemma PointGroupText(whole: string, frac: string)
    requires AllDigits(whole) && AllDigits(frac)
    ensures AllDigits(whole + frac) && AreaText(whole + ['.'] + frac) == whole + frac
  {
    assert '.' !in whole && ',' !in whole && '.' !in frac && ',' !in frac;
    var a := whole + ['.'];
    DeleteAppend(a, frac, '.');
    DeleteAppend(whole, ['.'], '.');
    assert Delete(['.'], '.') == [];
    assert Delete(a, '.') == whole;
    assert Delete(a + frac, '.') == whole + frac;
    var t := whole + frac;
    assert forall k :: 0 <= k < |t| ==> IsDigit(t[k]);
    assert ',' !in t;
  }

  /** "147,5": the comma becomes the decimal point. */
  lemma CommaGroupText(whole: string, frac: string)
    requires AllDigits(whole) && AllDigits(frac)
    ensures IsDecimal(AreaText(whole + [','] + frac))
    ensures PyFloat(AreaText(whole + [','] + frac)) == NumberValue(whole, frac)
  {
    var g := whole + [','] + frac;
    assert '.' !in g by {
      assert forall k :: 0 <= k < |g| ==> g[k] == ',' || IsDigit(g[k]);
    }
    assert Delete(g, '.') == g;
    CommaDecimal(whole, frac);
  }

  /** Digits, a comma and digits, with the comma made a point, read as that decimal. */
  lemma CommaDecimal(whole: string, frac: string)
    requires AllDigits(whole) && AllDigits(frac)
    ensures IsDecimal(Replace(whole + [','] + frac, ',', '.'))
    ensures PyFloat(Replace(whole + [','] + frac, ',', '.')) == NumberValue(whole, frac)
  {
    assert '.' !in whole && ',' !in whole && '.' !in frac && ',' !in frac;
    var g := whole + [','] + frac;
    var t := Replace(g, ',', '.');
    assert t == whole + ['.'] + frac;
    BeforeAfterAt(whole, frac, '.');
  }

  /** A text of digits alone reads as its integer value. */
  lemma WholeNumberValue(t: string)
    requires AllDigits(t)
    ensures IsDecimal(t) && PyFloat(t) == DigitsValue(t) as real
  {
    DigitsExclude(t, '.');
    BeforeAbsent(t, '.');
    assert After(t, '.') == "";
  }

  /** `(\d+(?:[\.,]\d+)?)\s*m²` at position `i`: the bounds of the number it captures. */
  function SqmAt(s: string, i: nat): Option<(nat, nat)>
  {
    match NumberAt(s, i, {'.', ','})
    case None => None
    case Some((e1, e)) => if LiteralAt(s, SpacesEnd(s, e), "m²") then Some((e1, e)) else None
  }

  /** `(\d+(?:,\d+)?)\s*(?:Zimmer|Zi\.?)` at position `i`; "Zimmer" and "Zi." both begin with "Zi". */
  function RoomsAt(s: string, i: nat): Option<(nat, nat)>
  {
    match NumberAt(s, i, {','})
    case None => None
    case Some((e1, e)) => if LiteralAt(s, SpacesEnd(s, e), "Zi") then Some((e1, e)) else None
  }

  /** `(\d+(?:[\.,]\d+)?)\s*m²\s*Grundstück` at position `i`. */
  function PlotAt(s: string, i: nat): Option<(nat, nat)>
  {
    match NumberAt(s, i, {'.', ','})
    case None => None
    case Some((e1, e)) =>
      var k := SpacesEnd(s, e);
      if LiteralAt(s, k, "m²") && LiteralAt(s, SpacesEnd(s, k + 2), "Grundstück") then Some((e1, e)) else None
  }

  /** The patterns of the three key-fact parsers. */
  datatype Pattern = Sqm | Rooms | Plot

  function MatchAt(p: Pattern, s: string, i: nat): (m: Option<(nat, nat)>)
    ensures m.Some? ==> NumberAt(s, i, if p == Rooms then {','} else {'.', ','}) == m
  {
    match p
    case Sqm => SqmAt(s, i)
    case Rooms => RoomsAt(s, i)
    case Plot => PlotAt(s, i)
  }

  /** `re.search(pattern, s)`: the leftmost match, as (start, end of first digits, end of the number). */
  function FirstMatch(p: Pattern, s: string): (m: Option<(nat, nat, nat)>)
    ensures m.Some? ==> var (i, e1, e) := m.value;
      i < |s| && MatchAt(p, s, i) == Some((e1, e)) && forall j :: 0 <= j < i ==> MatchAt(p, s, j).None?
    ensures m.None? ==> forall j :: 0 <= j <= |s| ==> MatchAt(p, s, j).None?
  {
    var at := (i: nat) => MatchAt(p, s, i);
    assert forall j: nat :: at(j) == MatchAt(p, s, j);
    match Search(|s|, at, 0)
    case None => None
    case Some((i, (e1, e))) => Some((i, e1, e))
  }

  /** The value `extract_sqm` and `extract_plot_size` give a match. */
  function AreaNumber(s: string, i: nat, e1: nat, e: nat): (v: real)
    requires NumberAt(s, i, {'.', ','}) == Some((e1, e))
    ensures v >= 0.0
    ensures v == if e == e1 then DigitsValue(s[i..e1]) as real
      else if s[e1] == '.' then DigitsValue(s[i..e1] + s[e1 + 1..e]) as real
      else NumberValue(s[i..e1], s[e1 + 1..e])
  {
    AreaTextValue(s, i, e1, e);
    PyFloat(AreaText(s[i..e]))
  }

  /** The value `extract_rooms` gives a match. */
  function RoomsNumber(s: string, i: nat, e1: nat, e: nat): (v: real)
    requires NumberAt(s, i, {','}) == Some((e1, e))
    ensures v >= 0.0
    ensures v == if e == e1 then DigitsValue(s[i..e1]) as real else NumberValue(s[i..e1], s[e1 + 1..e])
  {
    RoomsTextValue(s, i, e1, e);
    PyFloat(Replace(s[i..e], ',', '.'))
  }

  /** `extract_sqm`: the first number followed by optional white space and "m²". */
  function ExtractSqm(c: Cell): (r: Option<real>)
    ensures !c.Str? || c.s == "Keine Info" || c.s == "EG" ==> r.None?
    ensures c.Str? && c.s != "Keine Info" && c.s != "EG" ==> (r.Some? <==> FirstMatch(Sqm, c.s).Some?)
    ensures r.Some? ==> r.value >= 0.0
  {
    match c
    case Str(s) =>
      if s == "Keine Info" || s == "EG" then None
      else
        (match FirstMatch(Sqm, s)
         case None => None
         case Some((i, e1, e)) => Some(AreaNumber(s, i, e1, e)))
    case _ => None
  }

  /** Reading a matched room count: the comma is the decimal point. */
  lemma RoomsTextValue(s: string, i: nat, e1: nat, e: nat)
    requires i < e1 <= e <= |s| && AllDigits(s[i..e1])
    requires e > e1 ==> e1 + 1 < e && s[e1] == ',' && AllDigits(s[e1 + 1..e])
    ensures IsDecimal(Replace(s[i..e], ',', '.'))
    ensures PyFloat(Replace(s[i..e], ',', '.')) ==
      if e == e1 then DigitsValue(s[i..e1]) as real else NumberValue(s[i..e1], s[e1 + 1..e])
  {
    var whole := s[i..e1];
    if e == e1 {
      assert ',' !in whole;
      assert Replace(s[i..e], ',', '.') == whole;
      WholeNumberValue(whole);
    } else {
      var frac := s[e1 + 1..e];
      assert s[i..e] == whole + [','] + frac;
      CommaDecimal(whole, frac);
    }
  }

  /** `extract_rooms`: the first number followed by optional white space and "Zimmer", "Zi" or "Zi.". */
  function ExtractRooms(c: Cell): (r: Option<real>)
    ensures !c.Str? || c.s == "Keine Info" ==> r.None?
    ensures c.Str? && c.s != "Keine Info" ==> (r.Some? <==> FirstMatch(Rooms, c.s).Some?)
    ensures r.Some? ==> r.value >= 0.0
  {
    match c
    case Str(s) =>
      if s == "Keine Info" then None
      else
        (match FirstMatch(Rooms, s)
         case None => None
         case Some((i, e1, e)) => Some(RoomsNumber(s, i, e1, e)))
    case _ => None
  }

  /** `extract_plot_size`: nothing unless "Grundstück" occurs, then a number, "m²" and "Grundstück". */
  function ExtractPlotSize(c: Cell): (r: Option<real>)
    ensures !c.Str? || !Contains(c.s, "Grundstück") ==> r.None?
    ensures c.Str? && Contains(c.s, "Grundstück") ==> (r.Some? <==> FirstMatch(Plot, c.s).Some?)
    ensures r.Some? ==> r.value >= 0.0
  {
    match c
    case Str(s) =>
      if Contains(s, "Grundstück") then
        (match FirstMatch(Plot, s)
         case None => None
         case Some((i, e1, e)) => Some(AreaNumber(s, i, e1, e)))
      else None
    case _ => None
  }
}

/** What the parsers make of the texts the listing pages print. */
module ParserFacts {
  import opened Wrappers
  import opened Strings
  import opened Regex
  import opened Frames
  import opened Parsers

  /** The characters of a grouped amount: digits and points. */
  predicate DigitsAndPoints(t: string)
  {
    forall k :: 0 <= k < |t| ==> IsDigit(t[k]) || t[k] == '.'
  }

  /** Joining a further group of digits after a point. */
  lemma GroupJoin(head: string, tail: string)
    requires DigitsAndPoints(head) && AllDigits(tail)
    ensures DigitsAndPoints(head + "." + tail)
    ensures Delete(head + "." + tail, '.') == Delete(head, '.') + tail
  {
    var t := head + "." + tail;
    forall k | 0 <= k < |t|
      ensures IsDigit(t[k]) || t[k] == '.'
    {
      if k < |head| {
        assert t[k] == head[k];
      } else if k > |head| {
        assert t[k] == tail[k - |head| - 1];
      }
    }
    DeleteJoin(head, tail);
  }

  lemma DeleteJoin(head: string, tail: string)
    requires AllDigits(tail)
    ensures Delete(head + "." + tail, '.') == Delete(head, '.') + tail
  {
    DeleteTrailingPoint(head);
    DigitsKeepUnderDelete(tail);
    DeleteAppend(head + ".", tail, '.');
  }

  lemma DeleteTrailingPoint(head: string)
    ensures Delete(head + ".", '.') == Delete(head, '.')
  {
    DeleteAppend(head, ".", '.');
    assert Delete(".", '.') == [];
  }

  lemma DigitsKeepUnderDelete(t: string)
    requires AllDigits(t)
    ensures Delete(t, '.') == t
  {
    DigitsExclude(t, '.');
  }

  /** A whole amount written with a point between groups of three digits ("1.250.000"). */
  function GroupedDigits(n: nat): (t: string)
    ensures |t| > 0 && IsDigit(t[0]) && IsDigit(t[|t| - 1]) && DigitsAndPoints(t)
    ensures Delete(t, '.') != [] && AllDigits(Delete(t, '.')) && DigitsValue(Delete(t, '.')) == n
    decreases n
  {
    if n < 1000 then
      var t := NatToString(n);
      assert '.' !in t;
      t
    else
      var head := GroupedDigits(n / 1000);
      assert Pow10(3) == 1000 by {
        assert Pow10(3) == 10 * Pow10(2) && Pow10(2) == 10 * Pow10(1) && Pow10(1) == 10 * Pow10(0);
      }
      var tail := PadDigits(n % 1000, 3);
      var t := head + "." + tail;
      GroupJoin(head, tail);
      var d := Delete(head, '.');
      DigitsValueAppend(d, tail);
      assert DigitsValue(d + tail) == (n / 1000) * 1000 + n % 1000;
      assert t[0] == head[0] && t[|t| - 1] == tail[2];
      t
  }

  /** A text whose first and last characters are not white space strips to the text itself. */
  lemma StripTrailingSpace(t: string)
    requires |t| > 0 && !IsPySpace(t[0]) && !IsPySpace(t[|t| - 1])
    ensures PyStrip(t + " ") == t
  {
    var x := t + " ";
    assert Span(x, IsPySpace) == 0;
    assert x[..|x| - 1] == t;
    assert BackSpan(t, IsPySpace) == 0;
    assert BackSpan(x, IsPySpace) == 1;
    assert x[0..|x| - 1] == t;
  }

  /** The digit run at `i` of `s` is exactly `a` when `a` sits there and no digit follows it. */
  lemma DigitsEndAt(s: string, i: nat, a: string)
    requires i + |a| <= |s| && s[i..i + |a|] == a && AllDigits(a)
    requires i + |a| == |s| || !IsDigit(s[i + |a|])
    ensures DigitsEnd(s, i) == i + |a|
  {
    assert s[i..] == a + s[i + |a|..];
    SpanAppend(a, s[i + |a|..], IsDigit);
  }

  /** The text before the euro sign of a printed price is the amount and its space. */
  lemma AmountBeforeEuro(t: string, rest: string)
    requires DigitsAndPoints(t)
    ensures Before(t + " €" + rest, '€') == t + " "
  {
    var s := t + " €" + rest;
    var k := |t| + 1;
    assert s[..k] == t + " " && s[k] == '€';
    assert '€' !in s[..k];
    assert s == s[..k] + s[k..];
    BeforeAppend(s[..k], s[k..], '€');
  }

  /** The amount of a printed price, its points deleted, is one run of digits. */
  lemma AmountDigits(t: string)
    requires Delete(t, '.') != [] && AllDigits(Delete(t, '.'))
    ensures FirstDigitRun(Delete(t, '.')) == Some(Delete(t, '.'))
  {
    var d := Delete(t, '.');
    assert Span(d, c => !IsDigit(c)) == 0;
    DigitsEndAt(d, 0, d);
    assert d[0..|d|] == d;
  }

  /** A price printed as grouped digits, a space and the euro sign reads back as the amount. */
  lemma CleanPriceOfPrintedAmount(n: nat, rest: string)
    ensures CleanPrice(Str(GroupedDigits(n) + " €" + rest)) == Some(n as real)
  {
    PrintedPrice(GroupedDigits(n), rest);
  }

  /** Digits and points, a space and the euro sign read back as the digits' value. */
  lemma PrintedPrice(t: string, rest: string)
    requires |t| > 0 && IsDigit(t[0]) && IsDigit(t[|t| - 1]) && DigitsAndPoints(t)
    requires Delete(t, '.') != [] && AllDigits(Delete(t, '.'))
    ensures CleanPrice(Str(t + " €" + rest)) == Some(DigitsValue(Delete(t, '.')) as real)
  {
    PrintedHead(t, rest);
    PrintedAmount(t, rest);
    AmountDigits(t);
    CleanPriceOfRun(t + " €" + rest, Delete(t, '.'));
  }

  /** A printed price is no sentinel and holds a digit and the euro sign. */
  lemma PrintedHead(t: string, rest: string)
    requires |t| > 0 && IsDigit(t[0])
    ensures t + " €" + rest !in PriceSentinels && '€' in t + " €" + rest && HasDigit(t + " €" + rest)
  {
    var s := t + " €" + rest;
    assert s[0] == t[0] && s[|t| + 1] == '€';
    DigitFirstNotSentinel(s);
  }

  /** The amount of a printed price, stripped and without points, is its digits. */
  lemma PrintedAmount(t: string, rest: string)
    requires |t| > 0 && IsDigit(t[0]) && IsDigit(t[|t| - 1]) && DigitsAndPoints(t)
    ensures Delete(PyStrip(Before(t + " €" + rest, '€')), '.') == Delete(t, '.')
  {
    AmountBeforeEuro(t, rest);
    StripTrailingSpace(t);
  }

  /** A price text whose amount is a single run of digits reads as that run's value. */
  lemma CleanPriceOfRun(s: string, run: string)
    requires s !in PriceSentinels && '€' in s && HasDigit(s)
    requires Delete(PyStrip(Before(s, '€')), '.') == run && AllDigits(run)
    requires FirstDigitRun(run) == Some(run)
    ensures CleanPrice(Str(s)) == Some(DigitsValue(run) as real)
  {
  }

  /** No text that starts with a digit is one of the price sentinels. */
  lemma DigitFirstNotSentinel(s: string)
    requires |s| > 0 && IsDigit(s[0])
    ensures s !in PriceSentinels
  {
    assert PriceSentinels[0][0] == 'P' && PriceSentinels[1][0] == 'K';
  }

  /** A match at the very start is the leftmost one. */
  lemma MatchAtStart(p: Pattern, s: string)
    requires MatchAt(p, s, 0).Some?
    ensures FirstMatch(p, s) == Some((0, MatchAt(p, s, 0).value.0, MatchAt(p, s, 0).value.1))
  {
  }

  /** A text that starts with a match of the area pattern reads as that match's number. */
  lemma SqmAtStart(s: string, e1: nat, e: nat)
    requires SqmAt(s, 0) == Some((e1, e))
    ensures ExtractSqm(Str(s)) == Some(AreaNumber(s, 0, e1, e))
  {
    assert IsDigit(s[0]);
    assert s != "Keine Info" && s != "EG";
    MatchAtStart(Sqm, s);
  }

  /** A text that starts with a match of the rooms pattern reads as that match's number. */
  lemma RoomsAtStart(s: string, e1: nat, e: nat)
    requires RoomsAt(s, 0) == Some((e1, e))
    ensures ExtractRooms(Str(s)) == Some(RoomsNumber(s, 0, e1, e))
  {
    assert IsDigit(s[0]);
    assert s != "Keine Info";
    MatchAtStart(Rooms, s);
  }

  /** A text that starts with a match of the plot pattern reads as that match's number. */
  lemma PlotAtStart(s: string, e1: nat, e: nat)
    requires PlotAt(s, 0) == Some((e1, e))
    ensures ExtractPlotSize(Str(s)) == Some(AreaNumber(s, 0, e1, e))
  {
    MatchAtStart(Plot, s);
    PlotGuardRedundant(s);
  }

  /** Digits followed by something that is neither a digit nor a separator form a whole number. */
  lemma NumberAtWhole(s: string, n: nat, seps: set<char>)
    requires 0 < n < |s| && AllDigits(s[..n]) && !IsDigit(s[n]) && s[n] !in seps
    ensures NumberAt(s, 0, seps) == Some((n, n))
  {
    assert s[0] == s[..n][0];
    DigitsEndAt(s, 0, s[..n]);
  }

  /** Digits, a separator and digits, followed by a non-digit, form one number. */
  lemma NumberAtGroup(s: string, n1: nat, n: nat, seps: set<char>)
    requires 0 < n1 && n1 + 1 < n < |s| && AllDigits(s[..n1]) && AllDigits(s[n1 + 1..n])
    requires s[n1] in seps && !IsDigit(s[n1]) && !IsDigit(s[n])
    ensures NumberAt(s, 0, seps) == Some((n1, n))
  {
    assert s[0] == s[..n1][0] && s[n1 + 1] == s[n1 + 1..n][0];
    DigitsEndAt(s, 0, s[..n1]);
    DigitsEndAt(s, n1 + 1, s[n1 + 1..n]);
  }

  /** `\s*` at a single space followed by something else. */
  lemma OneSpace(s: string, i: nat)
    requires i + 1 < |s| && s[i] == ' ' && !IsPySpace(s[i + 1])
    ensures SpacesEnd(s, i) == i + 1
  {
    assert s[i..][0] == ' ' && s[i..][1..] == s[i + 1..];
  }

  /** A literal spelled out character by character. */
  lemma LiteralHere(s: string, k: nat, lit: string)
    requires k + |lit| <= |s| && forall j :: 0 <= j < |lit| ==> s[k + j] == lit[j]
    ensures LiteralAt(s, k, lit)
  {
    assert s[k..][..|lit|] == lit;
  }

  /** Where the first three characters of a unit word sit in `a + u + rest`. */
  lemma UnitLayout(a: string, u: string, rest: string)
    requires |u| >= 3
    ensures var (s, n) := (a + u + rest, |a|);
      && |s| == n + |u| + |rest| && s[..n] == a && s[0..n] == a && s[n] == u[0] && s[n + 1] == u[1] && s[n + 2] == u[2]
  {
  }

  /** Where the pieces of `a + sep + b + u + rest` sit, for a one-character separator. */
  lemma GroupLayout(a: string, sep: string, b: string, u: string, rest: string)
    requires |sep| == 1 && |u| >= 3
    ensures var (s, n1, n) := (a + sep + b + u + rest, |a|, |a| + 1 + |b|);
      && |s| == n + |u| + |rest| && s[..n1] == a && s[0..n1] == a && s[n1] == sep[0] && s[n1 + 1..n] == b
      && s[n] == u[0] && s[n + 1] == u[1] && s[n + 2] == u[2]
  {
  }

  /** A number followed by one space and "m²" is a match of the area pattern. */
  lemma SqmAfterNumber(s: string, n1: nat, n: nat)
    requires NumberAt(s, 0, {'.', ','}) == Some((n1, n))
    requires n + 2 < |s| && s[n] == ' ' && s[n + 1] == 'm' && s[n + 2] == '²'
    ensures SqmAt(s, 0) == Some((n1, n))
  {
    OneSpace(s, n);
    LiteralHere(s, n + 1, "m²");
  }

  /** A number followed by one space and "Zi" is a match of the rooms pattern. */
  lemma RoomsAfterNumber(s: string, n1: nat, n: nat)
    requires NumberAt(s, 0, {','}) == Some((n1, n))
    requires n + 2 < |s| && s[n] == ' ' && s[n + 1] == 'Z' && s[n + 2] == 'i'
    ensures RoomsAt(s, 0) == Some((n1, n))
  {
    OneSpace(s, n);
    LiteralHere(s, n + 1, "Zi");
  }

  /** Digits, then " m²": the area parser reads the digits. */
  lemma SqmWholeAt(s: string, n: nat)
    requires 0 < n && n + 2 < |s| && AllDigits(s[..n])
    requires s[n] == ' ' && s[n + 1] == 'm' && s[n + 2] == '²'
    ensures ExtractSqm(Str(s)) == Some(AreaNumber(s, 0, n, n))
  {
    NumberAtWhole(s, n, {'.', ','});
    SqmAfterNumber(s, n, n);
    SqmAtStart(s, n, n);
  }

  /** `a`, a comma, `b`, then " m²": the area parser reads `a` as the whole and `b` as the fraction digits. */
  lemma SqmCommaAt(s: string, a: string, b: string)
    requires |a| > 0 && AllDigits(a) && |b| > 0 && AllDigits(b)
    requires |a| + |b| + 3 < |s| && s[..|a|] == a && s[|a|] == ',' && s[|a| + 1..|a| + 1 + |b|] == b
    requires s[|a| + 1 + |b|] == ' ' && s[|a| + 2 + |b|] == 'm' && s[|a| + 3 + |b|] == '²'
    ensures ExtractSqm(Str(s)) == Some(NumberValue(a, b))
  {
    var (n1, n) := (|a|, |a| + 1 + |b|);
    NumberAtGroup(s, n1, n, {'.', ','});
    SqmAfterNumber(s, n1, n);
    SqmAtStart(s, n1, n);
    var v := AreaNumber(s, 0, n1, n);
    assert s[0..n1] == a;
    assert v == NumberValue(s[0..n1], s[n1 + 1..n]);
  }

  /** `a`, a point, `b`, then " m²": the area parser reads the digits of `a` and `b` together. */
  lemma SqmPointAt(s: string, a: string, b: string)
    requires |a| > 0 && AllDigits(a) && |b| > 0 && AllDigits(b)
    requires |a| + |b| + 3 < |s| && s[..|a|] == a && s[|a|] == '.' && s[|a| + 1..|a| + 1 + |b|] == b
    requires s[|a| + 1 + |b|] == ' ' && s[|a| + 2 + |b|] == 'm' && s[|a| + 3 + |b|] == '²'
    ensures AllDigits(a + b)
    ensures ExtractSqm(Str(s)) == Some(DigitsValue(a + b) as real)
  {
    var (n1, n) := (|a|, |a| + 1 + |b|);
    AllDigitsAppend(a, b);
    NumberAtGroup(s, n1, n, {'.', ','});
    SqmAfterNumber(s, n1, n);
    SqmAtStart(s, n1, n);
    var v := AreaNumber(s, 0, n1, n);
    assert s[0..n1] + s[n1 + 1..n] == a + b;
    assert v == DigitsValue(a + b) as real;
  }

  /** Digits, then " Zi": the rooms parser reads the digits. */
  lemma RoomsWholeAt(s: string, n: nat)
    requires 0 < n && n + 2 < |s| && AllDigits(s[..n])
    requires s[n] == ' ' && s[n + 1] == 'Z' && s[n + 2] == 'i'
    ensures ExtractRooms(Str(s)) == Some(RoomsNumber(s, 0, n, n))
  {
    NumberAtWhole(s, n, {','});
    RoomsAfterNumber(s, n, n);
    RoomsAtStart(s, n, n);
  }

  /** `a`, a comma, `b`, then " Zi": the rooms parser reads `a` as the whole and `b` as the fraction digits. */
  lemma RoomsCommaAt(s: string, a: string, b: string)
    requires |a| > 0 && AllDigits(a) && |b| > 0 && AllDigits(b)
    requires |a| + |b| + 3 < |s| && s[..|a|] == a && s[|a|] == ',' && s[|a| + 1..|a| + 1 + |b|] == b
    requires s[|a| + 1 + |b|] == ' ' && s[|a| + 2 + |b|] == 'Z' && s[|a| + 3 + |b|] == 'i'
    ensures ExtractRooms(Str(s)) == Some(NumberValue(a, b))
  {
    var (n1, n) := (|a|, |a| + 1 + |b|);
    NumberAtGroup(s, n1, n, {','});
    RoomsAfterNumber(s, n1, n);
    RoomsAtStart(s, n1, n);
    var v := RoomsNumber(s, 0, n1, n);
    assert s[0..n1] == a;
    assert v == NumberValue(s[0..n1], s[n1 + 1..n]);
  }

  /** An area written as digits, a space and "m²" reads as those digits, whatever follows. */
  lemma SqmOfWholeNumber(a: string, rest: string)
    requires |a| > 0 && AllDigits(a)
    ensures ExtractSqm(Str(a + " m²" + rest)) == Some(DigitsValue(a) as real)
  {
    UnitLayout(a, " m²", rest);
    SqmWholeAt(a + " m²" + rest, |a|);
  }

  /** "147,5 m²": a comma group is the fraction. */
  lemma SqmOfCommaNumber(a: string, b: string, rest: string)
    requires |a| > 0 && AllDigits(a) && |b| > 0 && AllDigits(b)
    ensures ExtractSqm(Str(a + "," + b + " m²" + rest)) == Some(NumberValue(a, b))
  {
    GroupLayout(a, ",", b, " m²", rest);
    SqmCommaAt(a + "," + b + " m²" + rest, a, b);
  }

  /** "1.200 m²": a point group is a thousands separator. */
  lemma SqmOfPointNumber(a: string, b: string, rest: string)
    requires |a| > 0 && AllDigits(a) && |b| > 0 && AllDigits(b)
    ensures AllDigits(a + b)
    ensures ExtractSqm(Str(a + "." + b + " m²" + rest)) == Some(DigitsValue(a + b) as real)
  {
    GroupLayout(a, ".", b, " m²", rest);
    SqmPointAt(a + "." + b + " m²" + rest, a, b);
  }

  /** "4,5 Zimmer": a room count with a decimal comma. */
  lemma RoomsOfCommaNumber(a: string, b: string, rest: string)
    requires |a| > 0 && AllDigits(a) && |b| > 0 && AllDigits(b)
    ensures ExtractRooms(Str(a + "," + b + " Zimmer" + rest)) == Some(NumberValue(a, b))
  {
    GroupLayout(a, ",", b, " Zimmer", rest);
    RoomsCommaAt(a + "," + b + " Zimmer" + rest, a, b);
  }

  /** "3 Zi.": a whole room count before the abbreviation. */
  lemma RoomsOfWholeNumber(a: string, rest: string)
    requires |a| > 0 && AllDigits(a)
    ensures ExtractRooms(Str(a + " Zi" + rest)) == Some(DigitsValue(a) as real)
  {
    UnitLayout(a, " Zi", rest);
    RoomsWholeAt(a + " Zi" + rest, |a|);
  }

  /** A literal at some position is contained in the text. */
  lemma {:induction false} LiteralContained(s: string, k: nat, lit: string)
    requires LiteralAt(s, k, lit)
    ensures Contains(s, lit)
    decreases k
  {
    if k > 0 {
      assert s[1..][k - 1..] == s[k..];
      LiteralContained(s[1..], k - 1, lit);
    }
  }

  /** The "Grundstück" guard never changes the result: the pattern itself ends in that word. */
  lemma PlotGuardRedundant(s: string)
    ensures ExtractPlotSize(Str(s)) ==
      match FirstMatch(Plot, s)
      case None => None
      case Some((i, e1, e)) => Some(AreaNumber(s, i, e1, e))
  {
    match FirstMatch(Plot, s)
    case None =>
    case Some((i, e1, e)) =>
      assert MatchAt(Plot, s, i).Some?;
      PlotMatchHasWord(s, i);
  }

  /** Where the plot pattern matches, the text contains "Grundstück". */
  lemma PlotMatchHasWord(s: string, i: nat)
    requires MatchAt(Plot, s, i).Some?
    ensures Contains(s, "Grundstück")
  {
    var (e1, e) := PlotAt(s, i).value;
    var k := SpacesEnd(s, e);
    LiteralContained(s, SpacesEnd(s, k + 2), "Grundstück");
  }

  lemma WordAfterArea(a: string, rest: string)
    ensures LiteralAt(a + " m² Grundstück" + rest, |a| + 4, "Grundstück")
  {
    var s := a + " m² Grundstück" + rest;
    var word := "Grundstück";
    forall j | 0 <= j < |word|
      ensures s[|a| + 4 + j] == word[j]
    {
      assert s[|a| + 4 + j] == " m² Grundstück"[4 + j];
    }
    LiteralHere(s, |a| + 4, word);
  }

  /** "500 m² Grundstück": the plot size; the same text also gives 500 as living space. */
  lemma PlotOfWholeNumber(a: string, rest: string)
    requires |a| > 0 && AllDigits(a)
    ensures ExtractPlotSize(Str(a + " m² Grundstück" + rest)) == Some(DigitsValue(a) as real)
    ensures ExtractSqm(Str(a + " m² Grundstück" + rest)) == Some(DigitsValue(a) as real)
  {
    var s := a + " m² Grundstück" + rest;
    PlotTextMatches(a, rest);
    SqmAtStart(s, |a|, |a|);
    PlotAtStart(s, |a|, |a|);
  }

  /** Both area patterns match "500 m² Grundstück" at its start, capturing the digits. */
  lemma PlotTextMatches(a: string, rest: string)
    requires |a| > 0 && AllDigits(a)
    ensures var s := a + " m² Grundstück" + rest;
      && PlotAt(s, 0) == Some((|a|, |a|)) && SqmAt(s, 0) == Some((|a|, |a|)) && s[0..|a|] == a
  {
    var s := a + " m² Grundstück" + rest;
    var n := |a|;
    assert s[..n] == a && s[n] == ' ' && s[n + 1] == 'm' && s[n + 2] == '²' && s[n + 3] == ' ' && s[n + 4] == 'G';
    NumberAtWhole(s, n, {'.', ','});
    OneSpace(s, n);
    LiteralHere(s, n + 1, "m²");
    OneSpace(s, n + 3);
    WordAfterArea(a, rest);
    assert s[0..n] == a;
  }

  lemma MillionText()
    ensures "1" + "." + "250" == "1.250"
    ensures "1.250" + "." + "000" == "1.250.000"
    ensures "1.250.000" + " €" + "" == "1.250.000 €"
  {
  }

  lemma ThousandDigits()
    ensures GroupedDigits(1250) == "1.250"
  {
    assert GroupedDigits(1) == "1";
    PadTwoHundredFifty();
    GroupedDigitsJoin(1250, "1", "250");
    MillionText();
  }

  lemma MillionDigits()
    ensures GroupedDigits(1250000) == "1.250.000"
  {
    ThousandDigits();
    PadZeros();
    GroupedDigitsJoin(1250000, "1.250", "000");
    MillionText();
  }

  lemma PadTwoHundredFifty()
    ensures Pow10(3) == 1000 && PadDigits(250, 3) == "250"
  {
    Pow10Three();
    assert PadDigits(2, 1) == "2";
    assert PadDigits(25, 2) == "2" + "5";
  }

  lemma PadZeros()
    ensures Pow10(3) == 1000 && PadDigits(0, 3) == "000"
  {
    Pow10Three();
    assert PadDigits(0, 1) == "0";
    assert PadDigits(0, 2) == "0" + "0";
  }

  lemma Pow10Three()
    ensures Pow10(3) == 1000
  {
    assert Pow10(3) == 10 * Pow10(2) && Pow10(2) == 10 * Pow10(1) && Pow10(1) == 10 * Pow10(0);
  }

  /** One step of the grouping, with the head and tail texts already known. */
  lemma GroupedDigitsJoin(n: nat, head: string, tail: string)
    requires n >= 1000 && GroupedDigits(n / 1000) == head
    requires Pow10(3) == 1000 && PadDigits(n % 1000, 3) == tail
    ensures GroupedDigits(n) == head + "." + tail
  {
  }

  /** An asking price as the listing pages print it. */
  lemma PriceExample()
    ensures CleanPrice(Str("1.250.000 €")) == Some(1250000.0)
  {
    MillionText();
    MillionDigits();
    CleanPriceOfPrintedAmount(1250000, "");
  }

  /** Living space with a decimal comma. */
  lemma SqmCommaExample()
    ensures ExtractSqm(Str("147,5 m²")) == Some(147.5)
  {
    assert "147" + "," + "5" + " m²" + "" == "147,5 m²";
    assert DigitsValue("147") == 147 by {
      assert "147"[..2] == "14" && "14"[..1] == "1" && "1"[..0] == "";
    }
    assert DigitsValue("5") == 5 by {
      assert "5"[..0] == "";
    }
    assert Pow10(|"5"|) == 10 by {
      assert Pow10(1) == 10 * Pow10(0);
    }
    assert NumberValue("147", "5") == 147.5;
    SqmOfCommaNumber("147", "5", "");
  }

  /** Living space with a thousands point. */
  lemma SqmPointExample()
    ensures ExtractSqm(Str("1.200 m²")) == Some(1200.0)
  {
    assert "1" + "." + "200" + " m²" + "" == "1.200 m²";
    assert DigitsValue("1" + "200") == 1200 by {
      assert "1" + "200" == "1200";
      assert "1200"[..3] == "120" && "120"[..2] == "12" && "12"[..1] == "1" && "1"[..0] == "";
    }
    SqmOfPointNumber("1", "200", "");
  }

  /** A room count with a decimal comma. */
  lemma RoomsExample()
    ensures ExtractRooms(Str("4,5 Zimmer")) == Some(4.5)
  {
    assert "4" + "," + "5" + " Zimmer" + "" == "4,5 Zimmer";
    assert DigitsValue("4") == 4 && DigitsValue("5") == 5 by {
      assert "4"[..0] == "" && "5"[..0] == "";
    }
    assert Pow10(|"5"|) == 10 by {
      assert Pow10(1) == 10 * Pow10(0);
    }
    assert NumberValue("4", "5") == 4.5;
    RoomsOfCommaNumber("4", "5", "");
  }

  /** A plot size, which the living-space parser reads as well. */
  lemma PlotExample()
    ensures ExtractPlotSize(Str("500 m² Grundstück")) == Some(500.0)
    ensures ExtractSqm(Str("500 m² Grundstück")) == Some(500.0)
  {
    assert "500" + " m² Grundstück" + "" == "500 m² Grundstück";
    assert DigitsValue("500") == 500 by {
      assert "500"[..2] == "50" && "50"[..1] == "5" && "5"[..0] == "";
    }
    PlotOfWholeNumber("500", "");
  }

  /** A text without the first letter of a word does not contain the word. */
  lemma {:induction false} FirstLetterAbsent(s: string, word: string)
    requires word != [] && word[0] !in s
    ensures !Contains(s, word)
    decreases |s|
  {
    if s != [] {
      assert s == [s[0]] + s[1..];
      FirstLetterAbsent(s[1..], word);
    }
  }

  /** A living area alone is not a plot size: without "Grundstück" there is nothing to read. */
  lemma LivingAreaIsNoPlot()
    ensures ExtractPlotSize(Str("500 m² Wohnfläche")) == None
  {
    FirstLetterAbsent("500 m² Wohnfläche", "Grundstück");
  }
}
