/**
 * The regular-expression pieces the parsers and the scraper use, written as deterministic
 * matchers at a position plus the leftmost search of Python's `re.search`.
 *
 * For the patterns modelled here (`\d+`, an optional `[sep]\d+` group, `\s*` and a literal that
 * does not start with a digit, a separator or white space) backtracking never finds a match that
 * the greedy reading misses: giving back a digit leaves a digit where the next piece needs a
 * separator, a space or the literal. So the greedy matcher at a position is the regex at that position.
 */
module Regex {
  import opened Wrappers
  import opened Strings

  /** The leftmost position in `[i, n]` where `at` matches, with what it matched. */
  function Search<M>(n: nat, at: nat -> Option<M>, i: nat): (r: Option<(nat, M)>)
    ensures r.Some? ==> i <= r.value.0 <= n && at(r.value.0) == Some(r.value.1)
    ensures r.Some? ==> forall j :: i <= j < r.value.0 ==> at(j).None?
    ensures r.None? ==> forall j :: i <= j <= n ==> at(j).None?
    decreases if i <= n then n - i + 1 else 0
  {
    if i > n then None
    else
      match at(i)
      case Some(m) => Some((i, m))
      case None => Search(n, at, i + 1)
  }

  /** The end of the run of digits that starts at `i`. */
  function DigitsEnd(s: string, i: nat): (e: nat)
    requires i <= |s|
    ensures i <= e <= |s| && AllDigits(s[i..e]) && (e < |s| ==> !IsDigit(s[e]))
  {
    var n := Span(s[i..], IsDigit);
    assert s[i..i + n] == s[i..][..n];
    i + n
  }

  /**
   * `\d+(?:[seps]\d+)?` tried at `i`: the end of the first digit run and the end of the whole group.
   * The optional part is taken when a separator and at least one digit follow.
   */
  function NumberAt(s: string, i: nat, seps: set<char>): (r: Option<(nat, nat)>)
    ensures r.Some? ==> var (e1, e) := r.value;
      && i < e1 <= e <= |s| && AllDigits(s[i..e1])
      && (e == e1 ==> e1 == |s| || s[e1] !in seps || e1 + 1 == |s| || !IsDigit(s[e1 + 1]))
      && (e > e1 ==> e1 + 1 < e && s[e1] in seps && AllDigits(s[e1 + 1..e]))
      && (e < |s| ==> !IsDigit(s[e]))
    ensures r.None? <==> i >= |s| || !IsDigit(s[i])
  {
    if i >= |s| || !IsDigit(s[i]) then None
    else
      var e1 := DigitsEnd(s, i);
      if e1 + 1 < |s| && s[e1] in seps && IsDigit(s[e1 + 1]) then Some((e1, DigitsEnd(s, e1 + 1)))
      else Some((e1, e1))
  }

  /** The end of the white space (`\s*`) that starts at `i`. */
  function SpacesEnd(s: string, i: nat): (e: nat)
    requires i <= |s|
    ensures i <= e <= |s| && (forall k :: i <= k < e ==> IsPySpace(s[k])) && (e < |s| ==> !IsPySpace(s[e]))
  {
    var n := Span(s[i..], IsPySpace);
    i + n
  }

  /** The literal `lit` occurs at position `i`. */
  predicate LiteralAt(s: string, i: nat, lit: string)
  {
    i <= |s| && lit <= s[i..]
  }

  /** A run of characters satisfying `p` at the front of `a + b` covers all of `a` first. */
  lemma {:induction false} SpanAppend(a: string, b: string, p: char -> bool)
    requires forall k :: 0 <= k < |a| ==> p(a[k])
    ensures Span(a + b, p) == |a| + Span(b, p)
  {
    if a != [] {
      assert (a + b)[1..] == a[1..] + b;
      SpanAppend(a[1..], b, p);
    } else {
      assert a + b == b;
    }
  }
}
