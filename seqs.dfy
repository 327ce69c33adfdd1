/** Sequence operations shared by the model: order-preserving filtering and de-duplication. */
module Seqs {

  /** `a` can be obtained from `b` by deleting elements, keeping the order of the rest. */
  predicate IsSubsequence<T(==)>(a: seq<T>, b: seq<T>)
    decreases |b|
  {
    a == [] || (b != [] && ((a[0] == b[0] && IsSubsequence(a[1..], b[1..])) || IsSubsequence(a, b[1..])))
  }

  /** No element occurs twice. */
  predicate NoDup<T(==)>(s: seq<T>)
  {
    forall i, j :: 0 <= i < j < |s| ==> s[i] != s[j]
  }

  /** Keeps, in order, the elements of `s` that satisfy `p` (a pandas boolean mask, `Array.filter`). */
  function Filter<T(==)>(s: seq<T>, p: T -> bool): (r: seq<T>)
    ensures |r| <= |s|
    ensures forall i :: 0 <= i < |r| ==> p(r[i])
  {
    if s == [] then []
    else if p(s[0]) then [s[0]] + Filter(s[1..], p)
    else Filter(s[1..], p)
  }

  /** Filtering keeps exactly the elements of `s` that satisfy `p`. */
  lemma {:induction false} FilterElements<T>(s: seq<T>, p: T -> bool)
    ensures forall i :: 0 <= i < |Filter(s, p)| ==> Filter(s, p)[i] in s
    ensures forall i :: 0 <= i < |s| && p(s[i]) ==> s[i] in Filter(s, p)
  {
    if s != [] {
      FilterElements(s[1..], p);
      forall i | 0 <= i < |s| && p(s[i])
        ensures s[i] in Filter(s, p)
      {
        if i > 0 {
          assert s[i] == s[1..][i - 1];
        }
      }
      forall i | 0 <= i < |Filter(s, p)|
        ensures Filter(s, p)[i] in s
      {
        if p(s[0]) && i > 0 {
          assert Filter(s, p)[i] == Filter(s[1..], p)[i - 1];
        }
      }
    }
  }

  /** The elements of `s` that are not in `seen`, each at its first occurrence. */
  function DedupeFrom<T(==)>(s: seq<T>, seen: set<T>): (r: seq<T>)
    ensures |r| <= |s|
  {
    if s == [] then []
    else if s[0] in seen then DedupeFrom(s[1..], seen)
    else [s[0]] + DedupeFrom(s[1..], seen + {s[0]})
  }

  /** Each element of `s` once, at its first occurrence (`list(dict.fromkeys(s))`, `[...new Set(s)]`). */
  function Dedupe<T(==)>(s: seq<T>): seq<T>
  {
    DedupeFrom(s, {})
  }

  /** The index of the first occurrence of `x` in `s`. */
  function FirstIndex<T(==)>(s: seq<T>, x: T): (k: nat)
    requires x in s
    ensures k < |s| && s[k] == x
  {
    if s[0] == x then 0 else 1 + FirstIndex(s[1..], x)
  }

  /** No earlier position holds `x`. */
  lemma {:induction false} FirstIndexIsFirst<T>(s: seq<T>, x: T, j: nat)
    requires x in s && j < FirstIndex(s, x)
    ensures s[j] != x
  {
    if j > 0 {
      FirstIndexIsFirst(s[1..], x, j - 1);
    }
  }

  /** What `DedupeFrom` keeps: the elements of `s` outside `seen`, each once. */
  lemma {:induction false} DedupeFromElements<T>(s: seq<T>, seen: set<T>)
    ensures forall i :: 0 <= i < |DedupeFrom(s, seen)| ==> DedupeFrom(s, seen)[i] in s && DedupeFrom(s, seen)[i] !in seen
    ensures forall i :: 0 <= i < |s| && s[i] !in seen ==> s[i] in DedupeFrom(s, seen)
    ensures NoDup(DedupeFrom(s, seen))
  {
    if s != [] {
      if s[0] in seen {
        DedupeFromElements(s[1..], seen);
        forall i | 0 <= i < |s| && s[i] !in seen
          ensures s[i] in DedupeFrom(s, seen)
        {
          assert s[i] == s[1..][i - 1];
        }
      } else {
        var seen' := seen + {s[0]};
        var t := DedupeFrom(s[1..], seen');
        DedupeFromElements(s[1..], seen');
        assert DedupeFrom(s, seen) == [s[0]] + t;
        NoDupCons(s[0], t);
        forall i | 0 <= i < |s| && s[i] !in seen
          ensures s[i] in DedupeFrom(s, seen)
        {
          if s[i] != s[0] {
            assert s[i] == s[1..][i - 1];
          }
        }
      }
    }
  }

  /** De-duplication keeps exactly the elements of the input, without repeats. */
  lemma DedupeElements<T>(s: seq<T>)
    ensures forall i :: 0 <= i < |s| ==> s[i] in Dedupe(s)
    ensures forall i :: 0 <= i < |Dedupe(s)| ==> Dedupe(s)[i] in s
    ensures NoDup(Dedupe(s))
  {
    DedupeFromElements(s, {});
  }

  /** De-duplication only deletes elements: what it keeps stays in the input's order. */
  lemma {:induction false} DedupeFromIsSubsequence<T>(s: seq<T>, seen: set<T>)
    ensures IsSubsequence(DedupeFrom(s, seen), s)
  {
    if s != [] {
      if s[0] in seen {
        DedupeFromIsSubsequence(s[1..], seen);
      } else {
        DedupeFromIsSubsequence(s[1..], seen + {s[0]});
        assert ([s[0]] + DedupeFrom(s[1..], seen + {s[0]}))[1..] == DedupeFrom(s[1..], seen + {s[0]});
      }
    }
  }

  /** `x` and `y` both occur in `s`, and `x` occurs first. */
  predicate FirstBefore<T(==)>(s: seq<T>, x: T, y: T)
  {
    x in s && y in s && FirstIndex(s, x) < FirstIndex(s, y)
  }

  /** The elements kept by de-duplication appear in the order of their first occurrences. */
  lemma {:induction false} DedupeFromFirstOccurrenceOrder<T>(s: seq<T>, seen: set<T>, i: nat, j: nat)
    requires i < j < |DedupeFrom(s, seen)|
    ensures FirstBefore(s, DedupeFrom(s, seen)[i], DedupeFrom(s, seen)[j])
    decreases |s|
  {
    if s[0] in seen {
      DedupeFromFirstOccurrenceOrder(s[1..], seen, i, j);
      DedupeSkipStep(s, seen, i, j);
    } else if i == 0 {
      DedupeHeadFirst(s, seen, j);
    } else {
      DedupeFromFirstOccurrenceOrder(s[1..], seen + {s[0]}, i - 1, j - 1);
      DedupeKeepStep(s, seen, i, j);
    }
  }

  lemma DedupeSkipStep<T>(s: seq<T>, seen: set<T>, i: nat, j: nat)
    requires s != [] && s[0] in seen && i < j < |DedupeFrom(s[1..], seen)|
    requires FirstBefore(s[1..], DedupeFrom(s[1..], seen)[i], DedupeFrom(s[1..], seen)[j])
    ensures i < j < |DedupeFrom(s, seen)|
    ensures FirstBefore(s, DedupeFrom(s, seen)[i], DedupeFrom(s, seen)[j])
  {
    var r' := DedupeFrom(s[1..], seen);
    assert DedupeFrom(s, seen) == r';
    DedupeFromElements(s[1..], seen);
    FirstIndexTail(s, r'[i]);
    FirstIndexTail(s, r'[j]);
  }

  lemma DedupeHeadFirst<T>(s: seq<T>, seen: set<T>, j: nat)
    requires s != [] && s[0] !in seen && 0 < j < |DedupeFrom(s, seen)|
    ensures FirstBefore(s, DedupeFrom(s, seen)[0], DedupeFrom(s, seen)[j])
  {
    var r' := DedupeFrom(s[1..], seen + {s[0]});
    assert DedupeFrom(s, seen) == [s[0]] + r';
    DedupeFromElements(s[1..], seen + {s[0]});
    FirstIndexTail(s, r'[j - 1]);
  }

  lemma DedupeKeepStep<T>(s: seq<T>, seen: set<T>, i: nat, j: nat)
    requires s != [] && s[0] !in seen && 0 < i < j < |DedupeFrom(s, seen)|
    requires var r' := DedupeFrom(s[1..], seen + {s[0]});
      j - 1 < |r'| && FirstBefore(s[1..], r'[i - 1], r'[j - 1])
    ensures FirstBefore(s, DedupeFrom(s, seen)[i], DedupeFrom(s, seen)[j])
  {
    var r' := DedupeFrom(s[1..], seen + {s[0]});
    assert DedupeFrom(s, seen) == [s[0]] + r';
    DedupeFromElements(s[1..], seen + {s[0]});
    FirstIndexTail(s, r'[i - 1]);
    FirstIndexTail(s, r'[j - 1]);
  }

  lemma DedupeFirstOccurrenceOrder<T>(s: seq<T>, i: nat, j: nat)
    requires i < j < |Dedupe(s)|
    ensures FirstBefore(s, Dedupe(s)[i], Dedupe(s)[j])
  {
    DedupeFromFirstOccurrenceOrder(s, {}, i, j);
  }

  lemma FirstIndexTail<T>(s: seq<T>, x: T)
    requires s != [] && x in s[1..] && x != s[0]
    ensures x in s
    ensures FirstIndex(s, x) == 1 + FirstIndex(s[1..], x)
  {
  }

  /** A subsequence is never longer than the sequence it comes from. */
  lemma {:induction false} SubsequenceLength<T>(a: seq<T>, b: seq<T>)
    requires IsSubsequence(a, b)
    ensures |a| <= |b|
    decreases |b|
  {
    if a != [] {
      if a[0] == b[0] && IsSubsequence(a[1..], b[1..]) {
        SubsequenceLength(a[1..], b[1..]);
      } else {
        SubsequenceLength(a, b[1..]);
      }
    }
  }

  /** Every element of a subsequence is an element of the sequence it comes from. */
  lemma {:induction false} SubsequenceMembers<T>(a: seq<T>, b: seq<T>)
    requires IsSubsequence(a, b)
    ensures forall i :: 0 <= i < |a| ==> a[i] in b
    decreases |b|
  {
    if a != [] {
      if a[0] == b[0] && IsSubsequence(a[1..], b[1..]) {
        SubsequenceMembers(a[1..], b[1..]);
      } else {
        SubsequenceMembers(a, b[1..]);
      }
    }
  }

  /** Filtering only deletes elements: what it keeps stays in the input's order. */
  lemma {:induction false} FilterIsSubsequence<T>(s: seq<T>, p: T -> bool)
    ensures IsSubsequence(Filter(s, p), s)
  {
    if s != [] {
      FilterIsSubsequence(s[1..], p);
      if p(s[0]) {
        assert ([s[0]] + Filter(s[1..], p))[1..] == Filter(s[1..], p);
      }
    }
  }

  /** Filtering twice with the same test changes nothing the second time. */
  lemma {:induction false} FilterIdempotent<T>(s: seq<T>, p: T -> bool)
    ensures Filter(Filter(s, p), p) == Filter(s, p)
  {
    if s != [] {
      FilterIdempotent(s[1..], p);
      if p(s[0]) {
        assert ([s[0]] + Filter(s[1..], p))[1..] == Filter(s[1..], p);
      }
    }
  }

  /** Filtering commutes with concatenation. */
  lemma {:induction false} FilterConcat<T>(a: seq<T>, b: seq<T>, p: T -> bool)
    ensures Filter(a + b, p) == Filter(a, p) + Filter(b, p)
  {
    if a != [] {
      assert (a + b)[1..] == a[1..] + b;
      FilterConcat(a[1..], b, p);
    } else {
      assert a + b == b;
    }
  }

  /** Two repetition-free sequences with no element in common concatenate without repetition. */
  lemma NoDupAppend<T>(a: seq<T>, b: seq<T>)
    requires NoDup(a) && NoDup(b)
    requires forall i, j :: 0 <= i < |a| && 0 <= j < |b| ==> a[i] != b[j]
    ensures NoDup(a + b)
  {
    forall i, j | 0 <= i < j < |a + b|
      ensures (a + b)[i] != (a + b)[j]
    {
      if j < |a| {
      } else if i < |a| {
        assert (a + b)[j] == b[j - |a|];
      } else {
        assert (a + b)[i] == b[i - |a|] && (a + b)[j] == b[j - |a|];
      }
    }
  }

  /** A new element in front of a sequence without repeats keeps it without repeats. */
  lemma NoDupCons<T>(x: T, s: seq<T>)
    requires NoDup(s) && x !in s
    ensures NoDup([x] + s)
  {
    forall i, j | 0 <= i < j < |[x] + s|
      ensures ([x] + s)[i] != ([x] + s)[j]
    {
      assert ([x] + s)[j] == s[j - 1];
    }
  }

  /** The number of elements of `s` equal to `x`. */
  function Count<T(==)>(s: seq<T>, x: T): (n: nat)
    ensures n <= |s|
    ensures n > 0 <==> x in s
  {
    if s == [] then 0 else (if s[0] == x then 1 else 0) + Count(s[1..], x)
  }

  /** The sum of a sequence of naturals. */
  function Sum(s: seq<nat>): nat
  {
    if s == [] then 0 else s[0] + Sum(s[1..])
  }

  lemma {:induction false} SumAppend(a: seq<nat>, b: seq<nat>)
    ensures Sum(a + b) == Sum(a) + Sum(b)
  {
    if a == [] {
      assert a + b == b;
    } else {
      assert (a + b)[1..] == a[1..] + b;
      SumAppend(a[1..], b);
    }
  }

  /** Filtering keeps every element exactly when every element passes. */
  lemma {:induction false} FilterKeepsAll<T>(s: seq<T>, p: T -> bool)
    ensures |Filter(s, p)| == |s| <==> forall i :: 0 <= i < |s| ==> p(s[i])
  {
    if s != [] {
      FilterKeepsAll(s[1..], p);
      if forall i :: 0 <= i < |s| ==> p(s[i]) {
        assert forall i :: 0 <= i < |s[1..]| ==> p(s[1..][i]) by {
          forall i | 0 <= i < |s[1..]| ensures p(s[1..][i]) {
            assert s[1..][i] == s[i + 1];
          }
        }
      } else if p(s[0]) {
        var i :| 0 <= i < |s| && !p(s[i]);
        assert s[1..][i - 1] == s[i];
      }
    }
  }

  /** Filtering keeps nothing exactly when no element passes. */
  lemma {:induction false} FilterKeepsNone<T>(s: seq<T>, p: T -> bool)
    ensures Filter(s, p) == [] <==> forall i :: 0 <= i < |s| ==> !p(s[i])
  {
    if s != [] {
      FilterKeepsNone(s[1..], p);
      if !p(s[0]) {
        if Filter(s[1..], p) == [] {
          forall i | 0 <= i < |s| ensures !p(s[i]) {
            if i > 0 {
              assert s[1..][i - 1] == s[i];
            }
          }
        } else {
          var i :| 0 <= i < |s[1..]| && p(s[1..][i]);
          assert s[1..][i] == s[i + 1];
        }
      }
    }
  }

  /** Each element of `s` passed through `f` (`Array.prototype.map`). */
  function Map<T, U>(s: seq<T>, f: T -> U): (r: seq<U>)
    ensures |r| == |s|
    ensures forall i :: 0 <= i < |s| ==> r[i] == f(s[i])
  {
    if s == [] then [] else [f(s[0])] + Map(s[1..], f)
  }

  /** A filter every element passes keeps the whole sequence. */
  lemma {:induction false} FilterAll<T>(s: seq<T>, p: T -> bool)
    requires forall i :: 0 <= i < |s| ==> p(s[i])
    ensures Filter(s, p) == s
  {
    if s != [] {
      assert forall i :: 0 <= i < |s[1..]| ==> s[1..][i] == s[i + 1];
      FilterAll(s[1..], p);
    }
  }

  /** Two tests that agree on every element filter alike. */
  lemma {:induction false} FilterAgree<T>(s: seq<T>, p: T -> bool, q: T -> bool)
    requires forall i :: 0 <= i < |s| ==> p(s[i]) == q(s[i])
    ensures Filter(s, p) == Filter(s, q)
  {
    if s != [] {
      assert forall i :: 0 <= i < |s[1..]| ==> s[1..][i] == s[i + 1];
      FilterAgree(s[1..], p, q);
    }
  }
}
