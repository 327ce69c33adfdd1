/**
 * `sanitizePropertyData` and the order and count parts of `getDataStatistics`: the in-place sort
 * behind each median, `Math.min`/`Math.max`, and the tally of room values into a dictionary.
 */
module DataUtils {
  import opened Wrappers
  import opened Seqs
  import opened JsValues
  import opened FilterRules

  /** The rows `sanitizePropertyData` keeps: a price that is a number, not NaN, and above zero. */
  predicate Keeps(p: Property)
  {
    p.price.Number? && p.price.n != NaN && Lt(Fin(0.0), p.price.n)
  }

  /**
   * The record a kept row becomes: the price, dates and texts copied, the other numbers defaulted to
   * 0 when falsy, and every field outside the processed record (plot size, images) gone.
   */
  function Sanitized(p: Property): Property
  {
    Property(
      price := p.price, pricePerSqm := OrZero(p.pricePerSqm), livingSpace := OrZero(p.livingSpace),
      plotSize := Undefined, rooms := OrZero(p.rooms),
      latitude := OrZero(p.latitude), longitude := OrZero(p.longitude),
      created := p.created, closed := p.closed,
      description := p.description, features := p.features, address := p.address, link := p.link,
      preview := Undefined, images := Undefined)
  }

  function Sanitize(data: seq<Property>): seq<Property>
  {
    Map(Filter(data, Keeps), Sanitized)
  }

  /** A processed record: a positive price, and every other number either truthy or exactly 0. */
  predicate IsProcessed(p: Property)
  {
    Keeps(p)
    && (Truthy(p.pricePerSqm) || p.pricePerSqm == Number(Fin(0.0)))
    && (Truthy(p.livingSpace) || p.livingSpace == Number(Fin(0.0)))
    && (Truthy(p.rooms) || p.rooms == Number(Fin(0.0)))
    && (Truthy(p.latitude) || p.latitude == Number(Fin(0.0)))
    && (Truthy(p.longitude) || p.longitude == Number(Fin(0.0)))
    && p.plotSize == Undefined && p.preview == Undefined && p.images == Undefined
  }

  /**
   * Sanitizing keeps, in input order, exactly the rows with a valid price, each as its processed
   * record; the copied fields are unchanged and each defaulted field is the input or 0 when falsy.
   */
  lemma SanitizeSpec(data: seq<Property>)
    ensures |Sanitize(data)| == |Filter(data, Keeps)| <= |data|
    ensures forall i :: 0 <= i < |Sanitize(data)| ==> IsProcessed(Sanitize(data)[i])
    ensures forall i :: 0 <= i < |data| && Keeps(data[i]) ==> Sanitized(data[i]) in Sanitize(data)
    ensures forall i :: 0 <= i < |data| && !Keeps(data[i]) ==> data[i] !in Filter(data, Keeps)
  {
    FilterElements(data, Keeps);
    forall i | 0 <= i < |data| && Keeps(data[i])
      ensures Sanitized(data[i]) in Sanitize(data)
    {
      var k :| 0 <= k < |Filter(data, Keeps)| && Filter(data, Keeps)[k] == data[i];
      assert Sanitize(data)[k] == Sanitized(data[i]);
    }
  }

  /** Each field of a processed record, against the row it came from. */
  lemma SanitizedFields(p: Property)
    ensures Sanitized(p).price == p.price && Sanitized(p).created == p.created && Sanitized(p).closed == p.closed
    ensures Sanitized(p).description == p.description && Sanitized(p).features == p.features
    ensures Sanitized(p).address == p.address && Sanitized(p).link == p.link
    ensures Truthy(p.pricePerSqm) ==> Sanitized(p).pricePerSqm == p.pricePerSqm
    ensures !Truthy(p.pricePerSqm) ==> Sanitized(p).pricePerSqm == Number(Fin(0.0))
    ensures Truthy(p.livingSpace) ==> Sanitized(p).livingSpace == p.livingSpace
    ensures !Truthy(p.livingSpace) ==> Sanitized(p).livingSpace == Number(Fin(0.0))
    ensures Truthy(p.rooms) ==> Sanitized(p).rooms == p.rooms
    ensures !Truthy(p.rooms) ==> Sanitized(p).rooms == Number(Fin(0.0))
    ensures Truthy(p.latitude) ==> Sanitized(p).latitude == p.latitude
    ensures !Truthy(p.latitude) ==> Sanitized(p).latitude == Number(Fin(0.0))
    ensures Truthy(p.longitude) ==> Sanitized(p).longitude == p.longitude
    ensures !Truthy(p.longitude) ==> Sanitized(p).longitude == Number(Fin(0.0))
  {
  }

  /** Sanitizing sanitized data changes nothing. */
  lemma {:induction false} SanitizeIdempotent(data: seq<Property>)
    ensures Sanitize(Sanitize(data)) == Sanitize(data)
  {
    if data != [] {
      SanitizeIdempotent(data[1..]);
      assert Sanitized(Sanitized(data[0])) == Sanitized(data[0]);
      if Keeps(data[0]) {
        assert Filter(data, Keeps) == [data[0]] + Filter(data[1..], Keeps);
        assert Sanitize(data) == [Sanitized(data[0])] + Sanitize(data[1..]);
        var s := Sanitize(data);
        assert s[1..] == Sanitize(data[1..]);
        assert Filter(s, Keeps) == [s[0]] + Filter(s[1..], Keeps);
      } else {
        assert Filter(data, Keeps) == Filter(data[1..], Keeps);
      }
    }
  }

  // ---- Sorting and the medians ----

  /** Ascending in the order `(a, b) => a - b` sorts by. */
  predicate Sorted(s: seq<JsNum>)
  {
    forall i, j :: 0 <= i < j < |s| ==> Le(s[i], s[j])
  }

  /**
   * `a.sort((x, y) => x - y)` in place, as an insertion sort. Without NaN the comparator is
   * consistent and the result is the sorted permutation.
   */
  method SortNumbers(a: array<JsNum>)
    modifies a
    ensures multiset(a[..]) == multiset(old(a[..]))
    ensures NoNaN(old(a[..])) ==> Sorted(a[..])
  {
    ghost var clean := NoNaN(a[..]);
    var i := 0;
    while i < a.Length
      invariant 0 <= i <= a.Length
      invariant multiset(a[..]) == multiset(old(a[..]))
      invariant clean ==> NoNaN(a[..]) && Sorted(a[..i])
    {
      Insert(a, i, clean);
      i := i + 1;
    }
  }

  /** One pass of the insertion sort: element `i` moves down past every larger element before it. */
  method Insert(a: array<JsNum>, i: int, ghost clean: bool)
    requires 0 <= i < a.Length
    requires clean ==> NoNaN(a[..]) && Sorted(a[..i])
    modifies a
    ensures multiset(a[..]) == multiset(old(a[..]))
    ensures clean ==> NoNaN(a[..]) && Sorted(a[..i + 1])
  {
    var j := i;
    ghost var m0 := multiset(a[..]);
    if clean {
      StartInsert(a[..], i);
    }
    while j > 0 && Lt(a[j], a[j - 1])
      invariant 0 <= j <= i
      invariant multiset(a[..]) == m0
      invariant clean ==> NoNaN(a[..]) && InsertState(a[..], i, j)
    {
      ghost var s := a[..];
      a[j], a[j - 1] := a[j - 1], a[j];
      assert a[..] == s[j := s[j - 1]][j - 1 := s[j]];
      SwapMultiset(s, j);
      if clean {
        SwapStep(s, a[..], i, j);
      }
      j := j - 1;
    }
    if clean {
      FinishInsert(a[..], i, j);
    }
  }

  /**
   * Halfway through inserting element `j` (taken from position `i`): the prefix before `j` and the
   * stretch from `j` to `i` are sorted, and everything before `j` is below what follows it.
   */
  predicate InsertState(s: seq<JsNum>, i: int, j: int)
    requires 0 <= j <= i < |s|
  {
    (forall k, l :: 0 <= k < l < j ==> Le(s[k], s[l]))
    && (forall k, l :: j <= k < l <= i ==> Le(s[k], s[l]))
    && (forall k, l :: 0 <= k < j && j < l <= i ==> Le(s[k], s[l]))
  }

  lemma SwapMultiset(s: seq<JsNum>, j: int)
    requires 0 < j < |s|
    ensures multiset(s[j := s[j - 1]][j - 1 := s[j]]) == multiset(s)
  {
  }

  lemma LeTransitive(a: JsNum, b: JsNum, c: JsNum)
    requires Le(a, b) && Le(b, c)
    ensures Le(a, c)
  {
  }

  lemma StartInsert(s: seq<JsNum>, i: int)
    requires 0 <= i < |s| && Sorted(s[..i])
    ensures InsertState(s, i, i)
  {
    assert forall k, l :: 0 <= k < l < i ==> s[..i][k] == s[k] && s[..i][l] == s[l];
  }

  lemma SwapStep(s: seq<JsNum>, t: seq<JsNum>, i: int, j: int)
    requires 0 < j <= i < |s| && t == s[j := s[j - 1]][j - 1 := s[j]]
    requires NoNaN(s) && InsertState(s, i, j) && Lt(s[j], s[j - 1])
    ensures NoNaN(t) && InsertState(t, i, j - 1)
  {
    assert Le(s[j], s[j - 1]);
  }

  lemma FinishInsert(s: seq<JsNum>, i: int, j: int)
    requires 0 <= j <= i < |s| && NoNaN(s) && InsertState(s, i, j)
    requires j == 0 || !Lt(s[j], s[j - 1])
    ensures Sorted(s[..i + 1])
  {
    forall k, l | 0 <= k < l <= i
      ensures Le(s[k], s[l])
    {
      if k < j && l == j {
        if k < j - 1 {
          LeTransitive(s[k], s[j - 1], s[j]);
        }
      }
    }
  }

  /** `values.sort((a, b) => a - b)[Math.floor(values.length / 2)]` on a local copy. */
  method Median(values: seq<JsNum>) returns (sorted: seq<JsNum>, median: Option<JsNum>)
    ensures |sorted| == |values| && multiset(sorted) == multiset(values)
    ensures NoNaN(values) ==> Sorted(sorted)
    ensures median == if values == [] then None else Some(sorted[|values| / 2])
  {
    var a := new JsNum[|values|](i requires 0 <= i < |values| => values[i]);
    assert a[..] == values;
    SortNumbers(a);
    sorted := a[..];
    median := if a.Length == 0 then None else Some(a[a.Length / 2]);
  }

  /** For non-empty data without NaN the median lies between `Math.min` and `Math.max` of the values. */
  lemma MedianBounds(values: seq<JsNum>, sorted: seq<JsNum>)
    requires values != [] && NoNaN(values) && multiset(sorted) == multiset(values)
    ensures |sorted| == |values|
    ensures Le(MinOf(values), sorted[|values| / 2]) && Le(sorted[|values| / 2], MaxOf(values))
  {
    assert |sorted| == |multiset(sorted)| == |values|;
    var m := sorted[|values| / 2];
    assert m in multiset(values);
    var j :| 0 <= j < |values| && values[j] == m;
    MinOfBounds(values);
    MaxOfBounds(values);
  }

  // ---- The room distribution ----

  /** `acc[k] = (acc[k] || 0) + 1`. */
  function Bump(acc: map<string, nat>, k: string): (r: map<string, nat>)
    ensures k in r && r[k] == (if k in acc then acc[k] else 0) + 1
  {
    acc[k := (if k in acc then acc[k] else 0) + 1]
  }

  /** The dictionary `keys.reduce((acc, k) => { acc[k] = (acc[k] || 0) + 1; return acc; }, {})` builds. */
  function Tally(keys: seq<string>): map<string, nat>
  {
    if keys == [] then map[] else Bump(Tally(keys[..|keys| - 1]), keys[|keys| - 1])
  }

  /** The reduce over `keys`, updating an accumulator dictionary in a loop. */
  method CountKeys(keys: seq<string>) returns (acc: map<string, nat>)
    ensures acc == Tally(keys)
  {
    acc := map[];
    var i := 0;
    while i < |keys|
      invariant 0 <= i <= |keys|
      invariant acc == Tally(keys[..i])
    {
      assert keys[..i + 1][..i] == keys[..i];
      acc := Bump(acc, keys[i]);
      i := i + 1;
    }
    assert keys[..i] == keys;
  }

  lemma CountLast(s: seq<string>, k: string)
    requires s != []
    ensures Count(s, k) == Count(s[..|s| - 1], k) + (if s[|s| - 1] == k then 1 else 0)
    decreases |s|
  {
    if |s| > 1 {
      CountLast(s[1..], k);
      assert s[1..][..|s[1..]| - 1] == s[..|s| - 1][1..];
    }
  }

  /** The dictionary has one key per distinct value, and each key's count is how often it occurs. */
  lemma {:induction false} TallyCounts(keys: seq<string>)
    ensures forall k :: k in Tally(keys) <==> k in keys
    ensures forall k :: k in Tally(keys) ==> Tally(keys)[k] == Count(keys, k) >= 1
    decreases |keys|
  {
    if keys != [] {
      var front := keys[..|keys| - 1];
      TallyCounts(front);
      assert keys == front + [keys[|keys| - 1]];
      forall k
        ensures k in Tally(keys) ==> Tally(keys)[k] == Count(keys, k)
      {
        CountLast(keys, k);
      }
    }
  }

  /** The counts of the keys `ks`, read from `acc`. */
  function SumCounts(acc: map<string, nat>, ks: seq<string>): nat
    requires forall i :: 0 <= i < |ks| ==> ks[i] in acc
  {
    if ks == [] then 0 else acc[ks[0]] + SumCounts(acc, ks[1..])
  }

  /** How often the keys `ks` occur in `s`, added up. */
  function CountAll(ks: seq<string>, s: seq<string>): nat
  {
    if ks == [] then 0 else Count(s, ks[0]) + CountAll(ks[1..], s)
  }

  lemma {:induction false} CountAllCons(ks: seq<string>, x: string, s: seq<string>)
    ensures CountAll(ks, [x] + s) == CountAll(ks, s) + Count(ks, x)
  {
    if ks != [] {
      CountAllCons(ks[1..], x, s);
      assert ([x] + s)[1..] == s;
    }
  }

  lemma {:induction false} CountNoDup(ks: seq<string>, x: string)
    requires NoDup(ks) && x in ks
    ensures Count(ks, x) == 1
  {
    if ks[0] == x {
      assert x !in ks[1..] by {
        forall j | 0 <= j < |ks[1..]|
          ensures ks[1..][j] != x
        {
          assert ks[1..][j] == ks[j + 1];
        }
      }
    } else {
      assert x in ks[1..];
      assert NoDup(ks[1..]) by {
        forall i, j | 0 <= i < j < |ks[1..]| ensures ks[1..][i] != ks[1..][j] {
          assert ks[1..][i] == ks[i + 1] && ks[1..][j] == ks[j + 1];
        }
      }
      CountNoDup(ks[1..], x);
    }
  }

  /** Over repetition-free keys that cover `s`, the occurrence counts add up to the length of `s`. */
  lemma {:induction false} CountAllCover(ks: seq<string>, s: seq<string>)
    requires NoDup(ks) && forall i :: 0 <= i < |s| ==> s[i] in ks
    ensures CountAll(ks, s) == |s|
  {
    if s == [] {
      CountAllEmpty(ks);
    } else {
      assert s == [s[0]] + s[1..];
      CountAllCons(ks, s[0], s[1..]);
      CountNoDup(ks, s[0]);
      assert forall i :: 0 <= i < |s[1..]| ==> s[1..][i] == s[i + 1];
      CountAllCover(ks, s[1..]);
    }
  }

  lemma {:induction false} CountAllEmpty(ks: seq<string>)
    ensures CountAll(ks, []) == 0
  {
    if ks != [] {
      CountAllEmpty(ks[1..]);
    }
  }

  lemma {:induction false} SumCountsTally(ks: seq<string>, keys: seq<string>)
    requires forall i :: 0 <= i < |ks| ==> ks[i] in keys
    ensures forall i :: 0 <= i < |ks| ==> ks[i] in Tally(keys)
    ensures SumCounts(Tally(keys), ks) == CountAll(ks, keys)
  {
    TallyCounts(keys);
    if ks != [] {
      SumCountsTally(ks[1..], keys);
    }
  }

  /** The counts of the distinct keys add up to the number of keys. */
  lemma TallyTotal(keys: seq<string>)
    ensures forall i :: 0 <= i < |Dedupe(keys)| ==> Dedupe(keys)[i] in Tally(keys)
    ensures SumCounts(Tally(keys), Dedupe(keys)) == |keys|
  {
    DedupeElements(keys);
    SumCountsTally(Dedupe(keys), keys);
    CountAllCover(Dedupe(keys), keys);
  }

  // ---- getDataStatistics ----

  /** The order and count parts of the statistics; the averages are not modelled. */
  datatype Statistics = Statistics(
    priceMedian: Option<JsNum>, priceMin: JsNum, priceMax: JsNum,
    pricePerSqmMin: JsNum, pricePerSqmMax: JsNum,
    livingSpaceMedian: Option<JsNum>, livingSpaceMin: JsNum, livingSpaceMax: JsNum,
    roomsDistribution: map<string, nat>)

  function Prices(data: seq<Property>): seq<JsNum>
  {
    Map(data, (p: Property) => ToNumber(p.price))
  }

  function PricesPerSqm(data: seq<Property>): seq<JsNum>
  {
    Map(data, (p: Property) => ToNumber(p.pricePerSqm))
  }

  function LivingSpaces(data: seq<Property>): seq<JsNum>
  {
    Map(data, (p: Property) => ToNumber(p.livingSpace))
  }

  /** The dictionary key each room value is counted under (`acc[room]` converts it to text). */
  function RoomKeys(data: seq<Property>): seq<string>
  {
    Map(data, (p: Property) => ToText(p.rooms))
  }

  /**
   * `getDataStatistics`: each median is the middle of the sorted values and, for non-empty data
   * without NaN, lies between that column's minimum and maximum; the room dictionary counts each
   * room value.
   */
  method DataStatistics(data: seq<Property>) returns (stats: Statistics)
    ensures stats.priceMin == MinOf(Prices(data)) && stats.priceMax == MaxOf(Prices(data))
    ensures stats.pricePerSqmMin == MinOf(PricesPerSqm(data)) && stats.pricePerSqmMax == MaxOf(PricesPerSqm(data))
    ensures stats.livingSpaceMin == MinOf(LivingSpaces(data)) && stats.livingSpaceMax == MaxOf(LivingSpaces(data))
    ensures data == [] <==> stats.priceMedian == None
    ensures data == [] <==> stats.livingSpaceMedian == None
    ensures data != [] && NoNaN(Prices(data)) ==>
              Le(stats.priceMin, stats.priceMedian.value) && Le(stats.priceMedian.value, stats.priceMax)
    ensures data != [] && NoNaN(LivingSpaces(data)) ==>
              Le(stats.livingSpaceMin, stats.livingSpaceMedian.value) && Le(stats.livingSpaceMedian.value, stats.livingSpaceMax)
    ensures exists s :: |s| == |data| && multiset(s) == multiset(Prices(data)) && (NoNaN(Prices(data)) ==> Sorted(s)) &&
              (data != [] ==> stats.priceMedian == Some(s[|data| / 2]))
    ensures exists s :: |s| == |data| && multiset(s) == multiset(LivingSpaces(data)) && (NoNaN(LivingSpaces(data)) ==> Sorted(s)) &&
              (data != [] ==> stats.livingSpaceMedian == Some(s[|data| / 2]))
    ensures stats.roomsDistribution == Tally(RoomKeys(data))
  {
    var prices := Prices(data);
    var sortedPrices, priceMedian := Median(prices);
    var living := LivingSpaces(data);
    var sortedLiving, livingMedian := Median(living);
    if data != [] && NoNaN(prices) {
      MedianBounds(prices, sortedPrices);
    }
    if data != [] && NoNaN(living) {
      MedianBounds(living, sortedLiving);
    }
    var distribution := CountKeys(RoomKeys(data));
    stats := Statistics(priceMedian, MinOf(prices), MaxOf(prices),
                        MinOf(PricesPerSqm(data)), MaxOf(PricesPerSqm(data)),
                        livingMedian, MinOf(living), MaxOf(living), distribution);
  }
}
