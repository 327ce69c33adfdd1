/**
 * The dashboard's analytics panel: its own copy of the listing filter, in which living space, plot
 * size and rooms are checked only when the listing has a truthy value, the ten-bucket price
 * histogram and the listing count.
 */
module HousingAnalytics {
  import opened Wrappers
  import opened Seqs
  import opened JsValues
  import opened FilterRules
  import opened DataUtils
  import AnalyticsPage

  /** The filter of the panel (and of the dashboard's list), applied to one row. */
  predicate Matches(env: Env, f: Filters, p: Property)
  {
    TypeOk(f, p)
    && Within(ToNumber(p.price), f.priceRange)
    && Within(ToNumber(p.pricePerSqm), f.pricePerSqmRange)
    && WithinIfSet(p.livingSpace, f.livingSpaceRange)
    && WithinIfSet(p.plotSize, f.plotSizeRange)
    && WithinIfSet(p.rooms, f.roomsRange)
    && GeoOk(env, f, p)
    && StatusOk(f.listingStatus, HasClosedDate(p))
    && DateByStatus(env, f, p)
  }

  /** `filteredData`: the rows that match, in their order. */
  function FilteredData(env: Env, f: Filters, data: seq<Property>): seq<Property>
  {
    Filter(data, (p: Property) => Matches(env, f, p))
  }

  /** The filtered rows keep their order, all match, and every matching row is among them. */
  lemma FilteredDataSpec(env: Env, f: Filters, data: seq<Property>)
    ensures IsSubsequence(FilteredData(env, f, data), data)
    ensures forall i :: 0 <= i < |FilteredData(env, f, data)| ==>
              Matches(env, f, FilteredData(env, f, data)[i]) && FilteredData(env, f, data)[i] in data
    ensures forall i :: 0 <= i < |data| && Matches(env, f, data[i]) ==> data[i] in FilteredData(env, f, data)
  {
    FilterIsSubsequence(data, (p: Property) => Matches(env, f, p));
    FilterElements(data, (p: Property) => Matches(env, f, p));
  }

  /**
   * What a match means: price and price per m² between their bounds, living space, plot size and
   * rooms between theirs when the listing has a truthy value (NaN aside), the listing's own status
   * selected, and the window the status flags choose.
   */
  lemma MatchesMeans(env: Env, f: Filters, p: Property)
    requires Matches(env, f, p)
    ensures f.propertyType != "all" ==> p.description.Text? && f.propertyType <= p.description.s
    ensures var x := ToNumber(p.price); var r := f.priceRange;
            x != NaN && r.lo != NaN && r.hi != NaN ==> Le(r.lo, x) && Le(x, r.hi)
    ensures var x := ToNumber(p.pricePerSqm); var r := f.pricePerSqmRange;
            x != NaN && r.lo != NaN && r.hi != NaN ==> Le(r.lo, x) && Le(x, r.hi)
    ensures var x := ToNumber(p.livingSpace); var r := f.livingSpaceRange;
            Truthy(p.livingSpace) && x != NaN && r.lo != NaN && r.hi != NaN ==> Le(r.lo, x) && Le(x, r.hi)
    ensures var x := ToNumber(p.plotSize); var r := f.plotSizeRange;
            Truthy(p.plotSize) && x != NaN && r.lo != NaN && r.hi != NaN ==> Le(r.lo, x) && Le(x, r.hi)
    ensures var x := ToNumber(p.rooms); var r := f.roomsRange;
            Truthy(p.rooms) && x != NaN && r.lo != NaN && r.hi != NaN ==> Le(r.lo, x) && Le(x, r.hi)
    ensures if HasClosedDate(p) then f.listingStatus.closed else f.listingStatus.active
    ensures DateByStatus(env, f, p)
  {
    WithinMeans(ToNumber(p.price), f.priceRange);
    WithinMeans(ToNumber(p.pricePerSqm), f.pricePerSqmRange);
    WithinMeans(ToNumber(p.livingSpace), f.livingSpaceRange);
    WithinMeans(ToNumber(p.plotSize), f.plotSizeRange);
    WithinMeans(ToNumber(p.rooms), f.roomsRange);
    StatusOkMeans(f.listingStatus, HasClosedDate(p));
  }

  /** A listing without living space, plot size or rooms is never dropped for lacking them. */
  lemma MissingValuesPass(env: Env, f: Filters, p: Property)
    requires Matches(env, f, p)
    ensures Matches(env, f, p.(livingSpace := Undefined, plotSize := Undefined, rooms := Undefined))
    ensures Matches(env, f, p.(livingSpace := Number(Fin(0.0)), plotSize := Number(Fin(0.0)), rooms := Number(Fin(0.0))))
  {
  }

  /**
   * On a listing with truthy living space and rooms and no plot size the panel's filter is the
   * analytics page's.
   */
  lemma AgreesWithAnalyticsPage(env: Env, f: Filters, p: Property)
    requires Truthy(p.livingSpace) && Truthy(p.rooms) && !Truthy(p.plotSize)
    ensures Matches(env, f, p) <==> AnalyticsPage.Matches(env, f, p)
  {
  }

  /**
   * Elsewhere the two differ: with a positive lower room bound a listing with 0 rooms still passes
   * here, while the analytics page drops it.
   */
  lemma ZeroRoomsDiffer(env: Env, f: Filters, p: Property)
    requires Matches(env, f, p) && Lt(Fin(0.0), f.roomsRange.lo)
    ensures Matches(env, f, p.(rooms := Number(Fin(0.0))))
    ensures !AnalyticsPage.Matches(env, f, p.(rooms := Number(Fin(0.0))))
  {
  }

  /** `priceStats.count`. */
  function ListingCount(env: Env, f: Filters, data: seq<Property>): nat
  {
    |FilteredData(env, f, data)|
  }

  /** The count is at most the number of rows, all of them exactly when all match, 0 exactly when none does. */
  lemma ListingCountSpec(env: Env, f: Filters, data: seq<Property>)
    ensures ListingCount(env, f, data) <= |data|
    ensures ListingCount(env, f, data) == |data| <==> forall i :: 0 <= i < |data| ==> Matches(env, f, data[i])
    ensures ListingCount(env, f, data) == 0 <==> forall i :: 0 <= i < |data| ==> !Matches(env, f, data[i])
  {
    FilterKeepsAll(data, (p: Property) => Matches(env, f, p));
    FilterKeepsNone(data, (p: Property) => Matches(env, f, p));
  }

  const BucketCount: nat := 10

  type BucketIndex = k: nat | k < BucketCount

  /**
   * The bucket a price is counted in: none for `undefined` or `null`, otherwise
   * `Math.min(Math.floor((price - min) / step), 9)` when that lies in `[0, 10)`.
   */
  function Slot(v: JsValue, lo: JsNum, step: JsNum): Option<BucketIndex>
  {
    if v == Undefined || v == Null then None else NumberSlot(ToNumber(v), lo, step)
  }

  /** The bucket of a price that is neither `undefined` nor `null`, from its numeric value. */
  function NumberSlot(n: JsNum, lo: JsNum, step: JsNum): Option<BucketIndex>
  {
    var index := Min(Floor(Div(Sub(n, lo), step)), Fin(9.0));
    if Le(Fin(0.0), index) && Lt(index, Fin(10.0)) then Some(index.r.Floor as nat) else None
  }

  function Slots(vs: seq<JsValue>, lo: JsNum, step: JsNum): seq<Option<BucketIndex>>
  {
    Map(vs, (v: JsValue) => Slot(v, lo, step))
  }

  /** The bucket counters after the buckets of the prices have been visited in order. */
  function Counts(ks: seq<Option<BucketIndex>>): (c: seq<nat>)
    ensures |c| == BucketCount
  {
    if ks == [] then seq(BucketCount, _ => 0)
    else
      var c := Counts(ks[..|ks| - 1]);
      var k := ks[|ks| - 1];
      if k.Some? then c[k.value := c[k.value] + 1] else c
  }

  function PriceValues(ps: seq<Property>): seq<JsValue>
  {
    Map(ps, (p: Property) => p.price)
  }

  /** `(max - min) / 10` over the prices of the rows. */
  function Step(ps: seq<Property>): JsNum
  {
    Div(Sub(MaxOf(Prices(ps)), MinOf(Prices(ps))), Fin(10.0))
  }

  function PriceSlots(ps: seq<Property>): seq<Option<BucketIndex>>
  {
    Slots(PriceValues(ps), MinOf(Prices(ps)), Step(ps))
  }

  /** `getPriceRanges`, its counts: none for no rows, otherwise ten buckets. */
  function PriceRanges(ps: seq<Property>): (r: seq<nat>)
    ensures |r| == if ps == [] then 0 else BucketCount
  {
    if ps == [] then [] else Counts(PriceSlots(ps))
  }

  /** `getPriceRanges`: for rows, the minimum price and the step, then the bucket bookkeeping. */
  method GetPriceRanges(ps: seq<Property>) returns (counts: seq<nat>)
    ensures counts == PriceRanges(ps)
  {
    if ps == [] {
      return [];
    }
    var lo := MinOf(Prices(ps));
    var step := Step(ps);
    counts := CountBuckets(PriceValues(ps), (v: JsValue) => Slot(v, lo, step));
  }

  /** The bucket bookkeeping: ten counters, each price adding one to the bucket `bucket` gives it. */
  method CountBuckets(values: seq<JsValue>, bucket: JsValue -> Option<BucketIndex>) returns (counts: seq<nat>)
    ensures counts == Counts(Map(values, bucket))
  {
    ghost var slots := Map(values, bucket);
    var ranges := new nat[BucketCount](_ => 0);
    assert ranges[..] == Counts([]);
    var i := 0;
    while i < |values|
      invariant 0 <= i <= |values| == |slots|
      invariant ranges[..] == Counts(slots[..i])
    {
      ghost var before := ranges[..];
      var k := bucket(values[i]);
      assert k == slots[i];
      if k.Some? {
        ranges[k.value] := ranges[k.value] + 1;
      }
      assert ranges[..] == if k.Some? then before[k.value := before[k.value] + 1] else before;
      CountsSnoc(slots, i);
      i := i + 1;
    }
    assert slots[..i] == slots;
    counts := ranges[..];
  }

  /** Visiting one more price adds one to its bucket, if it has one. */
  lemma CountsSnoc(ks: seq<Option<BucketIndex>>, i: int)
    requires 0 <= i < |ks|
    ensures var c := Counts(ks[..i]);
            Counts(ks[..i + 1]) == if ks[i].Some? then c[ks[i].value := c[ks[i].value] + 1] else c
  {
    assert ks[..i + 1][..i] == ks[..i];
  }

  lemma {:induction false} SumUpdate(c: seq<nat>, k: nat)
    requires k < |c|
    ensures Sum(c[k := c[k] + 1]) == Sum(c) + 1
  {
    if k > 0 {
      SumUpdate(c[1..], k - 1);
      assert c[k := c[k] + 1][1..] == c[1..][k - 1 := c[1..][k - 1] + 1];
    }
  }

  /**
   * Every price with a bucket adds exactly one to the total, so the total never exceeds the number
   * of prices, equals it exactly when every price has a bucket and is 0 exactly when none has.
   */
  lemma {:induction false} CountsTotal(ks: seq<Option<BucketIndex>>)
    ensures Sum(Counts(ks)) <= |ks|
    ensures Sum(Counts(ks)) == |ks| <==> forall i :: 0 <= i < |ks| ==> ks[i].Some?
    ensures Sum(Counts(ks)) == 0 <==> forall i :: 0 <= i < |ks| ==> ks[i].None?
  {
    if ks == [] {
      SumZeros(BucketCount);
    } else {
      var init := ks[..|ks| - 1];
      CountsTotal(init);
      var k := ks[|ks| - 1];
      if k.Some? {
        SumUpdate(Counts(init), k.value);
      }
      assert Sum(Counts(ks)) == Sum(Counts(init)) + if k.Some? then 1 else 0;
      assert forall i :: 0 <= i < |init| ==> init[i] == ks[i];
      if forall i :: 0 <= i < |ks| ==> ks[i].Some? {
        assert forall i :: 0 <= i < |init| ==> init[i].Some?;
      }
      if forall i :: 0 <= i < |ks| ==> ks[i].None? {
        assert forall i :: 0 <= i < |init| ==> init[i].None?;
      }
    }
  }

  lemma {:induction false} SumZeros(n: nat)
    ensures Sum(seq(n, _ => 0)) == 0
  {
    if n > 0 {
      SumZeros(n - 1);
      assert seq(n, _ => 0)[1..] == seq(n - 1, _ => 0);
    }
  }

  /** With no price in any bucket every counter stays 0. */
  lemma {:induction false} CountsNone(ks: seq<Option<BucketIndex>>)
    requires forall i :: 0 <= i < |ks| ==> ks[i].None?
    ensures Counts(ks) == seq(BucketCount, _ => 0)
  {
    if ks != [] {
      CountsNone(ks[..|ks| - 1]);
    }
  }

  /**
   * Bucket k of a positive step covers `[min + k*step, min + (k+1)*step)`, the last bucket also
   * everything above: a counted finite price lies in the range of its bucket.
   */
  lemma BucketBounds(n: JsNum, lo: JsNum, step: JsNum)
    requires n.Fin? && lo.Fin? && step.Fin? && step.r > 0.0
    requires NumberSlot(n, lo, step).Some?
    ensures var k := NumberSlot(n, lo, step).value as real;
            lo.r + k * step.r <= n.r
            && (k < 9.0 ==> n.r < lo.r + (k + 1.0) * step.r)
  {
    SlotIndex(n, lo, step);
    QuotientBucket(n.r, lo.r, step.r, NumberSlot(n, lo, step).value);
  }

  /** A counted price is bucketed by its numeric value, which is neither `undefined` nor `null`. */
  lemma CountedSlot(v: JsValue, lo: JsNum, step: JsNum)
    ensures Slot(v, lo, step).Some? <==> v != Undefined && v != Null && NumberSlot(ToNumber(v), lo, step).Some?
    ensures Slot(v, lo, step).Some? ==> Slot(v, lo, step) == NumberSlot(ToNumber(v), lo, step)
  {
  }

  /** The bucket of a finite number is the floor of its quotient, capped at 9. */
  lemma SlotIndex(n: JsNum, lo: JsNum, step: JsNum)
    requires n.Fin? && lo.Fin? && step.Fin? && step.r > 0.0
    requires NumberSlot(n, lo, step).Some?
    ensures var q := (n.r - lo.r) / step.r;
            NumberSlot(n, lo, step).value == if q.Floor <= 9 then q.Floor else 9
  {
    var q := (n.r - lo.r) / step.r;
    assert Div(Sub(n, lo), step) == Fin(q);
  }

  /** The bucket of a quotient, in plain real arithmetic. */
  lemma QuotientBucket(x: real, lo: real, s: real, k: int)
    requires s > 0.0 && k == (if ((x - lo) / s).Floor <= 9 then ((x - lo) / s).Floor else 9)
    ensures lo + k as real * s <= x
    ensures k < 9 ==> x < lo + (k as real + 1.0) * s
  {
    var d := x - lo;
    var q := d / s;
    assert q * s == d;
    assert k as real <= q;
    MulLe(k as real, q, s);
    if k < 9 {
      assert q < k as real + 1.0;
      var u := k as real + 1.0;
      MulLt(q, u, s);
      assert d < u * s;
    }
  }

  lemma MulLe(a: real, b: real, s: real)
    requires a <= b && s > 0.0
    ensures a * s <= b * s
  {
  }

  lemma MulLt(a: real, b: real, s: real)
    requires a < b && s > 0.0
    ensures a * s < b * s
  {
  }

  lemma DivBelow(a: real, b: real, d: real)
    requires d > 0.0 && a <= b * d
    ensures a / d <= b
  {
    assert a / d * d == a;
  }

  /** A finite price between a smaller minimum and the maximum always lands in a bucket. */
  lemma InRangeCounted(x: real, lo: real, hi: real)
    requires lo <= x <= hi && lo < hi
    ensures Slot(Number(Fin(x)), Fin(lo), Div(Sub(Fin(hi), Fin(lo)), Fin(10.0))).Some?
  {
    var step := (hi - lo) / 10.0;
    assert Div(Sub(Fin(hi), Fin(lo)), Fin(10.0)) == Fin(step);
    var q := (x - lo) / step;
    assert Div(Sub(Fin(x), Fin(lo)), Fin(step)) == Fin(q);
    DivBelow(x - lo, 10.0, step);
  }

  /** The buckets never count more prices than there are rows, and count nothing for no rows. */
  lemma PriceRangesTotal(ps: seq<Property>)
    ensures Sum(PriceRanges(ps)) <= |ps|
  {
    if ps != [] {
      CountsTotal(PriceSlots(ps));
    }
  }

  /** Finite prices that are not all equal are all counted: the buckets add up to the number of rows. */
  lemma AllPricesCounted(ps: seq<Property>)
    requires ps != []
    requires forall i :: 0 <= i < |ps| ==> ps[i].price.Number? && ps[i].price.n.Fin?
    requires Lt(MinOf(Prices(ps)), MaxOf(Prices(ps)))
    ensures Sum(PriceRanges(ps)) == |ps|
  {
    var xs := Prices(ps);
    MinOfBounds(xs);
    MaxOfBounds(xs);
    var lo := MinOf(xs);
    var hi := MaxOf(xs);
    assert lo.Fin? && hi.Fin?;
    forall i | 0 <= i < |ps|
      ensures PriceSlots(ps)[i].Some?
    {
      assert xs[i] == ps[i].price.n;
      assert PriceSlots(ps)[i] == Slot(ps[i].price, lo, Step(ps));
      InRangeCounted(ps[i].price.n.r, lo.r, hi.r);
    }
    CountsTotal(PriceSlots(ps));
  }

  /**
   * When every row has the same finite price the step is 0, each `(price - min) / step` is `0 / 0`,
   * which is NaN, and no bucket counts anything.
   */
  lemma EqualPricesNotCounted(ps: seq<Property>, c: real)
    requires ps != []
    requires forall i :: 0 <= i < |ps| ==> ps[i].price == Number(Fin(c))
    ensures PriceRanges(ps) == seq(BucketCount, _ => 0)
  {
    var xs := Prices(ps);
    MinOfBounds(xs);
    MaxOfBounds(xs);
    assert MinOf(xs) == Fin(c) && MaxOf(xs) == Fin(c);
    assert Step(ps) == Fin(0.0);
    forall i | 0 <= i < |ps|
      ensures PriceSlots(ps)[i].None?
    {
      assert PriceSlots(ps)[i] == Slot(ps[i].price, Fin(c), Fin(0.0));
    }
    CountsNone(PriceSlots(ps));
  }

  /**
   * The bucket bookkeeping as evidently intended: when every price is the same the step is 0,
   * and each price is counted in the first bucket instead of in none.
   */
  function CorrectedPriceSlots(ps: seq<Property>): seq<Option<BucketIndex>>
  {
    if Step(ps) == Fin(0.0) then
      Map(PriceValues(ps), (v: JsValue) => if v == Undefined || v == Null then None else Some(0))
    else PriceSlots(ps)
  }

  function CorrectedPriceRanges(ps: seq<Property>): (r: seq<nat>)
    ensures |r| == if ps == [] then 0 else BucketCount
  {
    if ps == [] then [] else Counts(CorrectedPriceSlots(ps))
  }

  /** With the correction every finite price is counted, whether or not the prices differ. */
  lemma CorrectedPricesAllCounted(ps: seq<Property>)
    requires ps != []
    requires forall i :: 0 <= i < |ps| ==> ps[i].price.Number? && ps[i].price.n.Fin?
    ensures Sum(CorrectedPriceRanges(ps)) == |ps|
    ensures Lt(MinOf(Prices(ps)), MaxOf(Prices(ps))) ==> CorrectedPriceRanges(ps) == PriceRanges(ps)
  {
    var xs := Prices(ps);
    MinOfBounds(xs);
    MaxOfBounds(xs);
    var lo := MinOf(xs);
    var hi := MaxOf(xs);
    assert lo.Fin? && hi.Fin?;
    if Lt(lo, hi) {
      assert Step(ps) == Fin((hi.r - lo.r) / 10.0);
      AllPricesCounted(ps);
    } else {
      assert xs[0] == ps[0].price.n;
      assert lo.r <= hi.r;
      assert Step(ps) == Fin(0.0);
      forall i | 0 <= i < |ps|
        ensures CorrectedPriceSlots(ps)[i].Some?
      {
        assert PriceValues(ps)[i] == ps[i].price;
      }
      CountsTotal(CorrectedPriceSlots(ps));
    }
  }
}
