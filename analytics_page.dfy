/**
 * The analytics page: the sanitized rows filtered by one set of filter settings, the comparison sets
 * (at most four copies of the current settings, each with a title and edited on its own), and the
 * datasets the charts receive, the current selection first.
 */
module AnalyticsPage {
  import opened Seqs
  import opened Strings
  import opened JsValues
  import opened FilterRules
  import opened DataUtils

  /** The filter of `getFilteredData`, applied to one sanitized row. */
  predicate Matches(env: Env, f: Filters, p: Property)
  {
    TypeOk(f, p)
    && Within(ToNumber(p.price), f.priceRange)
    && Within(ToNumber(p.pricePerSqm), f.pricePerSqmRange)
    && Within(ToNumber(p.livingSpace), f.livingSpaceRange)
    && Within(ToNumber(p.rooms), f.roomsRange)
    && GeoOk(env, f, p)
    && StatusOk(f.listingStatus, HasClosedDate(p))
    && DateByStatus(env, f, p)
  }

  /** `getFilteredData`: the sanitized rows that match, in their order. */
  function FilteredData(env: Env, f: Filters, data: seq<Property>): seq<Property>
  {
    Filter(Sanitize(data), (p: Property) => Matches(env, f, p))
  }

  /**
   * The filtered data keeps the order of the sanitized rows, holds only matching sanitized rows, and
   * holds every sanitized row that matches.
   */
  lemma FilteredDataSpec(env: Env, f: Filters, data: seq<Property>)
    ensures IsSubsequence(FilteredData(env, f, data), Sanitize(data))
    ensures forall i :: 0 <= i < |FilteredData(env, f, data)| ==>
              Matches(env, f, FilteredData(env, f, data)[i]) && FilteredData(env, f, data)[i] in Sanitize(data)
    ensures forall i :: 0 <= i < |Sanitize(data)| && Matches(env, f, Sanitize(data)[i]) ==>
              Sanitize(data)[i] in FilteredData(env, f, data)
  {
    FilterIsSubsequence(Sanitize(data), (p: Property) => Matches(env, f, p));
    FilterElements(Sanitize(data), (p: Property) => Matches(env, f, p));
  }

  /**
   * What a match means, rule by rule: a description starting with the selected type unless the type
   * is `'all'`; each of the four numbers between its bounds when neither is NaN; the radius when a
   * map location is set and the listing has coordinates; the listing's own status selected; and its
   * single date (closing date, else creation date) inside a set window.
   */
  lemma MatchesMeans(env: Env, f: Filters, p: Property)
    requires Matches(env, f, p)
    ensures f.propertyType != "all" ==> p.description.Text? && f.propertyType <= p.description.s
    ensures var x := ToNumber(p.price); var r := f.priceRange;
            x != NaN && r.lo != NaN && r.hi != NaN ==> Le(r.lo, x) && Le(x, r.hi)
    ensures var x := ToNumber(p.pricePerSqm); var r := f.pricePerSqmRange;
            x != NaN && r.lo != NaN && r.hi != NaN ==> Le(r.lo, x) && Le(x, r.hi)
    ensures var x := ToNumber(p.livingSpace); var r := f.livingSpaceRange;
            x != NaN && r.lo != NaN && r.hi != NaN ==> Le(r.lo, x) && Le(x, r.hi)
    ensures var x := ToNumber(p.rooms); var r := f.roomsRange;
            x != NaN && r.lo != NaN && r.hi != NaN ==> Le(r.lo, x) && Le(x, r.hi)
    ensures f.mapLocation.Some? && Truthy(p.latitude) && Truthy(p.longitude) ==>
              !Lt(f.mapLocation.value.radiusKm,
                  env.distance(f.mapLocation.value.lat, f.mapLocation.value.lng, p.latitude, p.longitude))
    ensures if HasClosedDate(p) then f.listingStatus.closed else f.listingStatus.active
    ensures WindowSet(f.dateRange) ==> InWindow(env, f.dateRange, ListingDate(env, p))
  {
    WithinMeans(ToNumber(p.price), f.priceRange);
    WithinMeans(ToNumber(p.pricePerSqm), f.pricePerSqmRange);
    WithinMeans(ToNumber(p.livingSpace), f.livingSpaceRange);
    WithinMeans(ToNumber(p.rooms), f.roomsRange);
    StatusOkMeans(f.listingStatus, HasClosedDate(p));
    DateRulesAgree(env, f, p);
  }

  /** With the type `'all'` the description plays no part in a match. */
  lemma AllTypesIgnoreDescription(env: Env, f: Filters, p: Property, d: JsValue)
    requires f.propertyType == "all"
    ensures Matches(env, f, p) <==> Matches(env, f, p.(description := d))
  {
  }

  /** With neither status selected nothing is shown. */
  lemma NoStatusNoRows(env: Env, f: Filters, data: seq<Property>)
    requires !f.listingStatus.active && !f.listingStatus.closed
    ensures FilteredData(env, f, data) == []
  {
    var keep := (p: Property) => Matches(env, f, p);
    forall i | 0 <= i < |Sanitize(data)|
      ensures !keep(Sanitize(data)[i])
    {
      StatusOkMeans(f.listingStatus, HasClosedDate(Sanitize(data)[i]));
    }
    FilterKeepsNone(Sanitize(data), keep);
  }

  /** With only `active` selected no closed listing is shown, and with only `closed` no active one. */
  lemma StatusSelectsRows(env: Env, f: Filters, data: seq<Property>)
    ensures !f.listingStatus.closed ==>
              forall i :: 0 <= i < |FilteredData(env, f, data)| ==> !HasClosedDate(FilteredData(env, f, data)[i])
    ensures !f.listingStatus.active ==>
              forall i :: 0 <= i < |FilteredData(env, f, data)| ==> HasClosedDate(FilteredData(env, f, data)[i])
  {
    forall i | 0 <= i < |FilteredData(env, f, data)|
      ensures if HasClosedDate(FilteredData(env, f, data)[i]) then f.listingStatus.closed else f.listingStatus.active
    {
      StatusOkMeans(f.listingStatus, HasClosedDate(FilteredData(env, f, data)[i]));
    }
  }

  /** A comparison set: a copy of filter settings and the title it was given when added. */
  datatype ComparisonSet = ComparisonSet(filters: Filters, title: string)

  const MaxComparisonSets: nat := 4

  function Title(n: nat): string
  {
    "Comparison Set " + NatToString(n)
  }

  /** `addComparisonSet`: a copy of the current settings is appended while fewer than four exist. */
  function WithSetAdded(sets: seq<ComparisonSet>, current: Filters): seq<ComparisonSet>
  {
    if |sets| < MaxComparisonSets then sets + [ComparisonSet(current, Title(|sets| + 1))] else sets
  }

  /** `filter((_, i) => i !== index)` over the sets from position `from` on. */
  function DropIndex(sets: seq<ComparisonSet>, index: int, from: int): seq<ComparisonSet>
  {
    if sets == [] then []
    else (if from == index then [] else [sets[0]]) + DropIndex(sets[1..], index, from + 1)
  }

  /** `removeComparisonSet`. */
  function WithoutSet(sets: seq<ComparisonSet>, index: int): seq<ComparisonSet>
  {
    DropIndex(sets, index, 0)
  }

  /** The per-set update: `map((s, i) => i !== index ? s : {...s, filters: apply(updater, s.filters)})`. */
  function WithSetUpdated(sets: seq<ComparisonSet>, index: int, u: Update): seq<ComparisonSet>
  {
    seq(|sets|, i requires 0 <= i < |sets| =>
      if i != index then sets[i] else sets[i].(filters := Applied(u, sets[i].filters)))
  }

  /**
   * Adding never goes beyond four sets: below four it appends the current settings titled by the new
   * count and keeps the earlier sets; at four it changes nothing.
   */
  lemma AddedSpec(sets: seq<ComparisonSet>, current: Filters)
    requires |sets| <= MaxComparisonSets
    ensures |WithSetAdded(sets, current)| <= MaxComparisonSets
    ensures |sets| < MaxComparisonSets ==>
              |WithSetAdded(sets, current)| == |sets| + 1
              && WithSetAdded(sets, current)[..|sets|] == sets
              && WithSetAdded(sets, current)[|sets|].filters == current
              && WithSetAdded(sets, current)[|sets|].title == Title(|sets| + 1)
    ensures |sets| == MaxComparisonSets ==> WithSetAdded(sets, current) == sets
  {
    if |sets| < MaxComparisonSets {
      assert WithSetAdded(sets, current)[..|sets|] == sets;
    }
  }

  lemma {:induction false} DropIndexSpec(sets: seq<ComparisonSet>, index: int, from: int)
    ensures from <= index < from + |sets| ==>
              DropIndex(sets, index, from) == sets[..index - from] + sets[index - from + 1..]
    ensures !(from <= index < from + |sets|) ==> DropIndex(sets, index, from) == sets
    decreases |sets|
  {
    if sets != [] {
      DropIndexSpec(sets[1..], index, from + 1);
      if from == index {
        assert sets[..0] + sets[1..] == sets[1..];
      } else if from < index < from + |sets| {
        assert [sets[0]] + (sets[1..][..index - from - 1] + sets[1..][index - from..])
               == sets[..index - from] + sets[index - from + 1..];
      } else {
        assert [sets[0]] + sets[1..] == sets;
      }
    }
  }

  /**
   * Removing drops exactly the set at a valid index and keeps the others in order; an index outside
   * the list removes nothing.
   */
  lemma RemovedSpec(sets: seq<ComparisonSet>, index: int)
    ensures 0 <= index < |sets| ==> WithoutSet(sets, index) == sets[..index] + sets[index + 1..]
    ensures 0 <= index < |sets| ==> |WithoutSet(sets, index)| == |sets| - 1
    ensures !(0 <= index < |sets|) ==> WithoutSet(sets, index) == sets
  {
    DropIndexSpec(sets, index, 0);
  }

  /**
   * An update changes only the filters of the set at the index, to the updated settings, and keeps
   * the number and the titles of the sets.
   */
  lemma UpdatedSpec(sets: seq<ComparisonSet>, index: int, u: Update)
    ensures |WithSetUpdated(sets, index, u)| == |sets|
    ensures forall i :: 0 <= i < |sets| ==> WithSetUpdated(sets, index, u)[i].title == sets[i].title
    ensures forall i :: 0 <= i < |sets| && i != index ==> WithSetUpdated(sets, index, u)[i] == sets[i]
    ensures 0 <= index < |sets| ==>
              WithSetUpdated(sets, index, u)[index].filters == Applied(u, sets[index].filters)
  {
  }

  /** Removing a set makes any earlier update of that set invisible. */
  lemma UpdateThenRemove(sets: seq<ComparisonSet>, index: int, u: Update)
    ensures WithoutSet(WithSetUpdated(sets, index, u), index) == WithoutSet(sets, index)
  {
    var t := WithSetUpdated(sets, index, u);
    RemovedSpec(sets, index);
    RemovedSpec(t, index);
    if 0 <= index < |sets| {
      assert t[..index] == sets[..index];
      assert t[index + 1..] == sets[index + 1..];
    } else {
      assert t == sets;
    }
  }

  /** Updates of two different sets do not interfere. */
  lemma UpdatesCommute(sets: seq<ComparisonSet>, i: int, j: int, u: Update, v: Update)
    requires i != j
    ensures WithSetUpdated(WithSetUpdated(sets, i, u), j, v) == WithSetUpdated(WithSetUpdated(sets, j, v), i, u)
  {
  }

  /**
   * Titles count the sets present when a set is added, so they can repeat: add two sets, remove the
   * first and add another, and both sets are titled "Comparison Set 2".
   */
  lemma TitlesCanRepeat(a: Filters, b: Filters, c: Filters)
    ensures var s := WithSetAdded(WithoutSet(WithSetAdded(WithSetAdded([], a), b), 0), c);
            |s| == 2 && s[0].title == Title(2) && s[1].title == Title(2) && s[0].filters == b
  {
    var s2 := WithSetAdded(WithSetAdded([], a), b);
    assert s2 == [ComparisonSet(a, Title(1)), ComparisonSet(b, Title(2))];
    RemovedSpec(s2, 0);
    assert WithoutSet(s2, 0) == [ComparisonSet(b, Title(2))];
  }

  /**
   * The comparison sets of the page. Every update goes through one of the three handlers, which keep
   * at most four sets.
   */
  class ComparisonSets {
    var sets: seq<ComparisonSet>

    predicate Valid()
      reads this
    {
      |sets| <= MaxComparisonSets
    }

    constructor()
      ensures Valid() && sets == []
    {
      sets := [];
    }

    method Add(current: Filters)
      requires Valid()
      modifies this
      ensures Valid() && sets == WithSetAdded(old(sets), current)
    {
      AddedSpec(sets, current);
      if |sets| < MaxComparisonSets {
        sets := sets + [ComparisonSet(current, Title(|sets| + 1))];
      }
    }

    method Remove(index: int)
      requires Valid()
      modifies this
      ensures Valid() && sets == WithoutSet(old(sets), index)
    {
      RemovedSpec(sets, index);
      sets := WithoutSet(sets, index);
    }

    method Update(index: int, u: Update)
      requires Valid()
      modifies this
      ensures Valid() && sets == WithSetUpdated(old(sets), index, u)
    {
      UpdatedSpec(sets, index, u);
      sets := WithSetUpdated(sets, index, u);
    }
  }

  /** The rows of one chart series and its title. */
  datatype Dataset = Dataset(data: seq<Property>, title: string)

  /** `datasets`: the current selection, then one series per comparison set. */
  function Datasets(env: Env, current: Filters, sets: seq<ComparisonSet>, data: seq<Property>): seq<Dataset>
  {
    [Dataset(FilteredData(env, current, data), "Current Selection")]
      + Map(sets, (s: ComparisonSet) => Dataset(FilteredData(env, s.filters, data), s.title))
  }

  /**
   * One series per comparison set after the current selection, each the filtered data of its own
   * settings under its own title.
   */
  lemma DatasetsSpec(env: Env, current: Filters, sets: seq<ComparisonSet>, data: seq<Property>)
    ensures |Datasets(env, current, sets, data)| == |sets| + 1
    ensures Datasets(env, current, sets, data)[0] == Dataset(FilteredData(env, current, data), "Current Selection")
    ensures forall i :: 0 <= i < |sets| ==>
              Datasets(env, current, sets, data)[i + 1] == Dataset(FilteredData(env, sets[i].filters, data), sets[i].title)
  {
  }
}
