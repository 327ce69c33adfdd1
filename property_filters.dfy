/**
 * The filter panel: the updaters its inputs hand to `setFilters`, the conversions between range
 * bounds and dropdown texts, the routing of updates in comparison mode, and the panel's own state
 * (the advanced toggle and the two price texts, which are kept from crossing).
 */
module PropertyFilters {
  import opened Strings
  import opened JsValues
  import opened FilterRules
  import AnalyticsPage

  /** The dropdown text of an unbounded rooms maximum. */
  const NoMaxRooms: string := "NoMax"

  /** `Number(text) || 0`: the value of the text, with NaN and zero both read as 0. */
  function NumberOrZero(t: string): (r: JsNum)
    ensures r != NaN
    ensures r == StringToNumber(t) || r == Fin(0.0)
    ensures StringToNumber(t) == NaN ==> r == Fin(0.0)
  {
    var n := StringToNumber(t);
    if Truthy(Number(n)) then n else Fin(0.0)
  }

  /** The price range Apply stores: the two texts' values, the smaller first. */
  function BasicPriceRange(minText: string, maxText: string): Range
  {
    var a := NumberOrZero(minText);
    var b := NumberOrZero(maxText);
    Range(Min(a, b), Max(a, b))
  }

  /**
   * Apply stores an ordered pair without NaN that holds the two values read from the texts,
   * whichever order they were typed in.
   */
  lemma BasicPriceRangeSpec(minText: string, maxText: string)
    ensures var r := BasicPriceRange(minText, maxText);
            var a := NumberOrZero(minText); var b := NumberOrZero(maxText);
            r.lo != NaN && r.hi != NaN && Le(r.lo, r.hi)
            && ((r.lo == a && r.hi == b) || (r.lo == b && r.hi == a))
  {
    var a := NumberOrZero(minText);
    var b := NumberOrZero(maxText);
    LtTotal(a, b);
  }

  /** `handleBasicPriceApply`'s updater. */
  function BasicPriceApplied(prev: Filters, minText: string, maxText: string): Filters
  {
    prev.(priceRange := BasicPriceRange(minText, maxText))
  }

  /** `toDropdownValue`. */
  function ToDropdownValue(v: JsNum): string
  {
    if v == PosInf then NoMaxRooms else NumberText(v)
  }

  /** `fromDropdownValue`: `"NoMax"` is unbounded and a text that is not a number is 0. */
  function FromDropdownValue(s: string): (r: JsNum)
    ensures r != NaN
  {
    if s == NoMaxRooms then PosInf
    else var n := StringToNumber(s); if n == NaN then Fin(0.0) else n
  }

  /**
   * The two conversions are inverse on what the dropdowns offer: an unbounded maximum and every
   * integral bound come back unchanged. A text that is not a number reads as 0.
   */
  lemma DropdownRoundTrip(v: JsNum)
    requires v == PosInf || IsIntegral(v)
    ensures FromDropdownValue(ToDropdownValue(v)) == v
  {
    if v != PosInf {
      IntegralTextRoundTrip(v);
      IntegralTextIsNotNoMax(v);
    }
  }

  lemma IntegralTextIsNotNoMax(v: JsNum)
    requires IsIntegral(v)
    ensures NumberText(v) != NoMaxRooms
  {
    var i := v.r.Floor;
    var d := NatToString(if i < 0 then -i else i);
    assert IsDigit(d[0]);
    assert NumberText(v) == IntToString(i);
    assert IntToString(i)[0] == '-' || IntToString(i)[0] == d[0];
    assert NoMaxRooms[0] == 'N';
  }

  lemma DropdownNonNumberIsZero(s: string)
    requires s != NoMaxRooms && StringToNumber(s) == NaN
    ensures FromDropdownValue(s) == Fin(0.0)
  {
  }

  /** The end of a range an input edits. */
  datatype End = MinEnd | MaxEnd

  /**
   * The price-per-m² and rooms rule: the edited end takes the new value and the other end moves
   * with it only when the new value crosses it.
   */
  function CorrectedRange(r: Range, end: End, v: JsNum): Range
  {
    match end
    case MinEnd => Range(v, if Lt(r.hi, v) then v else r.hi)
    case MaxEnd => Range(if Lt(v, r.lo) then v else r.lo, v)
  }

  /**
   * The edited end equals the new value. Without NaN the result is ordered and its other end is
   * the old end pushed past the new value, `Math.max`/`Math.min` of the two; a new value inside an
   * ordered range leaves the other end alone.
   */
  lemma CorrectedRangeSpec(r: Range, end: End, v: JsNum)
    ensures var c := CorrectedRange(r, end, v); (if end == MinEnd then c.lo else c.hi) == v
    ensures var c := CorrectedRange(r, end, v);
            v != NaN && r.lo != NaN && r.hi != NaN ==>
              Le(c.lo, c.hi)
              && (end == MinEnd ==> c.hi == Max(v, r.hi))
              && (end == MaxEnd ==> c.lo == Min(v, r.lo))
    ensures var c := CorrectedRange(r, end, v);
            Le(r.lo, v) && Le(v, r.hi) ==> (end == MinEnd ==> c.hi == r.hi) && (end == MaxEnd ==> c.lo == r.lo)
  {
    if v != NaN && r.lo != NaN && r.hi != NaN {
      LtTotal(v, r.hi);
      LtTotal(v, r.lo);
    }
  }

  /** A range that is ordered and free of NaN stays so under every edit with a number. */
  lemma CorrectedRangeKeepsOrder(r: Range, end: End, v: JsNum)
    requires r.lo != NaN && r.hi != NaN && Le(r.lo, r.hi) && v != NaN
    ensures var c := CorrectedRange(r, end, v); c.lo != NaN && c.hi != NaN && Le(c.lo, c.hi)
  {
    CorrectedRangeSpec(r, end, v);
  }

  /** The living-space rule: the sorted pair of the new value and the other old end. */
  function LivingRange(r: Range, end: End, v: JsNum): Range
  {
    match end
    case MinEnd => Range(Min(v, r.hi), Max(v, r.hi))
    case MaxEnd => Range(Min(r.lo, v), Max(r.lo, v))
  }

  /**
   * With the other end a number, the new range is ordered and holds exactly the new value and that
   * end; the new value may land at either end, and a minimum typed above the maximum becomes the
   * maximum.
   */
  lemma LivingRangeSpec(r: Range, end: End, v: JsNum)
    requires v != NaN
    ensures var other := if end == MinEnd then r.hi else r.lo;
            var c := LivingRange(r, end, v);
            other != NaN ==>
              Le(c.lo, c.hi) && ((c.lo == v && c.hi == other) || (c.lo == other && c.hi == v))
    ensures end == MinEnd && r.hi != NaN && Lt(r.hi, v) ==> LivingRange(r, end, v) == Range(r.hi, v)
  {
    if r.hi != NaN {
      LtTotal(v, r.hi);
    }
    if r.lo != NaN {
      LtTotal(v, r.lo);
    }
  }

  /** `handlePricePerSqmChange`'s updater. */
  function PricePerSqmChanged(prev: Filters, end: End, selected: string): Filters
  {
    prev.(pricePerSqmRange := CorrectedRange(prev.pricePerSqmRange, end, FromDropdownValue(selected)))
  }

  /** `handleLivingSpaceChange`'s updater. */
  function LivingSpaceChanged(prev: Filters, end: End, text: string): Filters
  {
    prev.(livingSpaceRange := LivingRange(prev.livingSpaceRange, end, NumberOrZero(text)))
  }

  /** The rooms dropdown value: `"NoMax"` is unbounded, anything else is `Number(selected)`, NaN included. */
  function RoomValue(selected: string): JsNum
  {
    if selected == NoMaxRooms then PosInf else StringToNumber(selected)
  }

  /** `handleRoomsChange`'s updater. */
  function RoomsChanged(prev: Filters, end: End, selected: string): Filters
  {
    prev.(roomsRange := CorrectedRange(prev.roomsRange, end, RoomValue(selected)))
  }

  /** The property-type select's updater. */
  function PropertyTypeChanged(prev: Filters, value: string): Filters
  {
    prev.(propertyType := value)
  }

  /**
   * Each updater changes its own field and nothing else: putting that one field back gives the
   * previous settings.
   */
  lemma UpdatersTouchOneField(prev: Filters, end: End, text: string)
    ensures BasicPriceApplied(prev, text, text).(priceRange := prev.priceRange) == prev
    ensures PricePerSqmChanged(prev, end, text).(pricePerSqmRange := prev.pricePerSqmRange) == prev
    ensures LivingSpaceChanged(prev, end, text).(livingSpaceRange := prev.livingSpaceRange) == prev
    ensures RoomsChanged(prev, end, text).(roomsRange := prev.roomsRange) == prev
    ensures PropertyTypeChanged(prev, text).(propertyType := prev.propertyType) == prev
  {
  }

  /**
   * The price-per-m² edits keep an ordered range ordered, and the edited end shows the chosen value.
   */
  lemma PricePerSqmKeepsOrder(prev: Filters, end: End, selected: string)
    requires var r := prev.pricePerSqmRange; r.lo != NaN && r.hi != NaN && Le(r.lo, r.hi)
    ensures var c := PricePerSqmChanged(prev, end, selected).pricePerSqmRange;
            Le(c.lo, c.hi) && (if end == MinEnd then c.lo else c.hi) == FromDropdownValue(selected)
  {
    CorrectedRangeKeepsOrder(prev.pricePerSqmRange, end, FromDropdownValue(selected));
    CorrectedRangeSpec(prev.pricePerSqmRange, end, FromDropdownValue(selected));
  }

  /**
   * A rooms text that is not a number makes a NaN bound: a NaN minimum leaves the rooms test to the
   * maximum alone, because every comparison with NaN is false.
   */
  lemma NaNRoomsMinimumIgnored(prev: Filters, selected: string, x: JsNum)
    requires selected != NoMaxRooms && StringToNumber(selected) == NaN
    ensures var r := RoomsChanged(prev, MinEnd, selected).roomsRange;
            r.lo == NaN && r.hi == prev.roomsRange.hi && (Within(x, r) <==> !Lt(r.hi, x))
  {
  }

  /** Where `setFilters` sends an update: to the filter context, to the parent page, or nowhere. */
  datatype Target = Context(u: Update) | Parent(u: Update) | Dropped

  /**
   * `setFilters`: outside comparison mode the context's setter; in comparison mode the parent's
   * handler, given an updater that applies a function update to the previous settings and returns
   * anything else as it is; nothing when the parent gave no handler.
   */
  function SetFilters(isComparison: bool, hasHandler: bool, u: Update): Target
  {
    if !isComparison then Context(u)
    else if hasHandler then Parent(Via(prev => Applied(u, prev)))
    else Dropped
  }

  /**
   * In comparison mode no update reaches the filter context; the parent's updater has the same
   * effect as the panel's own update on every previous value, and the page stores that effect in
   * the set being edited and in no other.
   */
  lemma ComparisonRouting(hasHandler: bool, u: Update, sets: seq<AnalyticsPage.ComparisonSet>, index: int)
    ensures !SetFilters(true, hasHandler, u).Context?
    ensures hasHandler <==> SetFilters(true, hasHandler, u).Parent?
    ensures hasHandler ==> forall prev :: Applied(SetFilters(true, hasHandler, u).u, prev) == Applied(u, prev)
    ensures hasHandler && 0 <= index < |sets| ==>
              AnalyticsPage.WithSetUpdated(sets, index, SetFilters(true, hasHandler, u).u)[index].filters
              == Applied(u, sets[index].filters)
    ensures hasHandler ==> forall i :: 0 <= i < |sets| && i != index ==>
              AnalyticsPage.WithSetUpdated(sets, index, SetFilters(true, hasHandler, u).u)[i] == sets[i]
  {
    if hasHandler {
      AnalyticsPage.UpdatedSpec(sets, index, SetFilters(true, hasHandler, u).u);
    }
  }

  /** Outside comparison mode the update goes to the context unchanged. */
  lemma ContextRouting(hasHandler: bool, u: Update)
    ensures SetFilters(false, hasHandler, u) == Context(u)
  {
  }

  /** The panel's local state. */
  class FilterPanel {
    var showAdvanced: bool
    var basicPriceMin: string
    var basicPriceMax: string

    /** The two price texts are not crossed: the maximum's value is not below the minimum's. */
    predicate Coupled()
      reads this
    {
      !Lt(StringToNumber(basicPriceMax), StringToNumber(basicPriceMin))
    }

    /** The panel starts collapsed, with the texts of the data's price bounds. */
    constructor(priceMin: JsNum, priceMax: JsNum)
      ensures !showAdvanced
      ensures basicPriceMin == NumberText(priceMin) && basicPriceMax == NumberText(priceMax)
    {
      showAdvanced := false;
      basicPriceMin := NumberText(priceMin);
      basicPriceMax := NumberText(priceMax);
    }

    method ToggleAdvanced()
      modifies this
      ensures showAdvanced == !old(showAdvanced)
      ensures basicPriceMin == old(basicPriceMin) && basicPriceMax == old(basicPriceMax)
    {
      showAdvanced := !showAdvanced;
    }

    /** Typing a minimum above the maximum raises the maximum's text with it. */
    method MinInput(val: string)
      modifies this
      ensures basicPriceMin == val && showAdvanced == old(showAdvanced)
      ensures basicPriceMax == if Lt(StringToNumber(old(basicPriceMax)), StringToNumber(val)) then val else old(basicPriceMax)
      ensures Coupled()
    {
      var oldMax := basicPriceMax;
      basicPriceMin := val;
      if Lt(StringToNumber(oldMax), StringToNumber(val)) {
        basicPriceMax := val;
        LtIrreflexive(StringToNumber(val));
      }
    }

    /** Typing a maximum below the minimum lowers the minimum's text with it. */
    method MaxInput(val: string)
      modifies this
      ensures basicPriceMax == val && showAdvanced == old(showAdvanced)
      ensures basicPriceMin == if Lt(StringToNumber(val), StringToNumber(old(basicPriceMin))) then val else old(basicPriceMin)
      ensures Coupled()
    {
      var oldMin := basicPriceMin;
      basicPriceMax := val;
      if Lt(StringToNumber(val), StringToNumber(oldMin)) {
        basicPriceMin := val;
        LtIrreflexive(StringToNumber(val));
      }
    }

    /**
     * Apply: the settings with only the price range replaced, ordered and free of NaN, by the two
     * values the texts hold.
     */
    method Apply(prev: Filters) returns (next: Filters)
      ensures next.(priceRange := prev.priceRange) == prev
      ensures var a := NumberOrZero(basicPriceMin); var b := NumberOrZero(basicPriceMax);
              Le(next.priceRange.lo, next.priceRange.hi)
              && ((next.priceRange.lo == a && next.priceRange.hi == b) || (next.priceRange.lo == b && next.priceRange.hi == a))
    {
      BasicPriceRangeSpec(basicPriceMin, basicPriceMax);
      next := BasicPriceApplied(prev, basicPriceMin, basicPriceMax);
    }
  }
}
