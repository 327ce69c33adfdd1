/**
 * The listing record and the filter settings of the front end, and the rules its listing filters
 * share: the inclusive range test, the status flags and the date window. The Haversine distance and
 * the date parser (`new Date(x)` as a time value, NaN for an invalid date) are parameters.
 */
module FilterRules {
  import opened Wrappers
  import opened JsValues

  /**
   * A listing row, field by field as the components read it from the CSV: `Preis_cleaned`,
   * `Preis_pro_qm`, `Wohnfläche`, `Grundstücksfläche`, `Zimmer`, `Latitude`, `Longitude`,
   * `created_date`, `closed_date`, `Beschreibung`, `Features`, `Adresse`, `Link`, `Vorschaubild`
   * and `Images`. A field the row lacks is `undefined`.
   */
  datatype Property = Property(
    price: JsValue, pricePerSqm: JsValue, livingSpace: JsValue, plotSize: JsValue, rooms: JsValue,
    latitude: JsValue, longitude: JsValue, created: JsValue, closed: JsValue,
    description: JsValue, features: JsValue, address: JsValue, link: JsValue,
    preview: JsValue, images: JsValue)

  /** A `[min, max]` pair of the filter settings. */
  datatype Range = Range(lo: JsNum, hi: JsNum)

  datatype MapLocation = MapLocation(lat: JsNum, lng: JsNum, radiusKm: JsNum)

  /** The date window: each end is a date text or `null`. */
  datatype DateRange = DateRange(start: Option<string>, end: Option<string>)

  datatype ListingStatus = ListingStatus(active: bool, closed: bool)

  /** The filter settings of the filter context, one per comparison set. */
  datatype Filters = Filters(
    propertyType: string, priceRange: Range, pricePerSqmRange: Range, livingSpaceRange: Range,
    plotSizeRange: Range, roomsRange: Range, mapLocation: Option<MapLocation>,
    dateRange: DateRange, listingStatus: ListingStatus)

  /** A `setFilters` argument: a new settings object, or an updater applied to the previous settings. */
  datatype Update = SetTo(filters: Filters) | Via(fn: Filters -> Filters)

  /** The settings an update leaves behind, given the settings before it. */
  function Applied(u: Update, prev: Filters): Filters
  {
    match u
    case SetTo(f) => f
    case Via(g) => g(prev)
  }

  /** What the filters call but this model does not define: the distance in km and `new Date(x)`. */
  datatype Env = Env(distance: (JsNum, JsNum, JsValue, JsValue) -> JsNum, time: JsValue -> JsNum)

  /** The property-type test: `'all'`, or a description that starts with the selected type. */
  predicate TypeOk(f: Filters, p: Property)
  {
    f.propertyType == "all" || (p.description.Text? && f.propertyType <= p.description.s)
  }

  /** `!(x < lo || x > hi)`: the range test as the filters write it. */
  predicate Within(x: JsNum, r: Range)
  {
    !(Lt(x, r.lo) || Lt(r.hi, x))
  }

  /** `!(v && (v < lo || v > hi))`: the range test applied only to a truthy value. */
  predicate WithinIfSet(v: JsValue, r: Range)
  {
    !Truthy(v) || Within(ToNumber(v), r)
  }

  /** The radius test, applied only with a map location and a listing with truthy coordinates. */
  predicate GeoOk(env: Env, f: Filters, p: Property)
  {
    !(f.mapLocation.Some? && Truthy(p.latitude) && Truthy(p.longitude))
    || !Lt(f.mapLocation.value.radiusKm, env.distance(f.mapLocation.value.lat, f.mapLocation.value.lng, p.latitude, p.longitude))
  }

  predicate HasClosedDate(p: Property)
  {
    Truthy(p.closed)
  }

  /** The three status exclusions: no flag, an active listing without `active`, a closed one without `closed`. */
  predicate StatusOk(s: ListingStatus, hasClosedDate: bool)
  {
    !(!s.active && !s.closed) && !(!s.active && !hasClosedDate) && !(!s.closed && hasClosedDate)
  }

  /** A truthy end of the date window. */
  predicate IsSet(d: Option<string>)
  {
    d.Some? && d.value != ""
  }

  predicate WindowSet(dr: DateRange)
  {
    IsSet(dr.start) || IsSet(dr.end)
  }

  /** `!(start && t < new Date(start))`. */
  predicate NotBefore(env: Env, dr: DateRange, t: JsNum)
  {
    !(IsSet(dr.start) && Lt(t, env.time(Text(dr.start.value))))
  }

  /** `!(end && t > new Date(end))`. */
  predicate NotAfter(env: Env, dr: DateRange, t: JsNum)
  {
    !(IsSet(dr.end) && Lt(env.time(Text(dr.end.value)), t))
  }

  predicate InWindow(env: Env, dr: DateRange, t: JsNum)
  {
    NotBefore(env, dr, t) && NotAfter(env, dr, t)
  }

  /** The date a listing is placed by: its closing date when it has one, else its creation date. */
  function ListingDate(env: Env, p: Property): JsNum
  {
    env.time(if HasClosedDate(p) then p.closed else p.created)
  }

  /**
   * The date window chosen by status flags: with both flags the closing date if present, else the
   * creation date; with `closed` alone a closed listing's closing date; with `active` alone an
   * active listing's creation date; no test in any other case.
   */
  predicate DateByStatus(env: Env, f: Filters, p: Property)
  {
    var dr := f.dateRange;
    var s := f.listingStatus;
    !WindowSet(dr) ||
    (if s.active && s.closed then
       InWindow(env, dr, if HasClosedDate(p) then env.time(p.closed) else env.time(p.created))
     else if s.closed && HasClosedDate(p) then InWindow(env, dr, env.time(p.closed))
     else if s.active && !HasClosedDate(p) then InWindow(env, dr, env.time(p.created))
     else true)
  }

  /** The date window on the listing's single date, whatever flags are selected. */
  predicate DateOfListing(env: Env, f: Filters, p: Property)
  {
    !WindowSet(f.dateRange) || InWindow(env, f.dateRange, ListingDate(env, p))
  }

  /** A listing passes the status rules exactly when its own status (closed or active) is selected. */
  lemma StatusOkMeans(s: ListingStatus, hasClosedDate: bool)
    ensures StatusOk(s, hasClosedDate) <==> (if hasClosedDate then s.closed else s.active)
    ensures !s.active && !s.closed ==> !StatusOk(s, hasClosedDate)
  {
  }

  /**
   * Once the status rules pass, the status-dependent date window and the single-date window agree:
   * the two date rules differ only on listings the status rules already exclude.
   */
  lemma DateRulesAgree(env: Env, f: Filters, p: Property)
    requires StatusOk(f.listingStatus, HasClosedDate(p))
    ensures DateByStatus(env, f, p) <==> DateOfListing(env, f, p)
  {
  }

  /** The status-dependent rule does differ from the single-date rule when the status rules fail. */
  lemma DateRulesDiffer(env: Env, f: Filters, p: Property)
    requires f.listingStatus == ListingStatus(true, false) && HasClosedDate(p)
    requires WindowSet(f.dateRange) && !InWindow(env, f.dateRange, ListingDate(env, p))
    ensures DateByStatus(env, f, p) && !DateOfListing(env, f, p)
  {
  }

  /**
   * The range test admits exactly the values between its bounds, both included, when neither the
   * value nor a bound is NaN; a NaN value passes every range.
   */
  lemma WithinMeans(x: JsNum, r: Range)
    ensures x != NaN && r.lo != NaN && r.hi != NaN ==> (Within(x, r) <==> Le(r.lo, x) && Le(x, r.hi))
    ensures x == NaN ==> Within(x, r)
  {
  }

  /** An open window admits every date and a window with valid ends admits exactly the dates between them. */
  lemma InWindowMeans(env: Env, dr: DateRange, t: JsNum)
    ensures !WindowSet(dr) ==> InWindow(env, dr, t)
    ensures t != NaN && IsSet(dr.start) && env.time(Text(dr.start.value)) != NaN
            ==> (NotBefore(env, dr, t) <==> Le(env.time(Text(dr.start.value)), t))
    ensures t != NaN && IsSet(dr.end) && env.time(Text(dr.end.value)) != NaN
            ==> (NotAfter(env, dr, t) <==> Le(t, env.time(Text(dr.end.value))))
    ensures t == NaN ==> InWindow(env, dr, t)
  {
  }
}
