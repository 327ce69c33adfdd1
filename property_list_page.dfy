/**
 * The property list page: its own copy of the listing filter, applied to the rows the page receives,
 * and the listing card, which splits the `Images` text into gallery entries and marks closed
 * listings with a badge.
 */
module PropertyListPage {
  import opened Seqs
  import opened Strings
  import opened JsValues
  import opened FilterRules
  import opened DataUtils
  import AnalyticsPage
  import ImageGallery

  /**
   * The page's filter: every range checked on every row (a missing value compares as NaN and
   * passes), no plot-size test, the status rules, and the date window on the listing's single date.
   */
  predicate Matches(env: Env, f: Filters, p: Property)
  {
    TypeOk(f, p)
    && Within(ToNumber(p.price), f.priceRange)
    && Within(ToNumber(p.pricePerSqm), f.pricePerSqmRange)
    && Within(ToNumber(p.livingSpace), f.livingSpaceRange)
    && Within(ToNumber(p.rooms), f.roomsRange)
    && GeoOk(env, f, p)
    && StatusOk(f.listingStatus, HasClosedDate(p))
    && DateOfListing(env, f, p)
  }

  function FilteredData(env: Env, f: Filters, data: seq<Property>): seq<Property>
  {
    Filter(data, (p: Property) => Matches(env, f, p))
  }

  /** The page shows, in their order, exactly the rows that match. */
  lemma FilteredDataSpec(env: Env, f: Filters, data: seq<Property>)
    ensures IsSubsequence(FilteredData(env, f, data), data)
    ensures forall i :: 0 <= i < |FilteredData(env, f, data)| ==>
              Matches(env, f, FilteredData(env, f, data)[i]) && FilteredData(env, f, data)[i] in data
    ensures forall i :: 0 <= i < |data| && Matches(env, f, data[i]) ==> data[i] in FilteredData(env, f, data)
  {
    FilterIsSubsequence(data, (p: Property) => Matches(env, f, p));
    FilterElements(data, (p: Property) => Matches(env, f, p));
  }

  /**
   * Although the page tests the date window on the single date while the analytics page chooses the
   * date by the status flags, the two filters admit exactly the same rows.
   */
  lemma AgreesWithAnalyticsPage(env: Env, f: Filters, p: Property)
    ensures Matches(env, f, p) <==> AnalyticsPage.Matches(env, f, p)
  {
    if StatusOk(f.listingStatus, HasClosedDate(p)) {
      DateRulesAgree(env, f, p);
    }
  }

  /** Given the sanitized rows, the page lists exactly the analytics page's filtered data. */
  lemma SameRowsAsAnalyticsPage(env: Env, f: Filters, data: seq<Property>)
    ensures FilteredData(env, f, Sanitize(data)) == AnalyticsPage.FilteredData(env, f, data)
  {
    forall i | 0 <= i < |Sanitize(data)|
      ensures Matches(env, f, Sanitize(data)[i]) == AnalyticsPage.Matches(env, f, Sanitize(data)[i])
    {
      AgreesWithAnalyticsPage(env, f, Sanitize(data)[i]);
    }
    FilterAgree(Sanitize(data), (p: Property) => Matches(env, f, p), (p: Property) => AnalyticsPage.Matches(env, f, p));
  }

  predicate NonEmpty(s: string)
  {
    s != ""
  }

  /**
   * The card's image list: a truthy `Images` text split at `;` with the empty pieces dropped, and no
   * image otherwise. Each entry is a non-empty piece without a `;`.
   */
  function CardImages(images: JsValue): (r: seq<string>)
    ensures forall k :: 0 <= k < |r| ==> r[k] != "" && ';' !in r[k]
    ensures !Truthy(images) ==> r == []
  {
    if Truthy(images) && images.Text? then
      var pieces := Split(images.s, ';');
      FilterElements(pieces, NonEmpty);
      Filter(pieces, NonEmpty)
    else []
  }

  /** Image entries joined with `;` come back unchanged from the card's split. */
  lemma CardImagesOfJoined(kept: seq<string>)
    requires forall k :: 0 <= k < |kept| ==> kept[k] != "" && ';' !in kept[k]
    ensures CardImages(Text(Join(kept, ';'))) == kept
  {
    if kept != [] {
      JoinStartsWithFirst(kept, ';');
      SplitJoin(kept, ';');
      FilterAll(kept, NonEmpty);
    }
  }

  lemma JoinStartsWithFirst(parts: seq<string>, c: char)
    requires parts != []
    ensures parts[0] <= Join(parts, c)
  {
  }

  /** The gallery is shown when the card has an image entry or a truthy preview. */
  predicate ShowsGallery(p: Property)
  {
    |CardImages(p.images)| > 0 || Truthy(p.preview)
  }

  /** A shown gallery always has a thumbnail to display. */
  lemma GalleryHasPicture(p: Property)
    requires ShowsGallery(p)
    ensures Truthy(ImageGallery.Thumbnail(CardImages(p.images), p.preview))
  {
  }

  /** The "Closed" badge. */
  predicate ShowsClosedBadge(p: Property)
  {
    Truthy(p.closed)
  }

  /**
   * The badge follows the status filter: with only `active` selected no shown card carries it, and
   * with only `closed` selected every shown card does.
   */
  lemma BadgeFollowsStatus(env: Env, f: Filters, data: seq<Property>)
    ensures f.listingStatus == ListingStatus(true, false) ==>
              forall i :: 0 <= i < |FilteredData(env, f, data)| ==> !ShowsClosedBadge(FilteredData(env, f, data)[i])
    ensures f.listingStatus == ListingStatus(false, true) ==>
              forall i :: 0 <= i < |FilteredData(env, f, data)| ==> ShowsClosedBadge(FilteredData(env, f, data)[i])
  {
    FilteredDataSpec(env, f, data);
    forall i | 0 <= i < |FilteredData(env, f, data)|
      ensures if HasClosedDate(FilteredData(env, f, data)[i]) then f.listingStatus.closed else f.listingStatus.active
    {
      StatusOkMeans(f.listingStatus, HasClosedDate(FilteredData(env, f, data)[i]));
    }
  }
}
