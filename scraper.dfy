/**
 * The scraper's control flow: the retrying request, the walk over the search result pages and the
 * reading of a detail page.
 *
 * The network is a parameter: `net(url, n, k)` is what the server answers to attempt `k` of the
 * `n`-th request the scraper makes for `url` (a body, or a failed request). Sleeping is recorded as
 * the list of waits, in seconds, instead of being performed.
 */
module Scraper {
  import opened Wrappers
  import opened Strings
  import opened Urls
  import opened Seqs
  import opened ScraperPages

  /** The server's answer to one attempt: the response text, or a request exception (including an error status). */
  datatype Response = Body(text: string) | Failure

  type Network = (string, nat, nat) -> Response

  /** How often a request is tried. */
  const RetryAttempts: nat := 3

  /** The outcome of `_make_request`: the body, if any attempt got one, and the waits, in order, in units of the delay. */
  datatype Fetch = Fetch(body: Option<string>, waits: seq<nat>)

  /** `_make_request` from attempt `k` on: wait, try; on a failure wait longer and retry, unless it was the last attempt. */
  function RequestFrom(net: Network, url: string, n: nat, retries: nat, k: nat): Fetch
    decreases if k < retries then retries - k else 0
  {
    if k >= retries then Fetch(None, [])
    else
      match net(url, n, k)
      case Body(t) => Fetch(Some(t), [1])
      case Failure =>
        if k < retries - 1 then
          var rest := RequestFrom(net, url, n, retries, k + 1);
          Fetch(rest.body, [1, k + 1] + rest.waits)
        else Fetch(None, [1])
  }

  /** `_make_request(url, retries, delay)` as the `n`-th request of a run. */
  function Request(net: Network, url: string, n: nat, retries: nat): Fetch
  {
    RequestFrom(net, url, n, retries, 0)
  }

  /** The waits of a request from attempt `k` on: one delay before each attempt and `m + 1` delays after the failed attempt `m`. */
  predicate RetryWaits(waits: seq<nat>, k: nat)
  {
    forall i :: 0 <= i < |waits| ==> waits[i] == if i % 2 == 0 then 1 else k + i / 2 + 1
  }

  /** `_make_request`: tries the request up to `retries` times and returns the first body. */
  method MakeRequest(net: Network, url: string, n: nat, retries: nat)
    returns (body: Option<string>, waits: seq<nat>)
    ensures Fetch(body, waits) == Request(net, url, n, retries)
  {
    var attempt := 0;
    waits := [];
    while attempt < retries
      invariant attempt <= retries
      invariant Request(net, url, n, retries) ==
                Fetch(RequestFrom(net, url, n, retries, attempt).body,
                      waits + RequestFrom(net, url, n, retries, attempt).waits)
      decreases retries - attempt
    {
      ghost var prior := waits;
      waits := waits + [1];
      match net(url, n, attempt)
      case Body(t) =>
        assert RequestFrom(net, url, n, retries, attempt) == Fetch(Some(t), [1]);
        return Some(t), waits;
      case Failure =>
        if attempt < retries - 1 {
          RetryStep(net, url, n, retries, attempt, prior);
          waits := waits + [attempt + 1];
        } else {
          assert RequestFrom(net, url, n, retries, attempt) == Fetch(None, [1]);
          return None, waits;
        }
      attempt := attempt + 1;
    }
    assert waits + [] == waits;
    return None, waits;
  }

  /** A failed attempt that is not the last one adds its two waits and leaves the rest to the next attempt. */
  lemma RetryStep(net: Network, url: string, n: nat, retries: nat, k: nat, prior: seq<nat>)
    requires k < retries - 1 && net(url, n, k).Failure?
    ensures Fetch(RequestFrom(net, url, n, retries, k).body, prior + RequestFrom(net, url, n, retries, k).waits)
         == Fetch(RequestFrom(net, url, n, retries, k + 1).body,
                  prior + [1] + [k + 1] + RequestFrom(net, url, n, retries, k + 1).waits)
  {
    var rest := RequestFrom(net, url, n, retries, k + 1);
    assert prior + ([1, k + 1] + rest.waits) == prior + [1] + [k + 1] + rest.waits;
  }

  /** A request that gets a body tries until the first answer with a body, waiting as the retry schedule says. */
  lemma {:induction false} RequestFound(net: Network, url: string, n: nat, retries: nat, k: nat, j: nat)
    requires k <= j < retries && net(url, n, j).Body?
    requires forall i :: k <= i < j ==> net(url, n, i).Failure?
    ensures var f := RequestFrom(net, url, n, retries, k);
            f.body == Some(net(url, n, j).text) && |f.waits| == 2 * (j - k) + 1 && RetryWaits(f.waits, k)
    decreases j - k
  {
    if k < j {
      RequestFound(net, url, n, retries, k + 1, j);
      RetryWaitsStep(RequestFrom(net, url, n, retries, k + 1).waits, k);
    }
  }

  /** A request whose every attempt fails gives no body, after `2 * retries - 1` waits. */
  lemma {:induction false} RequestExhausted(net: Network, url: string, n: nat, retries: nat, k: nat)
    requires forall i :: k <= i < retries ==> net(url, n, i).Failure?
    ensures var f := RequestFrom(net, url, n, retries, k);
            f.body.None? && |f.waits| == (if k < retries then 2 * (retries - k) - 1 else 0) && RetryWaits(f.waits, k)
    decreases if k < retries then retries - k else 0
  {
    if k < retries - 1 {
      RequestExhausted(net, url, n, retries, k + 1);
      RetryWaitsStep(RequestFrom(net, url, n, retries, k + 1).waits, k);
    }
  }

  /** A body is only ever the answer of an attempt, and every earlier attempt failed. */
  lemma {:induction false} RequestBodyFromAnswer(net: Network, url: string, n: nat, retries: nat, k: nat)
    requires RequestFrom(net, url, n, retries, k).body.Some?
    ensures exists j :: k <= j < retries && net(url, n, j) == Body(RequestFrom(net, url, n, retries, k).body.value)
                        && forall i :: k <= i < j ==> net(url, n, i).Failure?
    decreases if k < retries then retries - k else 0
  {
    if net(url, n, k).Failure? {
      RequestBodyFromAnswer(net, url, n, retries, k + 1);
      var j :| k + 1 <= j < retries && net(url, n, j) == Body(RequestFrom(net, url, n, retries, k + 1).body.value)
               && forall i :: k + 1 <= i < j ==> net(url, n, i).Failure?;
      assert forall i :: k <= i < j ==> net(url, n, i).Failure?;
    } else {
      assert net(url, n, k) == Body(RequestFrom(net, url, n, retries, k).body.value);
    }
  }

  lemma RetryWaitsStep(w: seq<nat>, k: nat)
    requires RetryWaits(w, k + 1)
    ensures RetryWaits([1, k + 1] + w, k)
  {
    var v := [1, k + 1] + w;
    forall i | 0 <= i < |v|
      ensures v[i] == if i % 2 == 0 then 1 else k + i / 2 + 1
    {
      if i >= 2 {
        assert v[i] == w[i - 2];
        assert (i - 2) % 2 == i % 2 && (i - 2) / 2 + 1 == i / 2;
      }
    }
  }

  /** The address of result page `page`: the search address itself for the first page. */
  function PageUrl(base: string, page: nat): string
  {
    if page > 1 then base + "&page=" + NatToString(page) else base
  }

  /** Different pages of one search are fetched from different addresses. */
  lemma PageUrlsDistinct(base: string, p: nat, q: nat)
    requires 1 <= p < q
    ensures PageUrl(base, p) != PageUrl(base, q)
  {
    var pre := base + "&page=";
    if p == 1 {
      assert |PageUrl(base, q)| > |base|;
    } else {
      assert DigitsValue(NatToString(p)) != DigitsValue(NatToString(q));
      assert PageUrl(base, p)[|pre|..] == NatToString(p);
      assert PageUrl(base, q)[|pre|..] == NatToString(q);
    }
  }

  /** `if not html`: the request got a body and it is not empty. */
  predicate Fetched(body: Option<string>)
  {
    body.Some? && body.value != ""
  }

  /** `base_url or Config.BASE_URL`. */
  function SearchBase(arg: Option<string>, configured: string): string
  {
    if arg.Some? && arg.value != "" then arg.value else configured
  }

  /** The records of result page `page`, fetched as the `page`-th request; none when the request fails. */
  function PageListings(net: Network, parse: string -> SearchPage, base: string, page: nat): seq<Listing>
  {
    var f := Request(net, PageUrl(base, page), page, RetryAttempts);
    if Fetched(f.body) then ListingsOfPage(f.body.value, parse) else []
  }

  /** The records of each result page of a search. */
  function SearchPages(net: Network, parse: string -> SearchPage, base: string): nat -> seq<Listing>
  {
    (p: nat) => PageListings(net, parse, base, p)
  }

  /** The loop of `scrape_all_listings` from `page` on: it stops after the last page or at the first page that yields nothing. */
  function Walk(pages: nat -> seq<Listing>, page: nat, total: int): seq<Listing>
    decreases total - page + 1
  {
    if page > total then []
    else if pages(page) == [] then []
    else pages(page) + Walk(pages, page + 1, total)
  }

  /** `scrape_all_listings`: the first request reads the page count, then the pages are walked from 1. */
  function Scrape(net: Network, parse: string -> SearchPage, base: string): seq<Listing>
  {
    var first := Request(net, base, 0, RetryAttempts);
    if !Fetched(first.body) then []
    else Walk(SearchPages(net, parse, base), 1, GetTotalPages(parse(first.body.value)))
  }

  /** `scrape_all_listings(base_url)`. */
  method ScrapeAllListings(net: Network, parse: string -> SearchPage, arg: Option<string>, configured: string)
    returns (all: seq<Listing>)
    ensures all == Scrape(net, parse, SearchBase(arg, configured))
  {
    var base := if arg.Some? && arg.value != "" then arg.value else configured;
    var html, _ := MakeRequest(net, base, 0, RetryAttempts);
    if html.None? || html.value == "" {
      return [];
    }
    var total := GetTotalPages(parse(html.value));
    all := WalkPages(net, parse, base, total);
  }

  /** The page loop of `scrape_all_listings`, from page 1 to `total`. */
  method WalkPages(net: Network, parse: string -> SearchPage, base: string, total: int) returns (all: seq<Listing>)
    ensures all == Walk(SearchPages(net, parse, base), 1, total)
  {
    all := [];
    var page: nat := 1;
    ghost var pages := SearchPages(net, parse, base);
    while page <= total
      invariant Walk(pages, 1, total) == all + Walk(pages, page, total)
      decreases total - page + 1
    {
      var pageListings := ReadPage(net, parse, base, page);
      SearchPagesAt(net, parse, base, page);
      WalkStep(pages, page, total);
      if pageListings == [] {
        assert all + [] == all;
        break;
      }
      assert all + (pageListings + Walk(pages, page + 1, total)) == all + pageListings + Walk(pages, page + 1, total);
      all := all + pageListings;
      page := page + 1;
    }
  }

  /** The records of result page `page` of a search. */
  lemma SearchPagesAt(net: Network, parse: string -> SearchPage, base: string, page: nat)
    ensures SearchPages(net, parse, base)(page) == PageListings(net, parse, base, page)
  {
  }

  /** One page of the walk: nothing when it yields nothing, else its records and the walk from the next page. */
  lemma WalkStep(pages: nat -> seq<Listing>, page: nat, total: int)
    requires page <= total
    ensures Walk(pages, page, total) == if pages(page) == [] then [] else pages(page) + Walk(pages, page + 1, total)
  {
  }

  /** One turn of the loop of `scrape_all_listings`: fetch result page `page` and read its records; none when the fetch fails. */
  method ReadPage(net: Network, parse: string -> SearchPage, base: string, page: nat) returns (listings: seq<Listing>)
    ensures listings == PageListings(net, parse, base, page)
  {
    var url := if page > 1 then base + "&page=" + NatToString(page) else base;
    var html, _ := MakeRequest(net, url, page, RetryAttempts);
    if html.None? || html.value == "" {
      return [];
    }
    listings := GetListingsFromPage(html.value, parse);
  }

  /** The records of pages `page` to `q - 1`, in page order. */
  function PagesFrom(pages: nat -> seq<Listing>, page: nat, q: nat): seq<Listing>
    decreases q - page
  {
    if page >= q then [] else pages(page) + PagesFrom(pages, page + 1, q)
  }

  /**
   * The walk collects every page up to the first one that is past the count or yields nothing,
   * and nothing after it.
   */
  lemma {:induction false} WalkStops(pages: nat -> seq<Listing>, page: nat, total: int, q: nat)
    requires page <= q
    requires page < q ==> q - 1 <= total
    requires forall p: nat :: page <= p < q ==> pages(p) != []
    requires q > total || pages(q) == []
    ensures Walk(pages, page, total) == PagesFrom(pages, page, q)
    decreases q - page
  {
    if page < q {
      WalkStops(pages, page + 1, total, q);
    }
  }

  /** Every record of the walk comes from one of the pages it visited. */
  lemma {:induction false} WalkFromPages(pages: nat -> seq<Listing>, page: nat, total: int)
    ensures forall x :: x in Walk(pages, page, total) ==> exists p :: page <= p <= total && x in pages(p)
    decreases total - page + 1
  {
    if page <= total && pages(page) != [] {
      WalkFromPages(pages, page + 1, total);
    }
  }

  /**
   * A search whose first request fails yields no records; otherwise every record comes from one of
   * the pages 1 to the page count read from the first response.
   */
  lemma ScrapeSources(net: Network, parse: string -> SearchPage, base: string)
    ensures var first := Request(net, base, 0, RetryAttempts);
      && (!Fetched(first.body) ==> Scrape(net, parse, base) == [])
      && (Fetched(first.body) ==>
            forall x :: x in Scrape(net, parse, base) ==>
              exists p :: 1 <= p <= GetTotalPages(parse(first.body.value)) && x in PageListings(net, parse, base, p))
  {
    var first := Request(net, base, 0, RetryAttempts);
    if Fetched(first.body) {
      WalkFromPages(SearchPages(net, parse, base), 1, GetTotalPages(parse(first.body.value)));
    }
  }

  /** A detail page as the scraper reads it: the features section's entries, the pictures, the map button and the address text. */
  datatype DetailPage = DetailPage(features: Option<seq<FeatureItem>>, pictures: seq<Picture>,
                                   mapButton: Option<MapButton>, address: Option<string>)

  /** The record `get_detail_page_info` returns. */
  datatype DetailInfo = DetailInfo(features: seq<string>, fullAddress: string, coordinates: Option<LatLon>,
                                   imageUrls: seq<string>)

  /** The placeholder for a detail page without an address. */
  const NoAddress: string := "Keine Adresse gefunden"

  /** What a fetched detail page yields; raising when its coordinates do. */
  function DetailOfPage(page: DetailPage, decode: string -> Geometry,
                        centroid: seq<(real, real)> -> (real, real)): Outcome<DetailInfo>
  {
    match Coordinates(page.mapButton, decode, centroid)
    case Ok(position) =>
      var features := if page.features.Some? then FeatureTexts(page.features.value) else [];
      var address := if page.address.Some? then PyStrip(page.address.value) else NoAddress;
      Ok(DetailInfo(features, address, position, ExtractedImages(page.pictures)))
    case _ => Raised
  }

  /** `get_detail_page_info(url)` as the `n`-th request: nothing when the page cannot be fetched. */
  function DetailPageInfo(net: Network, url: string, n: nat, parse: string -> DetailPage, decode: string -> Geometry,
                          centroid: seq<(real, real)> -> (real, real)): Outcome<Option<DetailInfo>>
  {
    var f := Request(net, url, n, RetryAttempts);
    if !Fetched(f.body) then Ok(None)
    else
      match DetailOfPage(parse(f.body.value), decode, centroid)
      case Ok(d) => Ok(Some(d))
      case _ => Raised
  }

  /** `get_detail_page_info`: fetch, then features, images, coordinates and address. */
  method GetDetailPageInfo(net: Network, url: string, n: nat, parse: string -> DetailPage, decode: string -> Geometry,
                           centroid: seq<(real, real)> -> (real, real))
    returns (r: Outcome<Option<DetailInfo>>)
    ensures r == DetailPageInfo(net, url, n, parse, decode, centroid)
  {
    var html, _ := MakeRequest(net, url, n, RetryAttempts);
    if html.None? || html.value == "" {
      return Ok(None);
    }
    var page := parse(html.value);
    var features := CollectFeatures(page.features);
    var images := ExtractImages(page.pictures);
    var position := Coordinates(page.mapButton, decode, centroid);
    if !position.Ok? {
      return Raised;
    }
    var address := if page.address.Some? then PyStrip(page.address.value) else NoAddress;
    return Ok(Some(DetailInfo(features, address, position.value, images)));
  }

  /**
   * A fetched detail page: its images are cleaned addresses without repeats, its features are one
   * stripped text per entry when each entry has a `span`, and the address is the stripped text or the placeholder.
   */
  lemma DetailOfPageFacts(page: DetailPage, decode: string -> Geometry, centroid: seq<(real, real)> -> (real, real))
    requires DetailOfPage(page, decode, centroid).Ok?
    ensures var d := DetailOfPage(page, decode, centroid).value;
            && NoDup(d.imageUrls) && (forall i :: 0 <= i < |d.imageUrls| ==> IsCleaned(d.imageUrls[i]))
            && (page.features.None? ==> d.features == [])
            && (page.features.Some? && (forall k :: 0 <= k < |page.features.value| ==> page.features.value[k].span.Some?) ==>
                  |d.features| == |page.features.value|
                  && forall k :: 0 <= k < |d.features| ==> d.features[k] == PyStrip(page.features.value[k].span.value))
            && (page.address.None? ==> d.fullAddress == NoAddress)
            && (page.address.Some? ==> d.fullAddress == PyStrip(page.address.value))
            && d.coordinates == Coordinates(page.mapButton, decode, centroid).value
  {
    ExtractedImagesFacts(page.pictures);
    if page.features.Some? && forall k :: 0 <= k < |page.features.value| ==> page.features.value[k].span.Some? {
      FeatureTextsAll(page.features.value);
    }
  }

  /** A detail page that cannot be fetched, or whose body is empty, gives no record and raises nothing. */
  lemma DetailUnfetched(net: Network, url: string, n: nat, parse: string -> DetailPage, decode: string -> Geometry,
                        centroid: seq<(real, real)> -> (real, real))
    requires forall k :: 0 <= k < RetryAttempts ==> net(url, n, k).Failure?
    ensures DetailPageInfo(net, url, n, parse, decode, centroid) == Ok(None)
  {
    RequestExhausted(net, url, n, RetryAttempts, 0);
  }
}
