/**
 * What the scraper reads from a parsed page. The HTML parser is not modelled: a page is given as
 * the results of the lookups the scraper makes on it (`find`, `find_all`, attribute reads), each
 * absent when the element or the attribute is missing, and an element's text as a string.
 */
module ScraperPages {
  import opened Wrappers
  import opened Strings
  import opened Seqs
  import opened Regex
  import opened Parsers
  import opened Urls
  import UrlJoin

  /** An attribute value Python treats as true: present and not empty. */
  predicate Truthy(a: Option<string>)
  {
    a.Some? && a.value != ""
  }

  /** A `<source>` element and its `srcset` attribute. */
  datatype Source = Source(srcset: Option<string>)

  /** An `<img>` element and its `src` attribute. */
  datatype Img = Img(src: Option<string>)

  /** A `<picture>` element: its `<source>` elements in document order and its first `<img>`. */
  datatype Picture = Picture(sources: seq<Source>, img: Option<Img>)

  /** The covering link of a card and its `href` attribute. */
  datatype Anchor = Anchor(href: Option<string>)

  /** A listing card: the text of each element the scraper looks up, its covering link and its picture. */
  datatype Card = Card(price: Option<string>, description: Option<string>, details: Option<string>,
                       address: Option<string>, link: Option<Anchor>, picture: Option<Picture>)

  /** The record `extract_listing_data` returns for a card. */
  datatype Listing = Listing(link: string, price: string, description: string, details: string,
                             address: string, preview: Option<string>)

  /** The placeholder for a field the card does not show. */
  const NoInfo: string := "Keine Info"

  /** A looked-up element's stripped text, or the placeholder when the element is missing. */
  function FieldText(e: Option<string>): string
  {
    if e.Some? then PyStrip(e.value) else NoInfo
  }

  /**
   * The card's link: `href` cut at the first '?' and joined to the site, or the placeholder; none
   * when `urljoin` raises.
   */
  function CardLink(a: Option<Anchor>): Option<string>
  {
    if a.Some? && a.value.href.Some? then UrlJoin.JoinLink(a.value.href.value) else Some(NoInfo)
  }

  /** `srcset.split(",")[0].split()[0]`: the first address of a `srcset`; none (an `IndexError`) when that entry is blank. */
  function SrcsetHead(srcset: string): Option<string>
  {
    var w := FirstWord(Split(srcset, ',')[0]);
    if w == "" then None else Some(w)
  }

  /**
   * The card's preview image: from the first `<source>` when its `srcset` is set, else from the
   * `<img>` `src`. The outer `None` is the `IndexError` of a blank first `srcset` entry.
   */
  function PreviewImage(picture: Option<Picture>): Option<Option<string>>
  {
    if picture.None? then Some(None)
    else
      var p := picture.value;
      if p.sources != [] && Truthy(p.sources[0].srcset) then
        match SrcsetHead(p.sources[0].srcset.value)
        case None => None
        case Some(u) => Some(Some(u))
      else if p.img.Some? && Truthy(p.img.value.src) then Some(p.img.value.src)
      else Some(None)
  }

  /** `extract_listing_data`: the card's record, or `None` when reading it raised. */
  function ExtractListingData(card: Card): (r: Option<Listing>)
  {
    match (CardLink(card.link), PreviewImage(card.picture))
    case (Some(link), Some(preview)) =>
      Some(Listing(link, FieldText(card.price), FieldText(card.description),
                   FieldText(card.details), FieldText(card.address), preview))
    case _ => None
  }

  /**
   * Each text field of a card record is the element's stripped text, or the placeholder when that
   * element is missing, independently of the other fields; the link is the resolved `href` cut at
   * '?', and only a blank first `srcset` entry or an `href` that `urljoin` refuses makes the card fail.
   */
  lemma ListingFields(card: Card)
    ensures ExtractListingData(card).None? <==> PreviewImage(card.picture).None? || CardLink(card.link).None?
    ensures ExtractListingData(card).Some? ==>
              var l := ExtractListingData(card).value;
              && (card.price.None? ==> l.price == NoInfo) && (card.price.Some? ==> l.price == PyStrip(card.price.value))
              && (card.description.None? ==> l.description == NoInfo)
              && (card.description.Some? ==> l.description == PyStrip(card.description.value))
              && (card.details.None? ==> l.details == NoInfo) && (card.details.Some? ==> l.details == PyStrip(card.details.value))
              && (card.address.None? ==> l.address == NoInfo) && (card.address.Some? ==> l.address == PyStrip(card.address.value))
              && (card.link.Some? && card.link.value.href.Some? ==> Some(l.link) == UrlJoin.JoinLink(card.link.value.href.value))
              && (card.link.None? || card.link.value.href.None? ==> l.link == NoInfo)
              && '?' !in l.link
  {
    if card.link.Some? && card.link.value.href.Some? {
      UrlJoin.JoinLinkNoQuery(card.link.value.href.value);
    }
  }

  /** A card without a picture, or whose picture has no `<source>`, gives a record exactly when its link resolves. */
  lemma ListingWithoutSource(card: Card)
    requires card.picture.None? || card.picture.value.sources == []
    ensures ExtractListingData(card).Some? <==> CardLink(card.link).Some?
    ensures ExtractListingData(card).Some? && card.picture.Some? && card.picture.value.img.Some? && Truthy(card.picture.value.img.value.src) ==>
              ExtractListingData(card).value.preview == card.picture.value.img.value.src
  {
    assert PreviewImage(card.picture).Some?;
  }

  /** The records of the cards in order, leaving out the cards whose extraction raised. */
  function CardListings(cards: seq<Card>): (r: seq<Listing>)
    ensures |r| <= |cards|
  {
    if cards == [] then []
    else
      var last := ExtractListingData(cards[|cards| - 1]);
      CardListings(cards[..|cards| - 1]) + if last.Some? then [last.value] else []
  }

  /** Every record comes from one of the cards. */
  lemma {:induction false} CardListingsFromCards(cards: seq<Card>)
    ensures forall i :: 0 <= i < |CardListings(cards)| ==>
              exists k :: 0 <= k < |cards| && ExtractListingData(cards[k]) == Some(CardListings(cards)[i])
  {
    if cards != [] {
      var init := cards[..|cards| - 1];
      var r := CardListings(cards);
      CardListingsFromCards(init);
      forall i | 0 <= i < |r|
        ensures exists k :: 0 <= k < |cards| && ExtractListingData(cards[k]) == Some(r[i])
      {
        if i < |CardListings(init)| {
          var k :| 0 <= k < |init| && ExtractListingData(init[k]) == Some(CardListings(init)[i]);
          assert init[k] == cards[k];
        } else {
          assert ExtractListingData(cards[|cards| - 1]) == Some(r[i]);
        }
      }
      assert r == CardListings(cards);
    } else {
      assert CardListings(cards) == [];
    }
  }

  /** When no card raises, there is one record per card, in card order. */
  lemma {:induction false} CardListingsAll(cards: seq<Card>)
    requires forall k :: 0 <= k < |cards| ==> ExtractListingData(cards[k]).Some?
    ensures |CardListings(cards)| == |cards|
    ensures forall k :: 0 <= k < |cards| ==> CardListings(cards)[k] == ExtractListingData(cards[k]).value
  {
    if cards != [] {
      var init := cards[..|cards| - 1];
      CardListingsAll(init);
      var r := CardListings(cards);
      assert r == CardListings(init) + [ExtractListingData(cards[|cards| - 1]).value];
      forall k | 0 <= k < |cards|
        ensures r[k] == ExtractListingData(cards[k]).value
      {
        if k < |init| {
          assert init[k] == cards[k];
        }
      }
    }
  }

  /** The search page `get_listings_from_page` reads: an empty text gives no records. */
  function ListingsOfPage(html: string, parse: string -> SearchPage): seq<Listing>
  {
    if html == "" then [] else CardListings(parse(html).cards)
  }

  /** `get_listings_from_page`: the records of the page's cards, in order. */
  method GetListingsFromPage(html: string, parse: string -> SearchPage) returns (listings: seq<Listing>)
    ensures listings == ListingsOfPage(html, parse)
  {
    if html == "" {
      return [];
    }
    var cards := parse(html).cards;
    listings := [];
    for i := 0 to |cards|
      invariant listings == CardListings(cards[..i])
    {
      var data := ExtractListingData(cards[i]);
      CardListingsStep(cards, i);
      if data.Some? {
        listings := listings + [data.value];
      }
    }
    assert cards[..|cards|] == cards;
  }

  /** One more card adds its record, when it gives one, to the records of the cards before it. */
  lemma CardListingsStep(cards: seq<Card>, i: nat)
    requires i < |cards|
    ensures var data := ExtractListingData(cards[i]);
      CardListings(cards[..i + 1]) == CardListings(cards[..i]) + if data.Some? then [data.value] else []
  {
    var next := cards[..i + 1];
    assert next[..i] == cards[..i] && next[i] == cards[i];
  }

  /** A pagination button: its `aria-label` and its text. */
  datatype Button = Button(ariaLabel: Option<string>, text: string)

  /** A search result page: the pagination navigation's buttons, when there is one, and the listing cards. */
  datatype SearchPage = SearchPage(pagination: Option<seq<Button>>, cards: seq<Card>)

  /** A button whose `aria-label` is set and starts with "zu seite". */
  predicate PageButton(b: Button)
  {
    b.ariaLabel.Some? && "zu seite" <= b.ariaLabel.value
  }

  /** `int(t)` on a stripped text: an optional sign and decimal digits; none for anything else (a `ValueError`). */
  function PyInt(t: string): Option<int>
  {
    if t != [] && (t[0] == '+' || t[0] == '-') && t[1..] != [] && AllDigits(t[1..]) then
      var v: int := DigitsValue(t[1..]);
      Some(if t[0] == '-' then -v else v)
    else if t != [] && AllDigits(t) then Some(DigitsValue(t))
    else None
  }

  /** Reading back the printed form of an integer gives the integer. */
  lemma PyIntOfText(n: int)
    ensures PyInt(IntToString(n)) == Some(n)
  {
    if n < 0 {
      assert IntToString(n)[1..] == NatToString(-n);
    }
  }

  /**
   * `get_total_pages`: the number on the last "zu seite" button of the pagination navigation, and 1
   * when there is no navigation, no such button, or its text is not an integer.
   */
  function GetTotalPages(page: SearchPage): (n: int)
    ensures page.pagination.None? ==> n == 1
    ensures page.pagination.Some? && Filter(page.pagination.value, PageButton) == [] ==> n == 1
    ensures page.pagination.Some? && Filter(page.pagination.value, PageButton) != [] &&
            PyInt(PyStrip(Filter(page.pagination.value, PageButton)[|Filter(page.pagination.value, PageButton)| - 1].text)).None?
            ==> n == 1
  {
    match page.pagination
    case None => 1
    case Some(buttons) =>
      var pages := Filter(buttons, PageButton);
      if pages == [] then 1 else PyInt(PyStrip(pages[|pages| - 1].text)).GetOr(1)
  }

  /** A text with no white space at either end is its own strip. */
  lemma StripUnpadded(s: string)
    requires s != [] ==> !IsPySpace(s[0]) && !IsPySpace(s[|s| - 1])
    ensures PyStrip(s) == s
  {
    if s != [] {
      assert Span(s, IsPySpace) == 0;
      assert s[0..] == s;
      assert BackSpan(s, IsPySpace) == 0;
    }
  }

  /**
   * The page count is read from the last page button: when that button's text is the printed form
   * of `n`, blanks around it aside, the scraper walks `n` pages.
   */
  lemma TotalPagesOfLastButton(pre: seq<Button>, b: Button, post: seq<Button>, n: int)
    requires PageButton(b) && (forall k :: 0 <= k < |post| ==> !PageButton(post[k]))
    requires PyStrip(b.text) == IntToString(n)
    ensures GetTotalPages(SearchPage(Some(pre + [b] + post), [])) == n
  {
    FilterConcat(pre + [b], post, PageButton);
    FilterConcat(pre, [b], PageButton);
    FilterNone(post);
    assert Filter([b], PageButton) == [b] by {
      assert [b][1..] == [];
    }
    PyIntOfText(n);
  }

  /**
   * When the last page button's text is not an integer, `int()` raises `ValueError`, the handler
   * catches it, and the scraper walks a single page.
   */
  lemma TotalPagesOfNonInteger(pre: seq<Button>, b: Button, post: seq<Button>)
    requires PageButton(b) && (forall k :: 0 <= k < |post| ==> !PageButton(post[k]))
    requires PyInt(PyStrip(b.text)).None?
    ensures GetTotalPages(SearchPage(Some(pre + [b] + post), [])) == 1
  {
    FilterConcat(pre + [b], post, PageButton);
    FilterConcat(pre, [b], PageButton);
    FilterNone(post);
    assert Filter([b], PageButton) == [b] by {
      assert [b][1..] == [];
    }
  }

  lemma {:induction false} FilterNone(post: seq<Button>)
    requires forall k :: 0 <= k < |post| ==> !PageButton(post[k])
    ensures Filter(post, PageButton) == []
  {
    if post != [] {
      FilterNone(post[1..]);
    }
  }

  /** `url.strip().split()[0]` for every entry of a `srcset`: the first entry's address, none when any entry is blank. */
  function SrcsetFirst(srcset: string): Option<string>
  {
    var entries := Split(srcset, ',');
    if forall k :: 0 <= k < |entries| ==> FirstWord(entries[k]) != "" then Some(FirstWord(entries[0])) else None
  }

  /** A cleaned address, kept when it is not empty; none when cleaning raises. */
  function Kept(url: string): Option<seq<string>>
  {
    match CleanImageUrl(url)
    case None => None
    case Some(c) => Some(if c != "" then [c] else [])
  }

  /** The addresses the `<source>` elements contribute, in order; none when one of them raises. */
  function SourceUrls(sources: seq<Source>): Option<seq<string>>
  {
    if sources == [] then Some([])
    else
      var init := SourceUrls(sources[..|sources| - 1]);
      var s := sources[|sources| - 1];
      if init.None? then None
      else if !Truthy(s.srcset) then init
      else
        match SrcsetFirst(s.srcset.value)
        case None => None
        case Some(u) => if Kept(u).None? then None else Some(init.value + Kept(u).value)
  }

  /** The address the `<img>` fallback contributes; none when cleaning it raises. */
  function ImgUrl(img: Option<Img>): Option<seq<string>>
  {
    if img.Some? && Truthy(img.value.src) then Kept(img.value.src.value) else Some([])
  }

  /** The addresses of the pictures, in document order, before de-duplication; none when one raises. */
  function ImageCandidates(pictures: seq<Picture>): Option<seq<string>>
  {
    if pictures == [] then Some([])
    else
      var init := ImageCandidates(pictures[..|pictures| - 1]);
      var p := pictures[|pictures| - 1];
      var here := SourceUrls(p.sources);
      var fallback := ImgUrl(p.img);
      if init.None? || here.None? || fallback.None? then None else Some(init.value + here.value + fallback.value)
  }

  /** `extract_images`: the candidates without repeats, in first-occurrence order; empty when one raised. */
  function ExtractedImages(pictures: seq<Picture>): seq<string>
  {
    var c := ImageCandidates(pictures);
    if c.None? then [] else Dedupe(c.value)
  }

  /** Once a picture raises, the whole extraction raises. */
  lemma {:induction false} CandidatesRaise(pictures: seq<Picture>, i: nat)
    requires i <= |pictures| && ImageCandidates(pictures[..i]).None?
    ensures ImageCandidates(pictures).None?
    decreases |pictures| - i
  {
    if i < |pictures| {
      assert pictures[..i + 1][..i] == pictures[..i];
      CandidatesRaise(pictures, i + 1);
    } else {
      assert pictures[..i] == pictures;
    }
  }

  /** An `<img>` address that `urlparse` refuses makes the whole extraction raise, and the page gets no images. */
  lemma ImgRaiseEmpties(pictures: seq<Picture>, i: nat)
    requires i < |pictures| && pictures[i].img.Some? && Truthy(pictures[i].img.value.src)
    requires CleanImageUrl(pictures[i].img.value.src.value).None?
    ensures ExtractedImages(pictures) == []
  {
    ImgUrlRaises(pictures[i].img);
    PictureRaises(pictures, i);
  }

  lemma ImgUrlRaises(img: Option<Img>)
    requires img.Some? && Truthy(img.value.src) && CleanImageUrl(img.value.src.value).None?
    ensures ImgUrl(img).None?
  {
  }

  /** A picture whose `<img>` raises makes the whole extraction give no images. */
  lemma PictureRaises(pictures: seq<Picture>, i: nat)
    requires i < |pictures| && ImgUrl(pictures[i].img).None?
    ensures ExtractedImages(pictures) == []
  {
    var next := pictures[..i + 1];
    assert next[..i] == pictures[..i] && next[i] == pictures[i];
    assert ImageCandidates(next).None?;
    CandidatesRaise(pictures, i + 1);
  }

  /** Once a `<source>` raises, its picture raises. */
  lemma {:induction false} SourcesRaise(sources: seq<Source>, j: nat)
    requires j <= |sources| && SourceUrls(sources[..j]).None?
    ensures SourceUrls(sources).None?
    decreases |sources| - j
  {
    if j < |sources| {
      assert sources[..j + 1][..j] == sources[..j];
      SourcesRaise(sources, j + 1);
    } else {
      assert sources[..j] == sources;
    }
  }

  /** The inner loop of `extract_images`: the addresses of one picture's `<source>` elements; none when one raises. */
  method SourceImages(sources: seq<Source>) returns (urls: Option<seq<string>>)
    ensures urls == SourceUrls(sources)
  {
    var found := [];
    for j := 0 to |sources|
      invariant SourceUrls(sources[..j]) == Some(found)
    {
      var next := sources[..j + 1];
      assert next[..j] == sources[..j] && next[j] == sources[j];
      var srcset := sources[j].srcset;
      if Truthy(srcset) {
        var first := SrcsetFirst(srcset.value);
        if first.None? {
          SourcesRaise(sources, j + 1);
          return None;
        }
        var kept := Kept(first.value);
        if kept.None? {
          SourcesRaise(sources, j + 1);
          return None;
        }
        found := found + kept.value;
      } else {
        assert SourceUrls(next) == Some(found);
      }
    }
    assert sources[..|sources|] == sources;
    return Some(found);
  }

  /** `extract_images` over the page's pictures, appending as it goes and de-duplicating at the end. */
  method ExtractImages(pictures: seq<Picture>) returns (images: seq<string>)
    ensures images == ExtractedImages(pictures)
  {
    images := [];
    for i := 0 to |pictures|
      invariant ImageCandidates(pictures[..i]) == Some(images)
    {
      var next := pictures[..i + 1];
      assert next[..i] == pictures[..i] && next[i] == pictures[i];
      var urls := SourceImages(pictures[i].sources);
      if urls.None? {
        CandidatesRaise(pictures, i + 1);
        return [];
      }
      var fallback := ImgUrl(pictures[i].img);
      if fallback.None? {
        CandidatesRaise(pictures, i + 1);
        return [];
      }
      images := images + urls.value + fallback.value;
    }
    assert pictures[..|pictures|] == pictures;
    images := Dedupe(images);
  }

  /** An address `clean_image_url` can return, and not empty. */
  ghost predicate IsCleaned(x: string)
  {
    x != "" && exists u :: CleanImageUrl(u) == Some(x)
  }

  /** Every address of a list is a cleaned, non-empty one. */
  ghost predicate AllCleaned(s: seq<string>)
  {
    forall i :: 0 <= i < |s| ==> IsCleaned(s[i])
  }

  lemma AllCleanedAppend(a: seq<string>, b: seq<string>)
    requires AllCleaned(a) && AllCleaned(b)
    ensures AllCleaned(a + b)
  {
    forall i | 0 <= i < |a + b|
      ensures IsCleaned((a + b)[i])
    {
      if i >= |a| {
        assert (a + b)[i] == b[i - |a|];
      }
    }
  }

  lemma KeptCleaned(u: string)
    requires Kept(u).Some?
    ensures AllCleaned(Kept(u).value)
  {
  }

  lemma ImgUrlCleaned(img: Option<Img>)
    requires ImgUrl(img).Some?
    ensures AllCleaned(ImgUrl(img).value)
  {
    if img.Some? && Truthy(img.value.src) {
      KeptCleaned(img.value.src.value);
    }
  }

  /** Every candidate address is a cleaned, non-empty one. */
  lemma {:induction false} SourceUrlsCleaned(sources: seq<Source>)
    requires SourceUrls(sources).Some?
    ensures AllCleaned(SourceUrls(sources).value)
  {
    if sources != [] {
      var init := SourceUrls(sources[..|sources| - 1]);
      SourceUrlsCleaned(sources[..|sources| - 1]);
      var s := sources[|sources| - 1];
      if Truthy(s.srcset) {
        var u := SrcsetFirst(s.srcset.value).value;
        KeptCleaned(u);
        AllCleanedAppend(init.value, Kept(u).value);
      }
    }
  }

  lemma {:induction false} CandidatesCleaned(pictures: seq<Picture>)
    requires ImageCandidates(pictures).Some?
    ensures AllCleaned(ImageCandidates(pictures).value)
  {
    if pictures != [] {
      var init := ImageCandidates(pictures[..|pictures| - 1]).value;
      CandidatesCleaned(pictures[..|pictures| - 1]);
      var p := pictures[|pictures| - 1];
      SourceUrlsCleaned(p.sources);
      ImgUrlCleaned(p.img);
      AllCleanedAppend(init, SourceUrls(p.sources).value);
      AllCleanedAppend(init + SourceUrls(p.sources).value, ImgUrl(p.img).value);
    }
  }

  /**
   * The extracted images are cleaned, non-empty addresses without repeats; each candidate appears,
   * and they keep the order in which the candidates first occur.
   */
  lemma ExtractedImagesFacts(pictures: seq<Picture>)
    ensures NoDup(ExtractedImages(pictures))
    ensures forall i :: 0 <= i < |ExtractedImages(pictures)| ==> IsCleaned(ExtractedImages(pictures)[i])
    ensures ImageCandidates(pictures).Some? ==>
              var c := ImageCandidates(pictures).value;
              (forall i :: 0 <= i < |c| ==> c[i] in ExtractedImages(pictures))
              && forall i, j :: 0 <= i < j < |ExtractedImages(pictures)| ==>
                   FirstBefore(c, ExtractedImages(pictures)[i], ExtractedImages(pictures)[j])
  {
    var r := ExtractedImages(pictures);
    if ImageCandidates(pictures).Some? {
      var c := ImageCandidates(pictures).value;
      DedupeElements(c);
      CandidatesCleaned(pictures);
      forall i, j | 0 <= i < j < |r|
        ensures FirstBefore(c, r[i], r[j])
      {
        DedupeFirstOccurrenceOrder(c, i, j);
      }
    }
  }

  /** A feature entry and the text of its `span`, when it has one. */
  datatype FeatureItem = FeatureItem(span: Option<string>)

  /** The stripped texts of the entries that have a `span`, in order. */
  function FeatureTexts(items: seq<FeatureItem>): seq<string>
  {
    if items == [] then []
    else
      var last := items[|items| - 1];
      FeatureTexts(items[..|items| - 1]) + if last.span.Some? then [PyStrip(last.span.value)] else []
  }

  /** With a `span` in every entry, there is one feature per entry, its stripped text. */
  lemma {:induction false} FeatureTextsAll(items: seq<FeatureItem>)
    requires forall k :: 0 <= k < |items| ==> items[k].span.Some?
    ensures |FeatureTexts(items)| == |items|
    ensures forall k :: 0 <= k < |items| ==> FeatureTexts(items)[k] == PyStrip(items[k].span.value)
  {
    if items != [] {
      var init := items[..|items| - 1];
      FeatureTextsAll(init);
      var r := FeatureTexts(items);
      assert r == FeatureTexts(init) + [PyStrip(items[|items| - 1].span.value)];
      forall k | 0 <= k < |items|
        ensures r[k] == PyStrip(items[k].span.value)
      {
        if k < |init| {
          assert init[k] == items[k];
        }
      }
    }
  }

  /** The features of a detail page: the entries of its features section, none without the section. */
  method CollectFeatures(section: Option<seq<FeatureItem>>) returns (features: seq<string>)
    ensures section.None? ==> features == []
    ensures section.Some? ==> features == FeatureTexts(section.value)
  {
    features := [];
    if section.Some? {
      var items := section.value;
      for i := 0 to |items|
        invariant features == FeatureTexts(items[..i])
      {
        assert items[..i + 1][..i] == items[..i];
        if items[i].span.Some? {
          features := features + [PyStrip(items[i].span.value)];
        }
      }
      assert items[..|items|] == items;
    }
  }

  /** A position as the scraper stores it. */
  datatype LatLon = LatLon(latitude: real, longitude: real)

  /**
   * The decoded GeoJSON of a map image: a Point with its coordinate list, a Polygon with its
   * rings of (x, y) pairs, anything the scraper leaves without coordinates (a JSON error, a
   * missing `coordinates` key, another or no geometry type), or JSON whose `.get` chain itself
   * fails: a document that is not an object, or a `geometry` member that is `null` or not an
   * object. Only `JSONDecodeError` and `KeyError` are caught, so that last one raises.
   */
  datatype Geometry = Point(position: seq<real>) | Polygon(rings: seq<seq<(real, real)>>) | Ignored | Malformed

  /** The map button of a detail page and its `<img>`. */
  datatype MapButton = MapButton(img: Option<Img>)

  /** A character `.*?` may take inside the `geojson(...)` group: `.` skips a newline, and the lazy group ends at the first ')'. */
  predicate InGroup(c: char)
  {
    c != ')' && c != '\n'
  }

  /** `geojson\((.*?)\)` at the start of `t`: the group. */
  function GeojsonHere(t: string): Option<string>
  {
    if "geojson(" <= t then
      var n := Span(t[8..], InGroup);
      if 8 + n < |t| && t[8 + n] == ')' then Some(t[8..8 + n]) else None
    else None
  }

  /** The GeoJSON pattern tried at position `i` of `s`. */
  function GeojsonAt(s: string, i: nat): Option<string>
  {
    if i <= |s| then GeojsonHere(s[i..]) else None
  }

  /** The leftmost match of the GeoJSON pattern: where it starts and its group. */
  function FirstGeojsonMatch(s: string): (m: Option<(nat, string)>)
    ensures m.Some? ==> m.value.0 <= |s| && GeojsonAt(s, m.value.0) == Some(m.value.1)
                        && forall j :: 0 <= j < m.value.0 ==> GeojsonAt(s, j).None?
    ensures m.None? ==> forall j :: 0 <= j <= |s| ==> GeojsonAt(s, j).None?
  {
    var at := (i: nat) => GeojsonAt(s, i);
    assert forall j: nat :: at(j) == GeojsonAt(s, j);
    Search(|s|, at, 0)
  }

  /** The group of the leftmost `geojson(...)` match. */
  function GeojsonGroup(s: string): Option<string>
  {
    match FirstGeojsonMatch(s)
    case None => None
    case Some((_, g)) => Some(g)
  }

  /** `geojson(g)` with no ')' and no newline in `g` has the group `g`, whatever follows. */
  lemma GeojsonHereOfText(g: string, rest: string)
    requires forall k :: 0 <= k < |g| ==> InGroup(g[k])
    ensures GeojsonHere("geojson(" + (g + ([')'] + rest))) == Some(g)
  {
    var t := "geojson(" + (g + ([')'] + rest));
    assert t[8..] == g + ([')'] + rest);
    SpanAppend(g, [')'] + rest, InGroup);
    assert t[8 + |g|] == ')';
    assert t[8..8 + |g|] == g;
  }

  /** The pattern starts with 'g', so it matches nowhere inside a text without one. */
  lemma NoGeojsonMatchBefore(a: string, t: string)
    requires 'g' !in a
    ensures forall i :: 0 <= i < |a| ==> GeojsonAt(a + t, i).None?
  {
    forall i | 0 <= i < |a|
      ensures GeojsonAt(a + t, i).None?
    {
      assert (a + t)[i..][0] == a[i];
    }
  }

  lemma GeojsonAtJoin(a: string, t: string)
    ensures GeojsonAt(a + t, |a|) == GeojsonHere(t)
  {
    assert (a + t)[|a|..] == t;
  }

  /** A map address `a` + `geojson(g)` + `rest` with no 'g' in `a` and no ')' or newline in `g` carries the GeoJSON text `g`. */
  lemma GeojsonGroupOfText(a: string, g: string, rest: string)
    requires 'g' !in a && forall k :: 0 <= k < |g| ==> InGroup(g[k])
    ensures GeojsonGroup(a + ("geojson(" + (g + ([')'] + rest)))) == Some(g)
  {
    var t := "geojson(" + (g + ([')'] + rest));
    GeojsonHereOfText(g, rest);
    NoGeojsonMatchBefore(a, t);
    GeojsonAtJoin(a, t);
    var m := FirstGeojsonMatch(a + t);
    assert m == Some((|a|, g));
  }

  /** A decimal as the pattern `-?\d+\.\d+` reads it: its sign and its digits before and after the point. */
  datatype Decimal = Decimal(negative: bool, whole: string, frac: string)

  /** The number of characters the decimal takes in the text. */
  function DecimalLength(d: Decimal): nat
  {
    (if d.negative then 1 else 0) + |d.whole| + 1 + |d.frac|
  }

  /** `float()` of the matched text. */
  function DecimalValue(d: Decimal): real
    requires AllDigits(d.whole) && AllDigits(d.frac)
  {
    var v := NumberValue(d.whole, d.frac);
    if d.negative then -v else v
  }

  /** `\d+\.\d+` at the start of `t`: the digits before and after the point. */
  function DecimalParts(t: string): (r: Option<(string, string)>)
    ensures r.Some? ==> var (w, f) := r.value;
              w != [] && AllDigits(w) && f != [] && AllDigits(f) && |w| + 1 + |f| <= |t|
  {
    var n1 := Span(t, IsDigit);
    if n1 > 0 && n1 + 1 < |t| && t[n1] == '.' && IsDigit(t[n1 + 1]) then
      var n2 := Span(t[n1 + 1..], IsDigit);
      Some((t[..n1], t[n1 + 1..][..n2]))
    else None
  }

  /** `-?\d+\.\d+` at the start of `t`. */
  function SignedDecimal(t: string): (r: Option<Decimal>)
    ensures r.Some? ==> AllDigits(r.value.whole) && AllDigits(r.value.frac) && DecimalLength(r.value) <= |t|
  {
    var neg := t != [] && t[0] == '-';
    match DecimalParts(if neg then t[1..] else t)
    case None => None
    case Some((w, f)) => Some(Decimal(neg, w, f))
  }

  /** `/(-?\d+\.\d+),(-?\d+\.\d+),` at the start of `t`: the two groups, longitude first. */
  function PathCoordsHere(t: string): (r: Option<(Decimal, Decimal)>)
    ensures r.Some? ==> AllDigits(r.value.0.whole) && AllDigits(r.value.0.frac)
                        && AllDigits(r.value.1.whole) && AllDigits(r.value.1.frac)
  {
    if t != [] && t[0] == '/' then
      match SignedDecimal(t[1..])
      case None => None
      case Some(lon) => LatitudeAfter(lon, t[1..][DecimalLength(lon)..])
    else None
  }

  /** `,(-?\d+\.\d+),` at the start of `w`, after the longitude `lon`. */
  function LatitudeAfter(lon: Decimal, w: string): (r: Option<(Decimal, Decimal)>)
    ensures r.Some? ==> r.value.0 == lon && AllDigits(r.value.1.whole) && AllDigits(r.value.1.frac)
  {
    if w != [] && w[0] == ',' then
      match SignedDecimal(w[1..])
      case None => None
      case Some(lat) =>
        var n := DecimalLength(lat);
        if n < |w[1..]| && w[1..][n] == ',' then Some((lon, lat)) else None
    else None
  }

  /** The path pattern tried at position `i` of `s`. */
  function PathAt(s: string, i: nat): Option<(Decimal, Decimal)>
  {
    if i <= |s| then PathCoordsHere(s[i..]) else None
  }

  /** The leftmost match of the path pattern: where it starts and its two groups. */
  function FirstPathMatch(s: string): (m: Option<(nat, (Decimal, Decimal))>)
    ensures m.Some? ==> m.value.0 <= |s| && PathAt(s, m.value.0) == Some(m.value.1)
                        && forall j :: 0 <= j < m.value.0 ==> PathAt(s, j).None?
    ensures m.None? ==> forall j :: 0 <= j <= |s| ==> PathAt(s, j).None?
  {
    var at := (i: nat) => PathAt(s, i);
    assert forall j: nat :: at(j) == PathAt(s, j);
    Search(|s|, at, 0)
  }

  /** The position of the leftmost `/lon,lat,` match of a map address. */
  function PathCoordinates(s: string): Option<LatLon>
  {
    match FirstPathMatch(s)
    case None => None
    case Some((_, (lon, lat))) => Some(LatLon(DecimalValue(lat), DecimalValue(lon)))
  }

  /** `x.f` followed by something that is not a digit splits into x and f. */
  lemma DecimalPartsOfText(x: string, f: string, rest: string)
    requires x != [] && AllDigits(x) && f != [] && AllDigits(f) && rest != [] && !IsDigit(rest[0])
    ensures DecimalParts(x + "." + f + rest) == Some((x, f))
  {
    var t := x + "." + f + rest;
    assert t == x + ("." + f + rest);
    SpanAppend(x, "." + f + rest, IsDigit);
    assert t[|x|] == '.' && t[|x| + 1] == f[0];
    var u := t[|x| + 1..];
    assert u == f + rest;
    SpanAppend(f, rest, IsDigit);
    assert t[..|x|] == x;
    assert u[..|f|] == f;
  }

  /** After `x.f` the decimal reader stops at the separator `c`, with `rest` behind it. */
  lemma DecimalThen(x: string, f: string, c: char, rest: string)
    requires x != [] && AllDigits(x) && f != [] && AllDigits(f) && !IsDigit(c)
    ensures var t := x + "." + f + ([c] + rest);
            SignedDecimal(t) == Some(Decimal(false, x, f)) && t[|x| + 1 + |f|..] == [c] + rest
  {
    var p := x + "." + f;
    assert (p + ([c] + rest))[0] == x[0];
    DecimalPartsOfText(x, f, [c] + rest);
    assert (p + ([c] + rest))[|p|..] == [c] + rest;
  }

  /** The path pattern after the '/': a decimal, a ',', a decimal and a ','. */
  lemma PathCoordsAfterSlash(u: string, lon: Decimal, v: string, lat: Decimal, rest: string)
    requires SignedDecimal(u) == Some(lon) && u[DecimalLength(lon)..] == [','] + v
    requires SignedDecimal(v) == Some(lat) && v[DecimalLength(lat)..] == [','] + rest
    ensures PathCoordsHere(['/'] + u) == Some((lon, lat))
  {
    var t := ['/'] + u;
    assert t[1..] == u;
    assert t[1..][DecimalLength(lon)..] == [','] + v;
    LatitudeOfText(lon, v, lat, rest);
  }

  /** `,` then a decimal and a `,` is read as that latitude. */
  lemma LatitudeOfText(lon: Decimal, v: string, lat: Decimal, rest: string)
    requires SignedDecimal(v) == Some(lat) && v[DecimalLength(lat)..] == [','] + rest
    ensures LatitudeAfter(lon, [','] + v) == Some((lon, lat))
  {
    assert ([','] + v)[1..] == v;
    assert v[DecimalLength(lat)] == ',';
  }

  /** `/x1.f1,` followed by a text `v` that starts with a decimal and a ',' is read as x1.f1, then that decimal. */
  lemma PathCoordsFirst(x1: string, f1: string, v: string, lat: Decimal, rest: string)
    requires x1 != [] && AllDigits(x1) && f1 != [] && AllDigits(f1)
    requires SignedDecimal(v) == Some(lat) && v[DecimalLength(lat)..] == [','] + rest
    ensures PathCoordsHere(['/'] + (x1 + "." + f1 + ([','] + v))) == Some((Decimal(false, x1, f1), lat))
  {
    DecimalThen(x1, f1, ',', v);
    PathCoordsAfterSlash(x1 + "." + f1 + ([','] + v), Decimal(false, x1, f1), v, lat, rest);
  }

  /** A path piece `/x1.f1,x2.f2,rest` gives the groups x1.f1 and x2.f2. */
  lemma PathCoordsOfText(x1: string, f1: string, x2: string, f2: string, rest: string)
    requires x1 != [] && AllDigits(x1) && f1 != [] && AllDigits(f1)
    requires x2 != [] && AllDigits(x2) && f2 != [] && AllDigits(f2)
    ensures PathCoordsHere("/" + (x1 + "." + f1 + ("," + (x2 + "." + f2 + ("," + rest)))))
            == Some((Decimal(false, x1, f1), Decimal(false, x2, f2)))
  {
    DecimalThen(x2, f2, ',', rest);
    PathCoordsFirst(x1, f1, x2 + "." + f2 + ([','] + rest), Decimal(false, x2, f2), rest);
  }

  /** The leftmost match is the first '/' at which the pattern matches: with none in `a`, the one that starts `t`. */
  lemma PathCoordinatesAfter(a: string, t: string, lon: Decimal, lat: Decimal)
    requires '/' !in a && PathCoordsHere(t) == Some((lon, lat))
    ensures PathCoordinates(a + t) == Some(LatLon(DecimalValue(lat), DecimalValue(lon)))
  {
    NoPathMatchBefore(a, t);
    PathAtJoin(a, t);
    FirstPathMatchAt(a + t, |a|);
  }

  lemma PathAtJoin(a: string, t: string)
    ensures PathAt(a + t, |a|) == PathCoordsHere(t)
  {
    assert (a + t)[|a|..] == t;
  }

  /** A match with none before it is the leftmost one. */
  lemma FirstPathMatchAt(s: string, k: nat)
    requires k <= |s| && PathAt(s, k).Some? && forall j :: 0 <= j < k ==> PathAt(s, j).None?
    ensures FirstPathMatch(s) == Some((k, PathAt(s, k).value))
  {
  }

  /** The pattern starts with '/', so it matches nowhere inside a text without one. */
  lemma NoPathMatchBefore(a: string, t: string)
    requires '/' !in a
    ensures forall i :: 0 <= i < |a| ==> PathAt(a + t, i).None?
  {
    forall i | 0 <= i < |a|
      ensures PathAt(a + t, i).None?
    {
      assert (a + t)[i..][0] == a[i];
    }
  }

  /** A map address `a/x1.f1,x2.f2,rest` with no '/' in `a` places the listing at latitude x2.f2, longitude x1.f1. */
  lemma PathCoordinatesOfText(a: string, x1: string, f1: string, x2: string, f2: string, rest: string)
    requires '/' !in a
    requires x1 != [] && AllDigits(x1) && f1 != [] && AllDigits(f1)
    requires x2 != [] && AllDigits(x2) && f2 != [] && AllDigits(f2)
    ensures PathCoordinates(a + "/" + x1 + "." + f1 + "," + x2 + "." + f2 + "," + rest)
            == Some(LatLon(NumberValue(x2, f2), NumberValue(x1, f1)))
  {
    var t := "/" + (x1 + "." + f1 + ("," + (x2 + "." + f2 + ("," + rest))));
    assert a + "/" + x1 + "." + f1 + "," + x2 + "." + f2 + "," + rest == a + t;
    PathCoordsOfText(x1, f1, x2, f2, rest);
    PathCoordinatesAfter(a, t, Decimal(false, x1, f1), Decimal(false, x2, f2));
  }

  /**
   * The position a GeoJSON map address gives: a Point is [longitude, latitude] (section 3.1.1 of
   * RFC 7946); a Polygon is placed at the centroid of its first, exterior ring (section 3.1.6).
   * A Point with fewer than two numbers, a Polygon with no ring, an empty ring and a document
   * whose geometry cannot be looked up raise.
   */
  function GeojsonCoordinates(src: string, decode: string -> Geometry,
                              centroid: seq<(real, real)> -> (real, real)): Outcome<Option<LatLon>>
  {
    var g := GeojsonGroup(src);
    if g.None? || g.value == "" then Ok(None)
    else
      match decode(g.value)
      case Point(p) => if |p| < 2 then Raised else Ok(Some(LatLon(p[1], p[0])))
      case Polygon(rings) =>
        if rings == [] || rings[0] == [] then Raised
        else Ok(Some(LatLon(centroid(rings[0]).1, centroid(rings[0]).0)))
      case Ignored => Ok(None)
      case Malformed => Raised
  }

  /**
   * The coordinate branch of `get_detail_page_info`: no position without a map button or its image;
   * an image without `src` raises; a GeoJSON address is decoded and otherwise the path pattern is used.
   */
  function Coordinates(button: Option<MapButton>, decode: string -> Geometry,
                       centroid: seq<(real, real)> -> (real, real)): Outcome<Option<LatLon>>
  {
    if button.None? || button.value.img.None? then Ok(None)
    else
      var src := button.value.img.value.src;
      if src.None? then Raised
      else if Contains(src.value, "geojson") then GeojsonCoordinates(src.value, decode, centroid)
      else Ok(PathCoordinates(src.value))
  }

  /** A Point is read as longitude first, then latitude. */
  lemma PointCoordinates(src: string, decode: string -> Geometry, centroid: seq<(real, real)> -> (real, real))
    requires Contains(src, "geojson") && GeojsonGroup(src).Some? && GeojsonGroup(src).value != ""
    requires decode(GeojsonGroup(src).value).Point? && |decode(GeojsonGroup(src).value).position| >= 2
    ensures var p := decode(GeojsonGroup(src).value).position;
            Coordinates(Some(MapButton(Some(Img(Some(src))))), decode, centroid) == Ok(Some(LatLon(p[1], p[0])))
  {
  }

  /**
   * A GeoJSON address raises exactly when its group decodes to a document whose geometry cannot be
   * looked up, a Point with fewer than two numbers, or a Polygon without a non-empty first ring.
   */
  lemma GeojsonRaises(src: string, decode: string -> Geometry, centroid: seq<(real, real)> -> (real, real))
    ensures GeojsonCoordinates(src, decode, centroid).Raised? <==>
              && GeojsonGroup(src).Some? && GeojsonGroup(src).value != ""
              && var d := decode(GeojsonGroup(src).value);
                 || d.Malformed?
                 || (d.Point? && |d.position| < 2)
                 || (d.Polygon? && (d.rings == [] || d.rings[0] == []))
  {
  }

  /** A Polygon's position depends on its exterior ring only: the holes never matter. */
  lemma PolygonExteriorRing(src: string, d1: string -> Geometry, d2: string -> Geometry,
                            centroid: seq<(real, real)> -> (real, real))
    requires GeojsonGroup(src).Some?
    requires d1(GeojsonGroup(src).value).Polygon? && d2(GeojsonGroup(src).value).Polygon?
    requires var r1 := d1(GeojsonGroup(src).value).rings; var r2 := d2(GeojsonGroup(src).value).rings;
             r1 != [] && r2 != [] && r1[0] == r2[0]
    ensures GeojsonCoordinates(src, d1, centroid) == GeojsonCoordinates(src, d2, centroid)
  {
  }

  /** With a GeoJSON address the path pattern is never consulted, whatever it would find. */
  lemma GeojsonExcludesPath(src: string, decode: string -> Geometry, centroid: seq<(real, real)> -> (real, real))
    requires Contains(src, "geojson")
    ensures Coordinates(Some(MapButton(Some(Img(Some(src))))), decode, centroid) == GeojsonCoordinates(src, decode, centroid)
  {
  }
}
