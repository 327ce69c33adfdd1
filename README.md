# ImmoCollectTrier, modelled in Dafny

ImmoCollectTrier collects real-estate listings around Trier from immowelt.de and shows them in a
browser dashboard. This project models both halves in Dafny.

The Python collector:

- walks the paginated search results and reads each listing card (`lib/scraper.py`);
- turns the free-text price and key facts into numbers (`lib/parsers.py`, `lib/data_processor.py`);
- reconciles the new scrape with the stored table, stamping `created_date` on new links and
  `closed_date` on vanished ones (`lib/database.py`);
- enriches new listings from their detail pages, under the control of `main.py`.

The React front end:

- sanitises the table and filters it by type, price, area, rooms, map radius, listing status and
  date window (`pages/AnalyticsPage.tsx`, `components/HousingAnalytics.tsx`,
  `components/PropertyList.tsx`, `pages/PropertyListPage.tsx`);
- edits those filters (`components/PropertyFilters.tsx`) and pages through listing images
  (`components/ImageGallery.tsx`);
- computes summary statistics, price buckets and room distributions (`utils/dataUtils.ts`,
  `components/analytics/RoomAnalytics.tsx`);
- cleans image URLs and coordinates when the table is loaded (`App.tsx`).

## Layout

- One module per source file: `Parsers` (with `ParserFacts`), `Database`, `DataProcessor`,
  `ScraperPages`, `Scraper`, `Urls`, `Driver`, `AnalyticsPage`, `HousingAnalytics`, `PropertyList`,
  `PropertyListPage`, `PropertyFilters`, `ImageGallery`, `DataUtils`, `App`, `RoomAnalytics`.
- The `Scraper` module covers the network side of `lib/scraper.py`. `ScraperPages` covers what is read
  from parsed pages. `Urls` covers the image-URL cleaning, and `UrlJoin` the `urljoin` of card links
  onto the site address, with the `urlsplit`, `urlunparse` and dot-segment steps it takes.
- Shared modules:
  - `Wrappers`: `Option`, and `Outcome`, for a result, a `KeyboardInterrupt` or an exception.
  - `Seqs`: filter, subsequence, first-occurrence dedupe, counting.
  - `Strings`: digits, Python and JavaScript white space, split, join, trim.
  - `Regex`: the leftmost search that `re.search` performs, with deterministic matchers at a position.
  - `Dates`: `yyyymmdd` day codes with ISO `YYYY-MM-DD` printing and parsing.
  - `Frames`: a pandas table as columns plus rows of cells, with the class `Frame` for in-place
    column assignment.
  - `JsValues`: JavaScript numbers with NaN and the infinities, truthiness, `Number()`, `String()`,
    `Math.min` and `Math.max`.
  - `FilterRules`: the range, map, status and date rules shared by the four filter predicates.
  - `FormCoding`: the form coding of query fields, decoded by `parse_qs` and `URLSearchParams` and
    written by `quote_plus` and `URLSearchParams.toString()`, with UTF-8 escapes.

## How the model is built

- **Imperative code stays imperative.** Each of these is a `method`, proved equal to a specification
  function:
  - the retry loop of `_make_request` and the page walk of `scrape_all_listings`;
  - the detail-page loops of `main` and the bucket counting of `getPriceRanges`;
  - the in-place sort behind the medians of `getDataStatistics` and the tallies of the room
    distribution.
  - The properties are then proved about that function.
- **State updated in place is a class.**
  - A pandas frame that the source mutates (`df[col] = ...`, `new_df.at[idx, ...] = ...`) is a
    `Frames.Frame`.
  - The comparison sets of the analytics page are `AnalyticsPage.ComparisonSets`.
  - The text inputs of the filter panel are `PropertyFilters.FilterPanel`.
  - The gallery state is `ImageGallery.Gallery`.
- **The outside world is a parameter.**
  - The network is a function from (url, request number, attempt) to a response, and the sleeps are
    recorded as multiples of the request delay.
  - HTML is given as already-parsed page shapes (cards, buttons, pictures, map button).
  - The JSON decoder, the polygon centroid, the Haversine distance and `new Date(...).getTime()` are
    functions passed in.
  - A `KeyboardInterrupt` is the index of the detail fetch it interrupts.
  - The browser's `new URL(...)` parser is the type `App.Parser`, a parameter of the image cleaning
    at load time.
- **Numbers.** Python numbers are exact `real`s. JavaScript numbers are `JsValues.JsNum`, so NaN
  comparisons behave as in the browser: every comparison with NaN is false.

## Model

| member | source | states |
|---|---|---|
| Parsers.CleanPrice | lib/parsers.py:7-19 | "Preis auf Anfrage", "Keine Info" and non-text give None; a result needs a '€' and a digit in the text; the value is a non-negative whole number |
| ParserFacts.CleanPriceOfPrintedAmount | lib/parsers.py:13-16 | any amount printed with '.' thousands groups and " €" is read back as that amount |
| ParserFacts.PriceExample | lib/parsers.py:13-16 | "1.250.000 €" gives 1250000 |
| Parsers.ExtractSqm | lib/parsers.py:21-35 | "Keine Info", "EG" and non-text give None; otherwise there is a value exactly when the leftmost number + optional spaces + "m²" match exists; the value is non-negative |
| ParserFacts.SqmOfWholeNumber | lib/parsers.py:28-32 | "<digits> m²…" reads as the digits, whatever follows |
| ParserFacts.SqmOfCommaNumber | lib/parsers.py:28-32 | "<a>,<b> m²" reads as a + b/10^len(b) (the comma is the decimal point) |
| ParserFacts.SqmOfPointNumber | lib/parsers.py:28-32 | "<a>.<b> m²" reads as the digits of a and b together (the dot is a thousands separator) |
| ParserFacts.SqmCommaExample | lib/parsers.py:28-32 | "147,5 m²" gives 147.5 |
| ParserFacts.SqmPointExample | lib/parsers.py:28-32 | "1.200 m²" gives 1200 |
| Parsers.ExtractRooms | lib/parsers.py:37-51 | "Keine Info" and non-text give None; otherwise there is a value exactly when the leftmost `\d+(,\d+)?` + spaces + "Zimmer"/"Zi"/"Zi." match exists |
| ParserFacts.RoomsOfCommaNumber | lib/parsers.py:44-48 | "<a>,<b> Zimmer" reads as the decimal a.b |
| ParserFacts.RoomsOfWholeNumber | lib/parsers.py:44-48 | "<digits> Zimmer" reads as the digits |
| ParserFacts.RoomsExample | lib/parsers.py:44-48 | "4,5 Zimmer" gives 4.5 |
| Parsers.ExtractPlotSize | lib/parsers.py:53-67 | without "Grundstück" in the text the result is None; with it, there is a value exactly when a number + "m²" + "Grundstück" match exists |
| ParserFacts.PlotGuardRedundant | lib/parsers.py:59-64 | any plot match already contains "Grundstück", so the substring guard never changes the answer |
| ParserFacts.PlotOfWholeNumber | lib/parsers.py:60-64 | "<digits> m² Grundstück…" reads as the digits |
| ParserFacts.PlotExample | lib/parsers.py:53-67 | "500 m² Grundstück" gives 500 as plot size and 500 as living area |
| ParserFacts.LivingAreaIsNoPlot | lib/parsers.py:59-64 | "500 m² Wohnfläche" gives no plot size |
| Regex.Search | lib/parsers.py:28 | the leftmost-match search of `re.search`: the position found matches, and no earlier position does |
| Database.CreateEmptyDataFrame | lib/database.py:41-48 | an empty table with the 16 distinct store columns, including Link and both dates |
| Database.EnsureTrackingColumns | lib/database.py:75-94 | adds, in place, exactly the missing tracking columns with their defaults |
| Database.TrackingColumnsPresent | lib/database.py:77-94 | after it: created_date, closed_date and Zimmer exist; no column is lost; existing cells are untouched; an added created_date is today and an added closed_date is null |
| Database.TrackingDefaultsAt | lib/database.py:77-89 | eleven defaults, created_date is today and closed_date null |
| Database.LinkSet | lib/database.py:122-128 | a table that is empty or has no Link column gives the empty link set; otherwise every row's link |
| Database.CompareListings | lib/database.py:119-143 | new, closed and unchanged are pairwise disjoint; new + unchanged is the current links, closed + unchanged the existing ones, and all three together the union |
| Database.CloseRows | lib/database.py:153-157 | closed_date becomes today exactly on rows whose link closed and whose closed_date is null; every other cell is kept |
| Database.UpdateDatabase | lib/database.py:145-167 | the merged frame is `Merge` of the old frames; with an empty store the incoming frame itself is returned; otherwise the existing frame is closed in place and the incoming one untouched |
| Database.MergeLayout | lib/database.py:152-167 | existing rows come first, closed as above; then exactly the incoming rows with new links, stamped today; with no new links the result is the closed existing table |
| Database.MergeRows | lib/database.py:160-163 | with new links the rows are the closed existing rows followed by the new incoming rows with created_date today |
| Database.FirstRunStampsAll | lib/database.py:147-150 | with an empty store every incoming row is returned with created_date today and all other cells unchanged |
| Database.CloseIdempotent | lib/database.py:153-157 | closing twice changes nothing, whatever the second date |
| Database.MergeKeepsLinksDistinct | lib/database.py:152-167 | tables with distinct links merge into a table with distinct links |
| Database.MergeLinks | lib/database.py:152-167 | the merged links are the existing links together with the current ones |
| Database.MergeTwiceStable | lib/database.py:119-167 | reconciling the merged table with the same scrape again, on any later day, changes nothing |
| Database.MergeStaysClosed | lib/database.py:153-165 | closing the merged table again for the same vanished links changes nothing |
| Database.GetStatistics | lib/database.py:169-177 | total is the row count; active, closed, new today and closed today are the numbers of rows whose `closed_date` is null, not null, or today, and whose `created_date` is today; active + closed = total; closed today ≤ closed; new today ≤ total |
| DataProcessor.RequiredDefaults | lib/data_processor.py:17-22 | one null default for each of the 16 distinct required columns |
| DataProcessor.EnsureColumns | lib/data_processor.py:45-50 | adds the missing required columns in place, with null cells |
| DataProcessor.EnsureColumnsComplete | lib/data_processor.py:45-50 | afterwards all 16 columns exist, only those were added, existing cells are unchanged and added cells are null |
| DataProcessor.PricePerSqm | lib/data_processor.py:72-77 | non-null exactly when the price and a positive living area are numbers, and then price per m² × area = price |
| DataProcessor.FillAddress | lib/data_processor.py:80 | a null address becomes "Keine Adresse", any other is kept |
| DataProcessor.CoerceDate | lib/data_processor.py:83-84 | dates stay dates, ISO text becomes its date, anything unparseable becomes null |
| DataProcessor.CleanData | lib/data_processor.py:52-85 | raises exactly when a column it reads is missing |
| DataProcessor.CleanColumnsShape | lib/data_processor.py:56-85 | same row count; the input columns plus the written ones; no new column when all were present |
| DataProcessor.CleanColumnsParsed | lib/data_processor.py:60-69 | per row, the four parsed columns equal the parsers applied to Preis and Details |
| DataProcessor.CleanColumnsPricePerSqm | lib/data_processor.py:72-77 | per row, Preis_pro_qm is computed from the parsed price and living area |
| DataProcessor.CleanColumnsFilled | lib/data_processor.py:80-84 | per row, the address is filled and both dates are coerced |
| DataProcessor.CleanColumnsKept | lib/data_processor.py:57-85 | every cell of a column the cleaning does not write is copied |
| DataProcessor.ProcessNewData | lib/data_processor.py:24-43 | the caller's frame gains exactly its missing required columns, in place; the returned frame is the cleaning of that, which then cannot raise |
| Dates.ParsedDatePrintsBack | lib/data_processor.py:83-84 | a text that parses as a date is that date printed as YYYY-MM-DD |
| Dates.PrintedDateParses | lib/data_processor.py:83-84 | a date printed as YYYY-MM-DD parses back to itself |
| Dates.DayCodeOrder | lib/database.py:175-176 | day codes order and compare exactly as the dates do |
| Urls.ParseHttps | lib/scraper.py:21 | `urlparse` of an address whose valid scheme lower-cases to `https` splits it as `urlsplit` does, with the path parameters split off |
| Urls.UnparseNetloc | lib/scraper.py:30-37 | with a scheme and a network location, `urlunparse` writes `scheme://netloc`, the path (after a '/' if relative), `;params`, `?query` and `#fragment`, each only when non-empty |
| Urls.ParsedWritable | lib/scraper.py:21 | an https address with a network location splits into parts whose path is empty or absolute and is read again as it is |
| Urls.ReparseUrl | lib/scraper.py:21-37 | `urlparse` reads back exactly the parts `urlunparse` wrote, for an https address with a network location |
| Urls.SealQueryFields | lib/scraper.py:22-35 | the query `urlencode` writes for the seal holds no '#', and `parse_qs` reads from it exactly the seal for `ci_seal` and nothing for any other name |
| Urls.CleanImageUrlParts | lib/scraper.py:14-39 | cleaning fails exactly when `urlparse` raises on the size-stripped URL; for an https address with a network location, the cleaned URL is read back with the same scheme, network location, path, parameters and fragment, and a query that is empty without a `ci_seal` value, else `ci_seal=` and the first decoded value written by `quote_plus`, which `parse_qs` reads back as exactly that value and no other field |
| Urls.CleanSizedSealedUrl | lib/scraper.py:14-39 | `https://h/p?ci_seal=v&w=..&h=..` cleans to `https://h/p?ci_seal=` and `v` decoded by `parse_qs` and re-encoded by `quote_plus` |
| Urls.CleanLeadingWidthUrl | lib/scraper.py:14-39 | `https://h/p?w=..&ci_seal=v` cleans to `https://h/p&ci_seal=v`: stripping `?w=` leaves no query to keep the seal in, and `&ci_seal=v` stays in the path |
| Urls.CleanWithoutQuery | lib/scraper.py:14-39 | an https address with a network location and neither query nor fragment left after stripping the size fields is returned stripped |
| Urls.CleanUnpairedBracket | lib/scraper.py:21 | a network location with '[' and no ']' makes `urlparse` raise, so cleaning gives no URL |
| Urls.CleanUpperCaseScheme | lib/scraper.py:21-37 | `HTTPS://h/p` is written back as `https://h/p`, because `urlparse` lower-cases the scheme |
| Urls.CleanUrlFixed | lib/scraper.py:14-39 | cleaning an https address with a network location a second time changes nothing, when the cleaned address holds no size field |
| Urls.StripWithoutMatch | lib/scraper.py:17-18 | with no `?w=<digits>` or `&w=<digits>` (resp. `h`) field, stripping the size fields returns the URL unchanged |
| FormCoding.DecodeEncode | lib/scraper.py:22 | decoding (`parse_qs`, `URLSearchParams`) what `quote_plus` or `URLSearchParams.toString()` wrote gives the original text back |
| FormCoding.EncodeHasNoDelimiter | lib/scraper.py:30-37 | an encoded value holds no '&', '=', '#' or '?', so it stays one query field |
| Urls.StripSizeParam | lib/scraper.py:17-18 | removing the size fields never lengthens the URL |
| UrlJoin.ResolveFails | lib/scraper.py:168 | `urljoin` raises exactly for a non-empty reference whose network location has an unpaired '[' or ']' |
| UrlJoin.ResolveOtherScheme | lib/scraper.py:168 | a reference with a scheme other than https is returned as it is |
| UrlJoin.ResolveAbsolute | lib/scraper.py:168 | a joined link has a scheme, and when it is https a non-empty network location |
| UrlJoin.ResolveIdempotent | lib/scraper.py:168 | joining an already-joined link changes nothing |
| UrlJoin.Reparse | lib/scraper.py:168 | `urlsplit` reads back the parts `urlunparse` wrote, with the path made absolute |
| UrlJoin.ResolveOnSite | lib/scraper.py:168 | a reference without scheme or network location lands under the site address, and its resolved path holds no `.` or `..` segment |
| UrlJoin.ResolvePathDotFree | lib/scraper.py:168 | a resolved path has no `.` or `..` segment |
| UrlJoin.AbsoluteKept | lib/scraper.py:168 | an absolute path without dot segments resolves to itself |
| UrlJoin.ResolveAbsolutePath | lib/scraper.py:168 | a plain absolute path is appended to the site address |
| UrlJoin.ResolveRelativePath | lib/scraper.py:168 | a plain relative path is appended to the site address after a '/' |
| UrlJoin.DotDotCancels | lib/scraper.py:168 | `/a/../b` resolves to the site address followed by `/b` |
| UrlJoin.EmptySegmentDropped | lib/scraper.py:168 | `a//b` resolves to the site address followed by `/a/b` |
| UrlJoin.SameSchemeRelative | lib/scraper.py:168 | `https:` in front of a plain reference changes nothing |
| UrlJoin.JoinLinkNoQuery | lib/scraper.py:166-168 | a card link never holds '?' |
| ScraperPages.ListingFields | lib/scraper.py:145-194 | each of price, description, details and address is independently the stripped text or "Keine Info"; the link is the joined href cut at '?' or "Keine Info"; the card fails (and is skipped) exactly when the first picture source has a srcset whose first entry holds no URL, or `urljoin` raises on the href |
| ScraperPages.ListingWithoutSource | lib/scraper.py:164-182 | a card without picture sources is read exactly when its link resolves, and its preview is then the img src |
| ScraperPages.CardListingsAll | lib/scraper.py:196-210 | when every card reads, the page gives one listing per card, in order |
| ScraperPages.GetListingsFromPage | lib/scraper.py:196-210 | the loop keeps exactly the cards that read, in page order |
| ScraperPages.GetTotalPages | lib/scraper.py:212-225 | 1 without a pagination nav, 1 without "zu seite" buttons, and 1 when the last button's stripped text is not an integer (the caught `ValueError`) |
| ScraperPages.TotalPagesOfNonInteger | lib/scraper.py:219-225 | a last page button whose stripped text `int()` refuses gives a single page |
| ScraperPages.TotalPagesOfLastButton | lib/scraper.py:219-221 | the total is the integer text of the last "zu seite" button |
| ScraperPages.ExtractImages | lib/scraper.py:302-336 | the loop over pictures gives the extracted image list: the cleaned source and img URLs without repeats, or no images once a cleaning raises |
| ScraperPages.ImgRaiseEmpties | lib/scraper.py:322-336 | an img src on which `urlparse` raises makes the whole extraction give no images, as the `except` does |
| ScraperPages.ExtractedImagesFacts | lib/scraper.py:302-336 | the images are cleaned and distinct, every candidate is among them, and they keep first-occurrence order |
| ScraperPages.FeatureTextsAll | lib/scraper.py:87-95 | when every item has a span, one stripped text per item, in order |
| ScraperPages.CollectFeatures | lib/scraper.py:87-95 | no section gives no features; otherwise the loop keeps the stripped span texts |
| ScraperPages.GeojsonGroupOfText | lib/scraper.py:106-109 | the group is the text between the first "geojson(" and the next ")" |
| ScraperPages.PathCoordinatesOfText | lib/scraper.py:127-130 | a map source `/lon,lat,` gives latitude and longitude in that swapped order |
| ScraperPages.PointCoordinates | lib/scraper.py:115-118 | a GeoJSON Point gives (latitude, longitude) = (coords[1], coords[0]) |
| ScraperPages.GeojsonRaises | lib/scraper.py:111-125 | a GeoJSON address raises exactly for a geometry that cannot be looked up, a Point with fewer than two numbers, or a Polygon without a non-empty first ring |
| ScraperPages.PolygonExteriorRing | lib/scraper.py:120-122 | a Polygon's coordinates depend only on its first ring |
| ScraperPages.GeojsonExcludesPath | lib/scraper.py:106-131 | a source naming "geojson" is never read with the path pattern |
| Scraper.MakeRequest | lib/scraper.py:64-77 | the retry loop returns the first successful body and waits delay before every attempt and delay·(k+1) after each failed attempt k but the last |
| Scraper.RequestFound | lib/scraper.py:65-77 | when attempt j is the first to answer, its body is returned after 2j+1 waits that follow the retry schedule |
| Scraper.RequestBodyFromAnswer | lib/scraper.py:65-70 | a returned body is the answer of some attempt, and every earlier attempt failed |
| Scraper.RequestExhausted | lib/scraper.py:64-77 | when every attempt fails there is no body, after 2·retries − 1 waits that follow the retry schedule |
| Scraper.PageUrlsDistinct | lib/scraper.py:243 | different pages have different addresses |
| Scraper.ScrapeAllListings | lib/scraper.py:227-261 | the walk computes the specified scrape |
| Scraper.ScrapeSources | lib/scraper.py:235-258 | a failed first fetch gives no listings; every listing comes from a page between 1 and the total |
| Scraper.WalkStops | lib/scraper.py:242-255 | the walk is the pages in order up to the first that fails or is empty |
| Scraper.WalkFromPages | lib/scraper.py:242-258 | every listing found comes from a page between the first visited and the total |
| Scraper.GetDetailPageInfo | lib/scraper.py:80-143 | computes the specified detail record for a fetched page |
| Scraper.DetailOfPageFacts | lib/scraper.py:87-143 | features come from the section, the address is stripped text or "Keine Adresse gefunden", and the images are the extracted ones |
| Scraper.DetailUnfetched | lib/scraper.py:81-83 | a page that cannot be fetched gives no record |
| Driver.LoadExistingData | lib/database.py:50-73 | the store table with tracking columns and coerced dates, or the empty table when absent or unreadable |
| Driver.LoadedColumns | lib/database.py:50-73 | the loaded table always has both date columns and keeps the rows and columns it read |
| Driver.ProcessedShape | main.py:73-77 | the processed scrape has one row per listing, a Link column and all required columns |
| Driver.WriteDetails | main.py:102-105 | writes the joined features, address, latitude and longitude into one row |
| Driver.FetchDetails | main.py:97-108 | the detail loop requests the targets in order and applies each record it receives, or ends the run |
| Driver.FirstRunFetches | main.py:88-113 | the first run requests every row's link in row order, all of them when it succeeds |
| Driver.FirstRunEnds | main.py:88-113 | the first run exits with 0 and a saved table, or with 1 or 130 and none |
| Driver.FirstRunCell | main.py:91-111 | the saved table stamps created_date today and writes the detail cells of every row whose fetch succeeded; other cells are the scraped ones |
| Driver.LaterOrder | main.py:116-122 | later runs fetch exactly the new links, each once, and no closed or unchanged link |
| Driver.LaterRunFetches | main.py:116-141 | requests follow the new links in order of first occurrence; 0 comes with a save, 1 or 130 without |
| Driver.LaterRunCell | main.py:119-134 | only the first row of a new link whose fetch succeeded gets detail cells; every other cell is the scraped one |
| Driver.AfterScrapeEnds | main.py:65-160 | no listings exit with 1 and no save; otherwise 0 comes with a save, and 130 only when interrupted |
| Driver.MainRunExits | main.py:29-160 | a backup request on an existing store exits with 1; fix-data exits with 0 before any scraping; a save means exit 0 |
| Driver.Run | main.py:29-160 | the driver computes the specified run |
| FilterRules.StatusOkMeans | frontend/ImmoFrontend/src/pages/AnalyticsPage.tsx:99-110 | with neither status flag nothing passes; otherwise a closed row needs `closed` and an open row `active` |
| FilterRules.DateRulesAgree | frontend/ImmoFrontend/src/pages/AnalyticsPage.tsx:113-161 | once the status test has passed, the three-branch date rule equals "closed date if present, else created date" |
| FilterRules.DateRulesDiffer | frontend/ImmoFrontend/src/components/HousingAnalytics.tsx:71-121 | outside the status test the two date rules can disagree |
| FilterRules.WithinMeans | frontend/ImmoFrontend/src/pages/AnalyticsPage.tsx:54-83 | a range test is inclusive on both ends, and a NaN value passes |
| FilterRules.InWindowMeans | frontend/ImmoFrontend/src/pages/AnalyticsPage.tsx:113-161 | an unset window admits everything; a set start and end are inclusive bounds |
| AnalyticsPage.FilteredDataSpec | frontend/ImmoFrontend/src/pages/AnalyticsPage.tsx:43-165 | the result is an order-preserving subsequence of the sanitised rows, holding exactly those that match |
| AnalyticsPage.MatchesMeans | frontend/ImmoFrontend/src/pages/AnalyticsPage.tsx:46-161 | a match starts with the selected type, lies in all four ranges, lies within the radius, has the right status and date |
| AnalyticsPage.AllTypesIgnoreDescription | frontend/ImmoFrontend/src/pages/AnalyticsPage.tsx:46-51 | type "all" does not look at the description |
| AnalyticsPage.NoStatusNoRows | frontend/ImmoFrontend/src/pages/AnalyticsPage.tsx:99-101 | with neither status flag the result is empty |
| AnalyticsPage.StatusSelectsRows | frontend/ImmoFrontend/src/pages/AnalyticsPage.tsx:102-110 | without `closed` no closed row passes; without `active` only closed rows pass |
| AnalyticsPage.AddedSpec | frontend/ImmoFrontend/src/pages/AnalyticsPage.tsx:168-179 | below four sets, a copy of the filters titled "Comparison Set n+1" is appended; at four nothing changes |
| AnalyticsPage.RemovedSpec | frontend/ImmoFrontend/src/pages/AnalyticsPage.tsx:182-184 | exactly index i is removed, the other sets keep their order |
| AnalyticsPage.UpdatedSpec | frontend/ImmoFrontend/src/pages/AnalyticsPage.tsx:279-293 | only set i changes, and only its filters |
| AnalyticsPage.UpdateThenRemove | frontend/ImmoFrontend/src/pages/AnalyticsPage.tsx:182-293 | removing a set after updating it is the same as removing it |
| AnalyticsPage.UpdatesCommute | frontend/ImmoFrontend/src/pages/AnalyticsPage.tsx:279-293 | updates of different sets commute |
| AnalyticsPage.TitlesCanRepeat | frontend/ImmoFrontend/src/pages/AnalyticsPage.tsx:168-184 | after add, add, remove the first, add, two sets carry the same title |
| AnalyticsPage.ComparisonSets.Add | frontend/ImmoFrontend/src/pages/AnalyticsPage.tsx:168-179 | the state becomes the appended list and never holds more than four sets |
| AnalyticsPage.ComparisonSets.Remove | frontend/ImmoFrontend/src/pages/AnalyticsPage.tsx:182-184 | the state becomes the list without index i |
| AnalyticsPage.ComparisonSets.Update | frontend/ImmoFrontend/src/pages/AnalyticsPage.tsx:279-293 | the state becomes the list with set i updated |
| AnalyticsPage.DatasetsSpec | frontend/ImmoFrontend/src/pages/AnalyticsPage.tsx:187-196 | "Current Selection" first, then one filtered data set per comparison set with its title |
| HousingAnalytics.FilteredDataSpec | frontend/ImmoFrontend/src/components/HousingAnalytics.tsx:23-124 | the result is an order-preserving subsequence of the rows, holding exactly those that match |
| HousingAnalytics.MatchesMeans | frontend/ImmoFrontend/src/components/HousingAnalytics.tsx:23-124 | price bounds always apply; living, plot and room bounds only to truthy values; status and date as in the other filters |
| HousingAnalytics.MissingValuesPass | frontend/ImmoFrontend/src/components/HousingAnalytics.tsx:34-42 | a matching row still matches with living area, plot and rooms missing or 0 |
| HousingAnalytics.AgreesWithAnalyticsPage | frontend/ImmoFrontend/src/components/HousingAnalytics.tsx:23-124 | on rows with living area and rooms and no plot, this filter and the analytics page's agree |
| HousingAnalytics.ZeroRoomsDiffer | frontend/ImmoFrontend/src/components/HousingAnalytics.tsx:40-42 | a row with 0 rooms passes here but not on the analytics page when the room minimum is positive |
| HousingAnalytics.ListingCountSpec | frontend/ImmoFrontend/src/components/HousingAnalytics.tsx:157 | the count is at most the row count, all rows exactly when all match, 0 exactly when none does |
| HousingAnalytics.GetPriceRanges | frontend/ImmoFrontend/src/components/HousingAnalytics.tsx:127-152 | computes the bucket counts: none for no rows, ten otherwise |
| HousingAnalytics.CountBuckets | frontend/ImmoFrontend/src/components/HousingAnalytics.tsx:134-149 | the counting loop adds one to the bucket of each price |
| HousingAnalytics.CountsTotal | frontend/ImmoFrontend/src/components/HousingAnalytics.tsx:139-149 | the counts add up to at most the number of prices, to all of them exactly when every price has a bucket |
| HousingAnalytics.CountedSlot | frontend/ImmoFrontend/src/components/HousingAnalytics.tsx:140-145 | a price is counted exactly when it is neither undefined nor null and its numeric value falls in a bucket, and then in that value's bucket |
| HousingAnalytics.BucketBounds | frontend/ImmoFrontend/src/components/HousingAnalytics.tsx:141-144 | a finite price value in bucket k lies in [min + k·step, min + (k+1)·step), the last bucket being closed above |
| HousingAnalytics.PriceRangesTotal | frontend/ImmoFrontend/src/components/HousingAnalytics.tsx:127-152 | the buckets never count more listings than there are |
| HousingAnalytics.AllPricesCounted | frontend/ImmoFrontend/src/components/HousingAnalytics.tsx:127-152 | finite prices that are not all equal are all counted |
| HousingAnalytics.EqualPricesNotCounted | frontend/ImmoFrontend/src/components/HousingAnalytics.tsx:130-149 | when all prices are equal, every bucket is 0 |
| HousingAnalytics.CorrectedPricesAllCounted | frontend/ImmoFrontend/src/components/HousingAnalytics.tsx:130-149 | with a zero step read as "first bucket", every finite price is counted, and nothing changes when prices differ |
| PropertyList.ListSpec | frontend/ImmoFrontend/src/components/PropertyList.tsx:16-145 | the list is an order-preserving subsequence holding every matching row; the "no properties match" message shows exactly when no row matches |
| PropertyList.NoStatusShowsMessage | frontend/ImmoFrontend/src/components/PropertyList.tsx:51-53 | with neither status flag the message shows |
| PropertyListPage.FilteredDataSpec | frontend/ImmoFrontend/src/pages/PropertyListPage.tsx:113-205 | the result is an order-preserving subsequence of the rows, holding exactly those that match |
| PropertyListPage.AgreesWithAnalyticsPage | frontend/ImmoFrontend/src/pages/PropertyListPage.tsx:113-205 | the single-date rule of this page accepts exactly the rows the analytics page accepts |
| PropertyListPage.SameRowsAsAnalyticsPage | frontend/ImmoFrontend/src/pages/PropertyListPage.tsx:113-205 | on sanitised data this page lists the analytics page's selection |
| PropertyListPage.CardImages | frontend/ImmoFrontend/src/pages/PropertyListPage.tsx:23 | the card images are non-empty and hold no ';'; no images without an Images text |
| PropertyListPage.CardImagesOfJoined | frontend/ImmoFrontend/src/pages/PropertyListPage.tsx:23 | splitting a ';'-joined list of non-empty URLs gives the list back |
| PropertyListPage.GalleryHasPicture | frontend/ImmoFrontend/src/pages/PropertyListPage.tsx:44-46 | a shown gallery always has a thumbnail |
| PropertyListPage.BadgeFollowsStatus | frontend/ImmoFrontend/src/pages/PropertyListPage.tsx:58-60 | active-only lists show no "Closed" badge; closed-only lists show it on every card |
| PropertyFilters.NumberOrZero | frontend/ImmoFrontend/src/components/PropertyFilters.tsx:73-74 | never NaN: the number of the text, or 0 |
| PropertyFilters.BasicPriceRangeSpec | frontend/ImmoFrontend/src/components/PropertyFilters.tsx:72-82 | the applied price range is the two inputs in ascending order |
| PropertyFilters.DropdownRoundTrip | frontend/ImmoFrontend/src/components/PropertyFilters.tsx:85-92 | ∞ and whole numbers survive the trip through the dropdown text |
| PropertyFilters.DropdownNonNumberIsZero | frontend/ImmoFrontend/src/components/PropertyFilters.tsx:88-92 | a non-number other than "NoMax" reads as 0 |
| PropertyFilters.CorrectedRangeSpec | frontend/ImmoFrontend/src/components/PropertyFilters.tsx:95-108 | the edited end becomes v; the other is pushed to max(v, old max) or min(v, old min), so the range stays ordered |
| PropertyFilters.CorrectedRangeKeepsOrder | frontend/ImmoFrontend/src/components/PropertyFilters.tsx:95-144 | an ordered range stays ordered |
| PropertyFilters.PricePerSqmKeepsOrder | frontend/ImmoFrontend/src/components/PropertyFilters.tsx:95-108 | the price-per-m² range stays ordered and its edited end is the selection |
| PropertyFilters.LivingRangeSpec | frontend/ImmoFrontend/src/components/PropertyFilters.tsx:111-128 | the living range is the new value and the other old end in ascending order, so the edit may land in the other slot |
| PropertyFilters.NaNRoomsMinimumIgnored | frontend/ImmoFrontend/src/components/PropertyFilters.tsx:131-144 | a non-numeric room minimum becomes NaN, so only the maximum filters |
| PropertyFilters.UpdatersTouchOneField | frontend/ImmoFrontend/src/components/PropertyFilters.tsx:78-144 | each updater changes only its own field |
| PropertyFilters.ComparisonRouting | frontend/ImmoFrontend/src/components/PropertyFilters.tsx:50-64 | in comparison mode updates go only to the parent handler, which applies them to set i alone |
| PropertyFilters.ContextRouting | frontend/ImmoFrontend/src/components/PropertyFilters.tsx:50-64 | outside comparison mode updates go to the shared context |
| PropertyFilters.FilterPanel.MinInput | frontend/ImmoFrontend/src/components/PropertyFilters.tsx:192-198 | a minimum above the maximum also raises the maximum text |
| PropertyFilters.FilterPanel.MaxInput | frontend/ImmoFrontend/src/components/PropertyFilters.tsx:211-217 | a maximum below the minimum also lowers the minimum text |
| PropertyFilters.FilterPanel.Apply | frontend/ImmoFrontend/src/components/PropertyFilters.tsx:72-82 | only the price range changes, to the inputs in ascending order |
| ImageGallery.StepsInRange | frontend/ImmoFrontend/src/components/ImageGallery.tsx:16-22 | next and previous stay in [0, len) and wrap at the ends |
| ImageGallery.StepsInverse | frontend/ImmoFrontend/src/components/ImageGallery.tsx:16-22 | next then previous, and previous then next, return to the start |
| ImageGallery.FullCycle | frontend/ImmoFrontend/src/components/ImageGallery.tsx:20-22 | len steps forward return to the start |
| ImageGallery.EmptyListLeavesRange | frontend/ImmoFrontend/src/components/ImageGallery.tsx:16-22 | with no images, previous gives -1 and next gives 1 |
| ImageGallery.ThumbnailSpec | frontend/ImmoFrontend/src/components/ImageGallery.tsx:31-39 | the thumbnail is the preview when truthy, else the first image; "+n more" shows exactly with navigation, n = len − 1 |
| ImageGallery.Gallery.Next | frontend/ImmoFrontend/src/components/ImageGallery.tsx:20-22 | the index steps forward with wrap-around and stays valid |
| ImageGallery.Gallery.Previous | frontend/ImmoFrontend/src/components/ImageGallery.tsx:16-18 | the index steps back with wrap-around and stays valid |
| ImageGallery.Gallery.Open | frontend/ImmoFrontend/src/components/ImageGallery.tsx:28 | clicking the thumbnail opens the gallery at the current index |
| DataUtils.SanitizeSpec | frontend/ImmoFrontend/src/utils/dataUtils.ts:19-42 | exactly the rows with a positive numeric price are kept, sanitised, in order |
| DataUtils.SanitizedFields | frontend/ImmoFrontend/src/utils/dataUtils.ts:28-41 | the numeric fields are kept when truthy and 0 otherwise; price, dates and texts are copied |
| DataUtils.SanitizeIdempotent | frontend/ImmoFrontend/src/utils/dataUtils.ts:19-42 | sanitising twice equals sanitising once |
| DataUtils.SortNumbers | frontend/ImmoFrontend/src/utils/dataUtils.ts:53 | the in-place sort permutes the array and orders it when no NaN is present |
| DataUtils.Median | frontend/ImmoFrontend/src/utils/dataUtils.ts:53 | the median is sorted[⌊n/2⌋] of a sorted permutation, none for no data |
| DataUtils.MedianBounds | frontend/ImmoFrontend/src/utils/dataUtils.ts:53-55 | min ≤ median ≤ max |
| DataUtils.CountKeys | frontend/ImmoFrontend/src/utils/dataUtils.ts:70-73 | the reduce loop computes the tally |
| DataUtils.TallyCounts | frontend/ImmoFrontend/src/utils/dataUtils.ts:70-73 | one key per distinct value, each counting its occurrences |
| DataUtils.TallyTotal | frontend/ImmoFrontend/src/utils/dataUtils.ts:70-73 | the counts add up to the number of values |
| DataUtils.DataStatistics | frontend/ImmoFrontend/src/utils/dataUtils.ts:44-76 | min and max are `Math.min`/`Math.max` of each column; each median is the element at ⌊n/2⌋ of a permutation of the column that is sorted when no value is NaN, none for no data, and lies between min and max; the room distribution counts each room value |
| App.CleanImageUrl | frontend/ImmoFrontend/src/App.tsx:12-29 | "" stays "", an unparsable URL is returned unchanged |
| App.CleanedSpec | frontend/ImmoFrontend/src/App.tsx:15-24 | address and fragment are kept; the query is `ci_seal=` and the decoded seal re-encoded by `URLSearchParams.toString()` exactly when a non-empty seal was present, and empty otherwise; it reads back as that seal and no other field |
| App.CleanedIdempotent | frontend/ImmoFrontend/src/App.tsx:15-24 | cleaning a cleaned URL record changes nothing |
| App.CleanImageUrlIdempotent | frontend/ImmoFrontend/src/App.tsx:12-29 | cleaning a cleaned URL text changes nothing when the URL reparses to its record |
| App.KeptImagesSpec | frontend/ImmoFrontend/src/App.tsx:42-50 | the kept images are the cleaned non-empty trimmed pieces holding "ci_seal", in order |
| App.ProcessImageDataSpec | frontend/ImmoFrontend/src/App.tsx:32-69 | the row keeps its fields, its Images are the kept list joined with ';', and allImages is the sealed preview followed by the kept images |
| App.CardSeesKeptImages | frontend/ImmoFrontend/src/App.tsx:63-68 | the list page splits the stored Images back into exactly the kept images |
| App.NoImagesWithoutSources | frontend/ImmoFrontend/src/App.tsx:37-58 | no preview and no Images text give no images at all |
| App.CommaDecimalCoordinate | frontend/ImmoFrontend/src/App.tsx:176-184 | "a,b" becomes the number a.b |
| App.CommaExponentText | frontend/ImmoFrontend/src/App.tsx:176-184 | "a,b" followed by an exponent part such as `e1` or `E-3` becomes a.b scaled by that power of ten, as `parseFloat` reads it |
| App.ExponentOf | frontend/ImmoFrontend/src/App.tsx:181 | `parseFloat` reads `e<k>` as a factor of ten to the k and `e-<k>` as ten to the -k |
| App.LeadingDecimalExponent | frontend/ImmoFrontend/src/App.tsx:181 | `parseFloat` reads digits, a point, digits and an exponent part as the decimal scaled by the exponent, and stops before what follows |
| App.CoordinateIdempotent | frontend/ImmoFrontend/src/App.tsx:176-184 | coordinate cleaning never leaves text, leaves every non-text value alone, and is idempotent |
| App.CleanedDataSpec | frontend/ImmoFrontend/src/App.tsx:190-215 | one row per row with a truthy non-NaN price and truthy coordinates, in order; apart from its preview and image list each loaded row is that input row |
| App.PropertyTypesSpec | frontend/ImmoFrontend/src/App.tsx:221-227 | the types are distinct truthy first words of descriptions, in first-seen order |
| App.OfferedTypeAdmitsItsRows | frontend/ImmoFrontend/src/App.tsx:221-227 | selecting a row's offered type keeps that row in the type filter |
| RoomAnalytics.RoomKeysSpec | frontend/ImmoFrontend/src/components/analytics/RoomAnalytics.tsx:25-27 | one key per row with truthy rooms, and only those |
| RoomAnalytics.RoomCounts | frontend/ImmoFrontend/src/components/analytics/RoomAnalytics.tsx:25-31 | the counts have one key per distinct room value, each counting its rows |
| RoomAnalytics.RoomDistributionSpec | frontend/ImmoFrontend/src/components/analytics/RoomAnalytics.tsx:33-38 | one "<n> Rooms" bar per distinct value with its count ≥ 1; the counts add up to the rows with rooms; sorted ascending when no label is NaN |
| RoomAnalytics.SortEntriesSorted | frontend/ImmoFrontend/src/components/analytics/RoomAnalytics.tsx:38 | the sort orders the bars by room number |
| RoomAnalytics.DistributionTotal | frontend/ImmoFrontend/src/components/analytics/RoomAnalytics.tsx:25-38 | the bar counts add up to the number of rows with rooms |
| RoomAnalytics.AvgRoomsSpec | frontend/ImmoFrontend/src/components/analytics/RoomAnalytics.tsx:40 | no data gives NaN; a row without rooms adds 0 to the sum but counts in the divisor |
| JsValues.MinOfBounds | frontend/ImmoFrontend/src/utils/dataUtils.ts:54 | without NaN, `Math.min` is an argument and no argument is below it |
| JsValues.MaxOfBounds | frontend/ImmoFrontend/src/utils/dataUtils.ts:55 | without NaN, `Math.max` is an argument and no argument is above it |
| Seqs.DedupeFirstOccurrenceOrder | lib/scraper.py:330 | removing duplicates keeps the first occurrences in their order |

## Findings

| source | as written | input that shows it | evidently intended | confidence | as-written member | corrected member |
|---|---|---|---|---|---|---|
| frontend/ImmoFrontend/src/components/HousingAnalytics.tsx:130-149 | `step = (max - min) / 10`, then each bucket index is `Math.floor((price - min) / step)` | a selection whose listings all have the same price, such as a single listing: the step is 0, every index is 0/0 = NaN, and the chart shows ten empty buckets | every listing of the selection counted, the equal prices in the first bucket | medium; not executed | HousingAnalytics.EqualPricesNotCounted | HousingAnalytics.CorrectedPricesAllCounted |

## Left out

- HTTP, sessions, headers and timeouts are not modelled. The network is a function parameter, and
  `time.sleep` is recorded as a list of waits, in units of the request delay.
- `RETRY_ATTEMPTS` is the constant `Scraper.RetryAttempts` (3), and waits are counted in units of
  `REQUEST_DELAY`. The configured search address is a `Site` field. The rest of `lib/config.py` and
  the logger are not part of this model.
- BeautifulSoup parsing is not modelled. Pages are given as already-parsed shapes. Text extraction is
  the element's text, and `strip()` is over the Python white-space set.
- JSON decoding of the GeoJSON group and `unquote` are not modelled. They are a decoder parameter.
  A failure the scraper catches (`JSONDecodeError`, `KeyError`) is the `Geometry` value `Ignored`,
  which leaves the coordinates unset. A document that is not a JSON object, or whose `geometry` is
  `null` or not an object, is `Malformed`: its `.get` raises `AttributeError`, which is not caught,
  so the detail fetch raises and the run exits with 1.
- `calculate_polygon_centroid` is a parameter. Its float arithmetic is not modelled.
- The Haversine distance and `new Date(...).getTime()` are not modelled. They are parameters of
  `FilterRules.Env`.
- CSV reading and writing are not modelled: `pd.read_csv`, `save_data`, checkpoint files and
  `_ensure_directories`. A store is "absent", "present and readable", or "present but unreadable".
- `Driver.LoadExistingData`: dates read back from the store are coerced with the ISO parser only.
  pandas' format inference for other layouts is not modelled.
- `fix_csv_data` is not part of this model. The fix-data flag is modelled only by its exit code, 0.
- `backup_database` does not exist in `lib/database.py`. A backup request on an existing store
  therefore raises `AttributeError`, and the run exits with 1, which is what `Driver.MainRun` does.
- `_add_derived_data` is not modelled, because its call is commented out and its body is cut off.
- The self-less copies of `clean_image_url` and `get_file_extension` inside `WebScraper` are not
  modelled, because nothing calls them.
- The averages of `get_statistics`, `getDataStatistics`, `priceStats` and the bucket labels are not
  modelled, because they are floating-point values only displayed.
- `DataProcessor.PricePerSqm`: the division is exact real division, not IEEE double rounding.
- `JsValues.ToText`: non-integral numbers are printed with a fixed number of fraction digits instead
  of JavaScript's shortest round-trip form. This matters only for the room labels of non-integral
  room counts.
- App.ParseFloat: the value is the exact decimal the text denotes. JavaScript rounds it to a
  double, so very long digit runs lose precision and an exponent beyond the double range gives
  `Infinity` or 0 in the browser but a finite, exact value here.
- `JsValues.StringToNumber`: decimal text with an optional sign and one point is modelled.
  Exponents, hexadecimal and binary literals are not.
- `RoomAnalytics.RoomDistributionSpec`: the sort is stated as ordering the bars only when no label
  reads as NaN. With a NaN label, JavaScript's comparator is inconsistent and no order is promised.
- The compiled `.js` twins of the front-end components are not modelled, because they duplicate the
  `.tsx` logic. JSX markup, styling, charts and the routing are not modelled either.
- The filter context, the status and date-range widgets, and the map radius widget are not modelled
  beyond the `Filters` value they produce.
- `streamlit_datavis.py` and `apptest.py` are outside the modelled core.
- Urls.CleanImageUrlParts: the read-back of the cleaned address is proved only for https addresses
  with a network location. For other schemes and for addresses without `//` the cleaning is
  modelled, but no lemma states what `urlparse` reads from its result.
- Urls.ParseUrl: `urlparse` and `urlunparse` are modelled as in Python 3.12.4 and later. Older
  versions write an address that has no network location differently (they add `//` for every
  scheme that uses one, and drop it before a path starting with `//`). Like `UrlJoin.Resolve`, it does
  not model the IPv6 and NFKC checks on the network location, so an address failing only those is
  cleaned instead of dropping the picture's images.
- RoomAnalytics.Entries: the bars are built in first-count order of the keys, not in the order of
  `Object.entries`, which puts integer-like keys first in ascending order. After the stable sort
  this changes only the order of bars whose sort keys tie or are NaN.
- `UrlJoin.Resolve`: the checks `urlsplit` makes on a bracketed host beyond pairing (the IPv6
  address validation) and the NFKC check on non-ASCII network locations are not modelled. A
  reference that fails only those checks is resolved instead of raising.
- Strings.IsDigit: digits are ASCII only. Python's `\d`, `int()` and `float()` also accept other
  Unicode decimal digits, and `int()` accepts '_' between digits. So ScraperPages.PyInt,
  Parsers.CleanPrice, Parsers.ExtractSqm, Parsers.ExtractRooms and Parsers.ExtractPlotSize read
  non-ASCII digits as no number.
- Driver.NewLinkOrder: the source visits the new links in the iteration order of a Python set, which
  depends on string hashing and is not fixed. The model visits them in order of first occurrence in
  the scraped table.
- Driver.LaterRunFetches: the fetch order it promises is first-occurrence order. The other orders a
  Python set may produce are not covered. Because the network answers by request index, under such
  an order a different link may fail or be cut off by an interrupt.
- FilterRules.TypeOk: a `Beschreibung` that is present but not text, such as a number, makes
  `?.startsWith` throw a `TypeError` in the browser. The model treats it as not matching the type
  filter, which is right only for `null` and `undefined`.
- App.FirstWords: a `Beschreibung` that is present but not text makes `?.split` throw. The model
  takes it as having no first word, which is right only for `null` and `undefined`.
- RoomAnalytics.RoomSum: a `Zimmer` cell that is a non-empty string turns `acc + (d.Zimmer || 0)`
  into string concatenation. The model converts the cell with `Number()` and adds, so the average
  of such data is not what the browser shows.
- JsValues.NumberText: integral numbers of magnitude 1e21 or more are written in full digits,
  whereas JavaScript writes them in exponent form.
