/**
 * The run driver of `main.py`: flags, loading the store, scraping, processing, the first run
 * and the incremental run with their detail fetches, and the exit codes.
 */
module Driver {
  import opened Wrappers
  import opened Seqs
  import opened Strings
  import opened Frames
  import opened Database
  import opened DataProcessor
  import opened ScraperPages
  import opened Scraper

  /** The two command-line flags `main` acts on. */
  datatype Args = Args(backup: bool, fixData: bool)

  /** The output file: whether it exists, and the table `pd.read_csv` reads from it (`None` when reading fails). */
  datatype Store = Store(present: bool, read: Option<Table>)

  /**
   * The outside world as the scraper meets it: the search network and page reader, the configured
   * search address, and the detail network with its page reader, JSON decoder and centroid.
   */
  datatype Site = Site(search: Network, parseSearch: string -> SearchPage, configured: string,
                       details: Network, parseDetail: string -> DetailPage, decode: string -> Geometry,
                       centroid: seq<(real, real)> -> (real, real))

  /** How a run ends: the exit code, the table saved (if any) and the detail pages requested, in order. */
  datatype Finish = Finish(code: int, saved: Option<Table>, fetched: seq<string>)

  // ---------------------------------------------------------------------------------------------
  // Loading and converting

  /** `load_existing_data`: the read table with the tracking columns and coerced dates, or the empty store table. */
  function LoadExisting(store: Store, today: int): Table
  {
    if !store.present || store.read.None? then CreateEmptyDataFrame()
    else DateColumns(AddMissing(store.read.value, TrackingDefaults(today)))
  }

  /** `load_existing_data` building a fresh frame. */
  method LoadExistingData(store: Store, today: int) returns (df: Frame)
    ensures fresh(df)
    ensures df.Value() == LoadExisting(store, today)
  {
    if !store.present || store.read.None? {
      df := new Frame(CreateEmptyDataFrame());
      return;
    }
    df := new Frame(store.read.value);
    EnsureTrackingColumns(df, today);
    df.MapColumnInPlace("created_date", CreatedOf);
    df.MapColumnInPlace("closed_date", ClosedOf);
  }

  /** A loaded store that has rows carries `closed_date`, the column `update_database` reads. */
  lemma LoadedColumns(store: Store, today: int)
    ensures var t := LoadExisting(store, today);
      && "closed_date" in t.columns && "created_date" in t.columns
      && (!store.present || store.read.None? ==> t.IsEmpty() && "Link" in t.columns)
      && (store.present && store.read.Some? ==>
            store.read.value.columns <= t.columns && |t.rows| == |store.read.value.rows|)
  {
    if store.present && store.read.Some? {
      var added := AddMissing(store.read.value, TrackingDefaults(today));
      TrackingColumnsPresent(store.read.value, today);
      DateShape(added);
    }
  }

  /** The columns of `pd.DataFrame(listings)`: the keys of a listing record, in order. */
  const ListingColumns: seq<string> := ["Link", "Preis", "Beschreibung", "Details", "Adresse", "Vorschaubild"]

  /** One listing record as a row; a missing preview is `None`. */
  function ListingRow(l: Listing): (r: Row)
    ensures forall c :: c in r <==> c in ListingColumns
  {
    map["Link" := Str(l.link), "Preis" := Str(l.price), "Beschreibung" := Str(l.description),
        "Details" := Str(l.details), "Adresse" := Str(l.address),
        "Vorschaubild" := if l.preview.Some? then Str(l.preview.value) else Null]
  }

  /** `pd.DataFrame(listings)`: one row per listing, in order. */
  function ListingsTable(ls: seq<Listing>): (t: Table)
    ensures t.columns == ListingColumns && |t.rows| == |ls|
    ensures forall i :: 0 <= i < |ls| ==> Get(t.rows[i], "Link") == Str(ls[i].link)
  {
    Table(ListingColumns, seq(|ls|, i requires 0 <= i < |ls| => ListingRow(ls[i])))
  }

  /** The frame `process_new_data` returns for some scraped listings. */
  function Processed(ls: seq<Listing>): Table
  {
    CleanColumns(AddMissing(ListingsTable(ls), RequiredDefaults()))
  }

  /** The processed frame keeps one row per listing and has every required column. */
  lemma ProcessedShape(ls: seq<Listing>)
    ensures var t := Processed(ls);
      && |t.rows| == |ls| && "Link" in t.columns
      && forall c :: c in RequiredColumns ==> c in t.columns
  {
    var added := AddMissing(ListingsTable(ls), RequiredDefaults());
    EnsureColumnsComplete(ListingsTable(ls));
    CleanColumnsShape(added);
    assert RequiredColumns[0] == "Link";
  }

  // ---------------------------------------------------------------------------------------------
  // Detail enrichment

  /** The address a link cell is requested at; a cell that is not text has no scheme and cannot be fetched. */
  function UrlOf(link: Cell): Option<string>
  {
    if link.Str? then Some(link.s) else None
  }

  /** The detail record a link gives as the `j`-th detail request; a link that is not text gives none. */
  function DetailFor(site: Site, link: Cell, j: nat): Outcome<Option<DetailInfo>>
  {
    var url := UrlOf(link);
    if url.None? then Ok(None)
    else DetailPageInfo(site.details, url.value, j, site.parseDetail, site.decode, site.centroid)
  }

  /** The detail record each iteration's fetch gives: by link and request number. */
  type Fetcher = (Cell, nat) -> Outcome<Option<DetailInfo>>

  /** The detail fetches of a site. */
  function DetailsOf(site: Site): Fetcher
  {
    (link: Cell, j: nat) => DetailFor(site, link, j)
  }

  /** The four columns a detail record is written to. */
  const DetailColumns: seq<string> := ["Features", "Vollständige_Adresse", "Latitude", "Longitude"]

  /** `details['latitude']` and `details['longitude']` as cells. */
  function LatitudeCell(p: Option<LatLon>): Cell
  {
    if p.Some? then Num(p.value.latitude) else Null
  }

  function LongitudeCell(p: Option<LatLon>): Cell
  {
    if p.Some? then Num(p.value.longitude) else Null
  }

  /** The value a detail record gives each of the four columns: the features joined with `"; "`, the address, the position. */
  function DetailCell(d: DetailInfo, c: string): Cell
  {
    if c == "Features" then Str(JoinWith(d.features, "; "))
    else if c == "Vollständige_Adresse" then Str(d.fullAddress)
    else if c == "Latitude" then LatitudeCell(d.coordinates)
    else LongitudeCell(d.coordinates)
  }

  /** The assignments of the columns `cs` of row `i`, in order, from a detail record. */
  function WriteCells(t: Table, i: nat, d: DetailInfo, cs: seq<string>): (r: Table)
    requires i < |t.rows|
    ensures |r.rows| == |t.rows|
    decreases |cs|
  {
    if cs == [] then t else WriteCells(SetCell(t, i, cs[0], DetailCell(d, cs[0])), i, d, cs[1..])
  }

  /** The four `.at` assignments a successful detail fetch makes on row `i`. */
  function WithDetails(t: Table, i: nat, d: DetailInfo): (r: Table)
    requires i < |t.rows|
    ensures |r.rows| == |t.rows|
  {
    WriteCells(t, i, d, DetailColumns)
  }

  /** The four `.at` assignments on row `i` of the frame. */
  method WriteDetails(df: Frame, i: nat, d: DetailInfo)
    requires i < |df.rows|
    modifies df
    ensures df.Value() == WithDetails(old(df.Value()), i, d)
  {
    ghost var cs := DetailColumns;
    df.SetCellInPlace(i, "Features", Str(JoinWith(d.features, "; ")));
    ghost var t1 := df.Value();
    df.SetCellInPlace(i, "Vollständige_Adresse", Str(d.fullAddress));
    ghost var t2 := df.Value();
    df.SetCellInPlace(i, "Latitude", LatitudeCell(d.coordinates));
    ghost var t3 := df.Value();
    df.SetCellInPlace(i, "Longitude", LongitudeCell(d.coordinates));
    assert df.Value() == WriteCells(t3, i, d, cs[3..]);
    assert df.Value() == WriteCells(t2, i, d, cs[2..]);
    assert df.Value() == WriteCells(t1, i, d, cs[1..]);
  }

  /** A record written into a row. */
  datatype Write = Write(row: nat, details: DetailInfo)

  /** The records written in turn. */
  function ApplyWrites(t: Table, ws: seq<Write>): (r: Table)
    requires forall k :: 0 <= k < |ws| ==> ws[k].row < |t.rows|
    ensures |r.rows| == |t.rows|
  {
    if ws == [] then t
    else
      var last := ws[|ws| - 1];
      WithDetails(ApplyWrites(t, ws[..|ws| - 1]), last.row, last.details)
  }

  /** One detail fetch of a loop: the row it may write and the link it requests. */
  datatype Target = Target(row: nat, link: Cell)

  /** What one iteration does: nothing, write a record, or end the run with an exit code. */
  datatype Effect = Nothing | Record(w: Write) | Halt(code: int)

  /**
   * The `j`-th iteration of a detail loop over a table of `n` rows. A `KeyboardInterrupt` during the fetch
   * ends the run with 130 and any exception of the fetch with 1; a fetch that gives no record changes
   * nothing; a record is written into the target row, and a target naming no row fails with 1,
   * as `.index[0]` on an empty selection does.
   */
  function Step(n: nat, tg: Target, j: nat, fetch: Fetcher, stop: Option<nat>): (e: Effect)
    ensures e.Record? ==> e.w.row < n
    ensures e.Halt? ==> e.code == 130 || e.code == 1
  {
    if stop == Some(j) then Halt(130)
    else
      match fetch(tg.link, j)
      case Ok(Some(d)) => if tg.row < n then Record(Write(tg.row, d)) else Halt(1)
      case Ok(None) => Nothing
      case _ => Halt(1)
  }

  /** The state of a detail loop: the exit code that ended it (if any), the records written and the links requested. */
  datatype Loop = Loop(ended: Option<int>, writes: seq<Write>, fetched: seq<string>)

  /** The link requested by a target, as text (`""` for a link that is not text). */
  function Requested(tg: Target): string
  {
    UrlOf(tg.link).GetOr("")
  }

  /** The first `k` iterations of a detail loop over `targets` on `n` rows, stopping at the first exception. */
  function Enriched(n: nat, targets: seq<Target>, fetch: Fetcher, stop: Option<nat>, k: nat): (p: Loop)
    requires k <= |targets|
    ensures forall m :: 0 <= m < |p.writes| ==> p.writes[m].row < n
    ensures |p.fetched| <= k && (p.ended.None? ==> |p.fetched| == k)
    ensures p.ended.Some? ==> 0 < |p.fetched| && (p.ended.value == 1 || p.ended.value == 130)
  {
    if k == 0 then Loop(None, [], [])
    else
      var p := Enriched(n, targets, fetch, stop, k - 1);
      if p.ended.Some? then p
      else
        var fetched := p.fetched + [Requested(targets[k - 1])];
        match Step(n, targets[k - 1], k - 1, fetch, stop)
        case Nothing => Loop(None, p.writes, fetched)
        case Record(w) => Loop(None, p.writes + [w], fetched)
        case Halt(code) => Loop(Some(code), p.writes, fetched)
  }

  /** Once an iteration raises, the loop has ended: later prefixes are the same. */
  lemma {:induction false} EnrichedHalts(n: nat, targets: seq<Target>, fetch: Fetcher, stop: Option<nat>, k: nat, m: nat)
    requires k <= m <= |targets|
    requires Enriched(n, targets, fetch, stop, k).ended.Some?
    ensures Enriched(n, targets, fetch, stop, m) == Enriched(n, targets, fetch, stop, k)
    decreases m
  {
    if m > k {
      EnrichedHalts(n, targets, fetch, stop, k, m - 1);
    }
  }

  /**
   * One iteration of a detail loop over a frame that holds the records `writes` written into `t0`:
   * fetch the target's link and write the record it gives.
   */
  method DetailStep(df: Frame, tg: Target, j: nat, fetch: Fetcher, stop: Option<nat>, ghost t0: Table, ghost writes: seq<Write>)
    returns (e: Effect)
    requires forall k :: 0 <= k < |writes| ==> writes[k].row < |t0.rows|
    requires df.Value() == ApplyWrites(t0, writes)
    modifies df
    ensures e == Step(|t0.rows|, tg, j, fetch, stop)
    ensures df.Value() == ApplyWrites(t0, if e.Record? then writes + [e.w] else writes)
  {
    if stop == Some(j) {
      return Halt(130);
    }
    var details := fetch(tg.link, j);
    if !details.Ok? {
      return Halt(1);
    }
    if details.value.None? {
      return Nothing;
    }
    if tg.row >= |df.rows| {
      return Halt(1);
    }
    e := Record(Write(tg.row, details.value.value));
    ApplyNext(t0, writes, e.w);
    WriteDetails(df, tg.row, details.value.value);
  }

  /** A detail loop over the frame, writing into it in place; the exit code when an exception ends it. */
  method FetchDetails(df: Frame, targets: seq<Target>, fetch: Fetcher, stop: Option<nat>)
    returns (halt: Option<int>, fetched: seq<string>)
    modifies df
    ensures var p := Enriched(|old(df.rows)|, targets, fetch, stop, |targets|);
      && halt == p.ended && fetched == p.fetched
      && (halt.None? ==> df.Value() == ApplyWrites(old(df.Value()), p.writes))
  {
    ghost var t0 := df.Value();
    ghost var writes: seq<Write> := [];
    var n := |df.rows|;
    fetched := [];
    var j := 0;
    while j < |targets|
      invariant 0 <= j <= |targets| && n == |t0.rows|
      invariant Enriched(n, targets, fetch, stop, j) == Loop(None, writes, fetched)
      invariant df.Value() == ApplyWrites(t0, writes)
    {
      var e := DetailStep(df, targets[j], j, fetch, stop, t0, writes);
      EnrichedNext(n, targets, fetch, stop, j, writes, fetched);
      fetched := fetched + [Requested(targets[j])];
      if e.Halt? {
        EnrichedHalts(n, targets, fetch, stop, j + 1, |targets|);
        return Some(e.code), fetched;
      }
      if e.Record? {
        writes := writes + [e.w];
      }
      j := j + 1;
    }
    return None, fetched;
  }

  /** One more iteration of a loop that has not ended. */
  lemma EnrichedNext(n: nat, targets: seq<Target>, fetch: Fetcher, stop: Option<nat>, j: nat,
                     writes: seq<Write>, fetched: seq<string>)
    requires j < |targets|
    requires Enriched(n, targets, fetch, stop, j) == Loop(None, writes, fetched)
    ensures var fetched' := fetched + [Requested(targets[j])];
      Enriched(n, targets, fetch, stop, j + 1) ==
        match Step(n, targets[j], j, fetch, stop)
        case Nothing => Loop(None, writes, fetched')
        case Record(w) => Loop(None, writes + [w], fetched')
        case Halt(code) => Loop(Some(code), writes, fetched')
  {
  }

  /** One more record written. */
  lemma ApplyNext(t: Table, ws: seq<Write>, w: Write)
    requires forall k :: 0 <= k < |ws| ==> ws[k].row < |t.rows|
    requires w.row < |t.rows|
    ensures ApplyWrites(t, ws + [w]) == WithDetails(ApplyWrites(t, ws), w.row, w.details)
  {
    assert (ws + [w])[..|ws|] == ws;
  }

  /** The first run's loop: every row in order, each requesting its own link. */
  function RowTargets(t: Table): (ts: seq<Target>)
    ensures |ts| == |t.rows|
    ensures forall i :: 0 <= i < |ts| ==> ts[i] == Target(i, Get(t.rows[i], "Link"))
  {
    seq(|t.rows|, i requires 0 <= i < |t.rows| => Target(i, Get(t.rows[i], "Link")))
  }

  /** `new_df[new_df['Link'] == link].index[0]`: the first row with the link, `|rows|` when there is none. */
  function RowOf(links: seq<Cell>, link: Cell): (i: nat)
    ensures i <= |links|
    ensures i < |links| <==> link in links
    ensures i < |links| ==> links[i] == link && forall j :: 0 <= j < i ==> links[j] != link
  {
    if link in links then
      forall j | 0 <= j < FirstIndex(links, link)
        ensures links[j] != link
      {
        FirstIndexIsFirst(links, link, j);
      }
      FirstIndex(links, link)
    else |links|
  }

  /**
   * The new links in the order the incremental loop visits them. The source iterates a Python set,
   * whose order is not fixed; the model takes the order of first occurrence in the scraped table.
   */
  function NewLinkOrder(t: Table, newLinks: set<Cell>): seq<Cell>
  {
    Dedupe(Filter(Links(t.rows), l => l in newLinks))
  }

  /** The incremental run's loop: each new link once, writing its first row. */
  function NewTargets(t: Table, newLinks: set<Cell>): (ts: seq<Target>)
    ensures |ts| == |NewLinkOrder(t, newLinks)|
    ensures forall j :: 0 <= j < |ts| ==>
      ts[j] == Target(RowOf(Links(t.rows), NewLinkOrder(t, newLinks)[j]), NewLinkOrder(t, newLinks)[j])
  {
    var order := NewLinkOrder(t, newLinks);
    seq(|order|, j requires 0 <= j < |order| => Target(RowOf(Links(t.rows), order[j]), order[j]))
  }

  // ---------------------------------------------------------------------------------------------
  // The run

  /** The first run's detail loop, on the frame stamped with today's `created_date`. */
  function FirstLoop(stamped: Table, fetch: Fetcher, stop: Option<nat>): Loop
  {
    Enriched(|stamped.rows|, RowTargets(stamped), fetch, stop, |stamped.rows|)
  }

  /** The first run: every row stamped with today's `created_date`, then one detail fetch per row, then saved. */
  function FirstRun(df: Table, fetch: Fetcher, stop: Option<nat>, today: int): Finish
  {
    var stamped := SetColumn(df, "created_date", Day(today));
    var p := FirstLoop(stamped, fetch, stop);
    if p.ended.None? then Finish(0, Some(ApplyWrites(stamped, p.writes)), p.fetched)
    else Finish(p.ended.value, None, p.fetched)
  }

  /** A later run's detail loop: one iteration per new link. */
  function LaterLoop(df: Table, newLinks: set<Cell>, fetch: Fetcher, stop: Option<nat>): Loop
  {
    var targets := NewTargets(df, newLinks);
    Enriched(|df.rows|, targets, fetch, stop, |targets|)
  }

  /**
   * A later run: compare, one detail fetch per new link, then `update_database` and save.
   * A stored table with rows but no `Link` column fails in `update_database`.
   */
  function LaterRun(existing: Table, df: Table, fetch: Fetcher, stop: Option<nat>, today: int): Finish
  {
    var cmp := CompareListings(existing, df);
    var p := LaterLoop(df, cmp.newLinks, fetch, stop);
    if p.ended.Some? then Finish(p.ended.value, None, p.fetched)
    else if !existing.IsEmpty() && "Link" !in existing.columns then Finish(1, None, p.fetched)
    else Finish(0, Some(Merge(existing, LaterEnriched(df, cmp.newLinks, fetch, stop), cmp, today)), p.fetched)
  }

  /** The scraped frame after a later run's detail loop: the frame handed to `update_database`. */
  function LaterEnriched(df: Table, newLinks: set<Cell>, fetch: Fetcher, stop: Option<nat>): Table
  {
    ApplyWrites(df, LaterLoop(df, newLinks, fetch, stop).writes)
  }

  /** `main()`: how a run with these flags, store, site, interruption point and day ends. */
  function MainRun(args: Args, store: Store, site: Site, stop: Option<nat>, today: int): Finish
  {
    if args.backup && store.present then Finish(1, None, [])
    else if args.fixData then Finish(0, None, [])
    else
      AfterScrape(Scrape(site.search, site.parseSearch, SearchBase(None, site.configured)), store, DetailsOf(site), stop, today)
  }

  /** The run once the listings are scraped: none ends it, else the first or a later run on the processed frame. */
  function AfterScrape(listings: seq<Listing>, store: Store, fetch: Fetcher, stop: Option<nat>, today: int): Finish
  {
    if listings == [] then Finish(1, None, [])
    else if !store.present then FirstRun(Processed(listings), fetch, stop, today)
    else LaterRun(LoadExisting(store, today), Processed(listings), fetch, stop, today)
  }

  /** The first-run branch of `main()` on the processed frame. */
  method RunFirst(df: Frame, fetch: Fetcher, stop: Option<nat>, today: int)
    returns (code: int, saved: Option<Table>, fetched: seq<string>)
    modifies df
    ensures Finish(code, saved, fetched) == FirstRun(old(df.Value()), fetch, stop, today)
  {
    df.SetColumnInPlace("created_date", Day(today));
    var halt;
    halt, fetched := FetchDetails(df, RowTargets(df.Value()), fetch, stop);
    if halt.Some? {
      return halt.value, None, fetched;
    }
    return 0, Some(df.Value()), fetched;
  }

  /** The incremental branch of `main()`: the stored frame and the processed frame. */
  method RunLater(existing: Frame, df: Frame, fetch: Fetcher, stop: Option<nat>, today: int)
    returns (code: int, saved: Option<Table>, fetched: seq<string>)
    requires existing != df
    requires "closed_date" in existing.columns && "Link" in df.columns
    modifies existing, df
    ensures Finish(code, saved, fetched) == LaterRun(old(existing.Value()), old(df.Value()), fetch, stop, today)
  {
    var cmp := CompareListings(existing.Value(), df.Value());
    var targets := NewTargets(df.Value(), cmp.newLinks);
    fetched := [];
    if cmp.newLinks != {} {
      var halt;
      halt, fetched := FetchDetails(df, targets, fetch, stop);
      if halt.Some? {
        return halt.value, None, fetched;
      }
    } else {
      NoNewLinksNoTargets(df.Value());
    }
    if !existing.Value().IsEmpty() && "Link" !in existing.columns {
      return 1, None, fetched;
    }
    ApplyColumns(old(df.Value()), LaterLoop(old(df.Value()), cmp.newLinks, fetch, stop).writes);
    var merged := UpdateDatabase(existing, df, cmp, today);
    return 0, Some(merged.Value()), fetched;
  }

  /**
   * `main()`. A backup request on an existing store fails, as `DatabaseHandler` has no `backup_database`;
   * `--fix-data` ends the run at once.
   */
  method Run(args: Args, store: Store, site: Site, stop: Option<nat>, today: int)
    returns (code: int, saved: Option<Table>, fetched: seq<string>)
    ensures Finish(code, saved, fetched) == MainRun(args, store, site, stop, today)
  {
    if args.backup && store.present {
      return 1, None, [];
    }
    if args.fixData {
      return 0, None, [];
    }
    var existing := LoadExistingData(store, today);
    var listings := ScrapeAllListings(site.search, site.parseSearch, None, site.configured);
    code, saved, fetched := RunScraped(existing, listings, store, DetailsOf(site), stop, today);
  }

  /** `process_new_data(pd.DataFrame(listings))`. */
  method ProcessListings(listings: seq<Listing>) returns (df: Frame)
    ensures fresh(df)
    ensures df.Value() == Processed(listings)
    ensures "Link" in df.columns
  {
    var current := new Frame(ListingsTable(listings));
    df := ProcessNewData(current);
    ProcessedShape(listings);
  }

  /** `main()` after loading the store and scraping. */
  method RunScraped(existing: Frame, listings: seq<Listing>, store: Store, fetch: Fetcher, stop: Option<nat>, today: int)
    returns (code: int, saved: Option<Table>, fetched: seq<string>)
    requires existing.Value() == LoadExisting(store, today)
    modifies existing
    ensures Finish(code, saved, fetched) == AfterScrape(listings, store, fetch, stop, today)
  {
    if listings == [] {
      return 1, None, [];
    }
    var df := ProcessListings(listings);
    if !store.present {
      assert AfterScrape(listings, store, fetch, stop, today) == FirstRun(df.Value(), fetch, stop, today);
      code, saved, fetched := RunFirst(df, fetch, stop, today);
    } else {
      assert AfterScrape(listings, store, fetch, stop, today) == LaterRun(existing.Value(), df.Value(), fetch, stop, today);
      LoadedColumns(store, today);
      code, saved, fetched := RunLater(existing, df, fetch, stop, today);
    }
  }

  lemma NoNewLinksNoTargets(t: Table)
    ensures NewLinkOrder(t, {}) == []
  {
    FilterElements(Links(t.rows), l => l in {});
  }

  /** Writing records only adds columns. */
  lemma {:induction false} ApplyColumns(t: Table, ws: seq<Write>)
    requires forall k :: 0 <= k < |ws| ==> ws[k].row < |t.rows|
    ensures t.columns <= ApplyWrites(t, ws).columns
  {
    if ws != [] {
      var init := ws[..|ws| - 1];
      ApplyColumns(t, init);
      var last := ws[|ws| - 1];
      WithDetailsColumns(ApplyWrites(t, init), last.row, last.details);
    }
  }

  lemma WithDetailsColumns(t: Table, i: nat, d: DetailInfo)
    requires i < |t.rows|
    ensures t.columns <= WithDetails(t, i, d).columns
  {
    WriteCellsColumns(t, i, d, DetailColumns);
  }

  lemma {:induction false} WriteCellsColumns(t: Table, i: nat, d: DetailInfo, cs: seq<string>)
    requires i < |t.rows|
    ensures t.columns <= WriteCells(t, i, d, cs).columns
    decreases |cs|
  {
    if cs != [] {
      var next := SetCell(t, i, cs[0], DetailCell(d, cs[0]));
      SetCellColumns(t, i, cs[0], DetailCell(d, cs[0]));
      WriteCellsColumns(next, i, d, cs[1..]);
    }
  }

  // ---------------------------------------------------------------------------------------------
  // What the detail loops write

  /** The record a fetch outcome gives, when it gives one. */
  function Written(o: Outcome<Option<DetailInfo>>): Option<DetailInfo>
  {
    if o.Ok? then o.value else None
  }

  /** The last record written into row `i`, if any. */
  function LastWrite(ws: seq<Write>, i: nat): Option<DetailInfo>
  {
    if ws == [] then None
    else if ws[|ws| - 1].row == i then Some(ws[|ws| - 1].details)
    else LastWrite(ws[..|ws| - 1], i)
  }

  /** Writing the columns `cs` of row `i` sets those cells of that row and no other cell. */
  lemma {:induction false} WriteCellsCell(t: Table, i: nat, d: DetailInfo, cs: seq<string>, j: nat, c: string)
    requires i < |t.rows| && j < |t.rows|
    ensures Get(WriteCells(t, i, d, cs).rows[j], c) == if j == i && c in cs then DetailCell(d, c) else Get(t.rows[j], c)
    decreases |cs|
  {
    if cs != [] {
      var v := DetailCell(d, cs[0]);
      SetCellCells(t, i, cs[0], v);
      WriteCellsCell(SetCell(t, i, cs[0], v), i, d, cs[1..], j, c);
      assert c in cs <==> c == cs[0] || c in cs[1..];
    }
  }

  /** A successful fetch sets the four detail cells of its row and no other cell. */
  lemma WithDetailsCell(t: Table, i: nat, d: DetailInfo, j: nat, c: string)
    requires i < |t.rows| && j < |t.rows|
    ensures Get(WithDetails(t, i, d).rows[j], c) == if j == i && c in DetailColumns then DetailCell(d, c) else Get(t.rows[j], c)
  {
    WriteCellsCell(t, i, d, DetailColumns, j, c);
  }

  /** After a sequence of writes, a detail cell holds the last record written into its row; every other cell is unchanged. */
  lemma {:induction false} ApplyCell(t: Table, ws: seq<Write>, j: nat, c: string)
    requires forall k :: 0 <= k < |ws| ==> ws[k].row < |t.rows|
    requires j < |t.rows|
    ensures Get(ApplyWrites(t, ws).rows[j], c) ==
      if c in DetailColumns && LastWrite(ws, j).Some? then DetailCell(LastWrite(ws, j).value, c) else Get(t.rows[j], c)
  {
    if ws != [] {
      var init := ws[..|ws| - 1];
      var last := ws[|ws| - 1];
      ApplyCell(t, init, j, c);
      WithDetailsCell(ApplyWrites(t, init), last.row, last.details, j, c);
    }
  }

  /** A detail loop requests the targets' links in order. */
  lemma {:induction false} EnrichedFetched(n: nat, targets: seq<Target>, fetch: Fetcher, stop: Option<nat>, k: nat)
    requires k <= |targets|
    ensures var p := Enriched(n, targets, fetch, stop, k);
      forall m :: 0 <= m < |p.fetched| ==> p.fetched[m] == Requested(targets[m])
  {
    if k > 0 {
      EnrichedFetched(n, targets, fetch, stop, k - 1);
      EnrichedOne(n, targets, fetch, stop, k);
    }
  }

  /** A loop that has ended was ended by the iteration of its last request. */
  lemma {:induction false} EnrichedEnds(n: nat, targets: seq<Target>, fetch: Fetcher, stop: Option<nat>, k: nat)
    requires k <= |targets|
    ensures var p := Enriched(n, targets, fetch, stop, k);
      p.ended.Some? ==> Step(n, targets[|p.fetched| - 1], |p.fetched| - 1, fetch, stop) == Halt(p.ended.value)
  {
    if k > 0 {
      EnrichedEnds(n, targets, fetch, stop, k - 1);
      EnrichedOne(n, targets, fetch, stop, k);
    }
  }

  /** The requests and the exit of a loop after one more iteration. */
  lemma EnrichedOne(n: nat, targets: seq<Target>, fetch: Fetcher, stop: Option<nat>, k: nat)
    requires 0 < k <= |targets|
    ensures var p := Enriched(n, targets, fetch, stop, k - 1);
      var e := Step(n, targets[k - 1], k - 1, fetch, stop);
      var q := Enriched(n, targets, fetch, stop, k);
      && q.fetched == (if p.ended.None? then p.fetched + [Requested(targets[k - 1])] else p.fetched)
      && q.ended == (if p.ended.Some? then p.ended else if e.Halt? then Some(e.code) else None)
  {
  }

  /** An iteration ends the run with 130 only when interrupted, and with 1 only when its fetch raised or its row is missing. */
  lemma StepEnds(n: nat, tg: Target, j: nat, fetch: Fetcher, stop: Option<nat>)
    ensures var e := Step(n, tg, j, fetch, stop);
      var o := fetch(tg.link, j);
      && (e == Halt(130) ==> stop == Some(j))
      && (e == Halt(1) ==> stop != Some(j) && (!o.Ok? || (o.value.Some? && tg.row >= n)))
  {
  }

  /** No two targets of a loop write the same row. */
  predicate DistinctRows(targets: seq<Target>)
  {
    forall a, b :: 0 <= a < b < |targets| ==> targets[a].row != targets[b].row
  }

  /** The records of a loop grow by the record of its last iteration, if it wrote one. */
  lemma EnrichedWrites(n: nat, targets: seq<Target>, fetch: Fetcher, stop: Option<nat>, k: nat)
    requires 0 < k <= |targets|
    ensures var p := Enriched(n, targets, fetch, stop, k - 1);
      var e := Step(n, targets[k - 1], k - 1, fetch, stop);
      Enriched(n, targets, fetch, stop, k).writes == if p.ended.None? && e.Record? then p.writes + [e.w] else p.writes
  {
  }

  /** A record an iteration writes goes to its target's row and is the record its fetch gave. */
  lemma StepRecord(n: nat, tg: Target, j: nat, fetch: Fetcher, stop: Option<nat>)
    ensures var e := Step(n, tg, j, fetch, stop);
      && (e.Record? ==> e.w.row == tg.row && Written(fetch(tg.link, j)) == Some(e.w.details))
      && (e.Nothing? ==> Written(fetch(tg.link, j)) == None)
  {
  }

  lemma LastWriteAppend(ws: seq<Write>, w: Write, i: nat)
    ensures LastWrite(ws + [w], i) == if w.row == i then Some(w.details) else LastWrite(ws, i)
  {
    assert (ws + [w])[..|ws|] == ws;
  }

  /** A row that no target names is never written. */
  lemma {:induction false} EnrichedNoWrite(n: nat, targets: seq<Target>, fetch: Fetcher, stop: Option<nat>, k: nat, i: nat)
    requires k <= |targets|
    requires forall m :: 0 <= m < k ==> targets[m].row != i
    ensures LastWrite(Enriched(n, targets, fetch, stop, k).writes, i) == None
  {
    if k > 0 {
      EnrichedNoWrite(n, targets, fetch, stop, k - 1, i);
      EnrichedWrites(n, targets, fetch, stop, k);
      var p := Enriched(n, targets, fetch, stop, k - 1);
      var e := Step(n, targets[k - 1], k - 1, fetch, stop);
      if p.ended.None? && e.Record? {
        StepRecord(n, targets[k - 1], k - 1, fetch, stop);
        LastWriteAppend(p.writes, e.w, i);
      }
    }
  }

  /** In a loop that ran to its end, the row of target `m` holds the record of the `m`-th fetch, if it gave one. */
  lemma {:induction false} EnrichedWrite(n: nat, targets: seq<Target>, fetch: Fetcher, stop: Option<nat>, k: nat, m: nat)
    requires m < k <= |targets|
    requires DistinctRows(targets)
    requires Enriched(n, targets, fetch, stop, k).ended.None?
    ensures LastWrite(Enriched(n, targets, fetch, stop, k).writes, targets[m].row) == Written(fetch(targets[m].link, m))
  {
    var p := Enriched(n, targets, fetch, stop, k - 1);
    var e := Step(n, targets[k - 1], k - 1, fetch, stop);
    EnrichedWrites(n, targets, fetch, stop, k);
    StepRecord(n, targets[k - 1], k - 1, fetch, stop);
    if m == k - 1 {
      EnrichedNoWrite(n, targets, fetch, stop, k - 1, targets[m].row);
    } else {
      EnrichedWrite(n, targets, fetch, stop, k - 1, m);
    }
    if e.Record? {
      LastWriteAppend(p.writes, e.w, targets[m].row);
    }
  }

  // ---------------------------------------------------------------------------------------------
  // What a run does

  /** The first run requests every row's link in row order, and all of them when it ends with 0. */
  lemma FirstRunFetches(df: Table, fetch: Fetcher, stop: Option<nat>, today: int)
    ensures var f := FirstRun(df, fetch, stop, today);
      && |f.fetched| <= |df.rows|
      && (forall m :: 0 <= m < |f.fetched| ==> f.fetched[m] == UrlOf(Get(df.rows[m], "Link")).GetOr(""))
      && (f.code == 0 ==> |f.fetched| == |df.rows|)
  {
    var stamped := SetColumn(df, "created_date", Day(today));
    EnrichedFetched(|stamped.rows|, RowTargets(stamped), fetch, stop, |stamped.rows|);
  }

  /** The first run saves exactly when it ends with 0; otherwise it ends with 1, or with 130 at an interruption of its last request. */
  lemma FirstRunEnds(df: Table, fetch: Fetcher, stop: Option<nat>, today: int)
    ensures var f := FirstRun(df, fetch, stop, today);
      && (f.code == 0 || f.code == 1 || f.code == 130)
      && (f.code == 0 <==> f.saved.Some?)
      && (f.code == 130 ==> stop == Some(|f.fetched| - 1))
  {
    FirstLoopEnds(SetColumn(df, "created_date", Day(today)), fetch, stop);
  }

  /** The first run's loop, when it stops early, stops with 1 or with 130 at an interruption of its last request. */
  lemma FirstLoopEnds(stamped: Table, fetch: Fetcher, stop: Option<nat>)
    ensures var p := FirstLoop(stamped, fetch, stop);
      p.ended.Some? ==> (p.ended.value == 1 || p.ended.value == 130)
                        && (p.ended.value == 130 ==> stop == Some(|p.fetched| - 1))
  {
    LoopEnds(|stamped.rows|, RowTargets(stamped), fetch, stop, |stamped.rows|);
  }

  /** A loop that stops early stops with 1 or with 130, and with 130 only when its last request was interrupted. */
  lemma LoopEnds(n: nat, targets: seq<Target>, fetch: Fetcher, stop: Option<nat>, k: nat)
    requires k <= |targets|
    ensures var p := Enriched(n, targets, fetch, stop, k);
      p.ended.Some? ==> (p.ended.value == 1 || p.ended.value == 130)
                        && (p.ended.value == 130 ==> stop == Some(|p.fetched| - 1))
  {
    var p := Enriched(n, targets, fetch, stop, k);
    EnrichedEnds(n, targets, fetch, stop, k);
    if p.ended.Some? {
      var m := |p.fetched| - 1;
      StepEnds(n, targets[m], m, fetch, stop);
    }
  }

  /**
   * The table the first run saves: every row stamped with today's `created_date`, the detail cells of
   * each row from the fetch of its own link, and every other cell as processed.
   */
  lemma FirstRunCell(df: Table, fetch: Fetcher, stop: Option<nat>, today: int, i: nat, c: string)
    requires i < |df.rows|
    requires FirstRun(df, fetch, stop, today).code == 0
    ensures var saved := FirstRun(df, fetch, stop, today).saved;
      var d := Written(fetch(Get(df.rows[i], "Link"), i));
      && saved.Some? && |saved.value.rows| == |df.rows| && df.columns <= saved.value.columns
      && Get(saved.value.rows[i], c) ==
           if c in DetailColumns && d.Some? then DetailCell(d.value, c)
           else if c == "created_date" then Day(today)
           else Get(df.rows[i], c)
  {
    var stamped := SetColumn(df, "created_date", Day(today));
    var n := |stamped.rows|;
    var targets := RowTargets(stamped);
    var p := FirstLoop(stamped, fetch, stop);
    assert DistinctRows(targets);
    EnrichedWrite(n, targets, fetch, stop, n, i);
    ApplyCell(stamped, p.writes, i, c);
    ApplyColumns(stamped, p.writes);
  }

  /** The new links in visiting order: each once, exactly the new links present in the table. */
  lemma NewLinkOrderFacts(t: Table, newLinks: set<Cell>)
    ensures var order := NewLinkOrder(t, newLinks);
      && NoDup(order)
      && forall l :: l in order <==> l in newLinks && l in Links(t.rows)
  {
    var links := Links(t.rows);
    var kept := Filter(links, l => l in newLinks);
    FilterElements(links, l => l in newLinks);
    DedupeElements(kept);
    forall l | l in newLinks && l in links
      ensures l in NewLinkOrder(t, newLinks)
    {
      var i :| 0 <= i < |links| && links[i] == l;
      assert links[i] in kept;
      var j :| 0 <= j < |kept| && kept[j] == l;
    }
  }

  /** The new links of a comparison all appear in the scraped table. */
  lemma NewLinksPresent(existing: Table, df: Table)
    ensures forall l :: l in CompareListings(existing, df).newLinks ==> l in Links(df.rows)
  {
    var links := Links(df.rows);
    forall l | l in CompareListings(existing, df).newLinks
      ensures l in links
    {
      assert l in LinkValues(df.rows);
      var i :| 0 <= i < |df.rows| && Get(df.rows[i], "Link") == l;
      assert links[i] == l;
    }
  }

  /** The incremental loop's targets write distinct rows: the first rows of distinct links. */
  lemma NewTargetsDistinct(t: Table, newLinks: set<Cell>)
    ensures DistinctRows(NewTargets(t, newLinks))
  {
    var order := NewLinkOrder(t, newLinks);
    NewLinkOrderFacts(t, newLinks);
    var targets := NewTargets(t, newLinks);
    forall a, b | 0 <= a < b < |targets|
      ensures targets[a].row != targets[b].row
    {
      assert order[a] in order && order[b] in order;
      assert order[a] != order[b];
    }
  }

  /** The new links in visiting order: each new link once, and no closed or unchanged link. */
  lemma LaterOrder(existing: Table, df: Table)
    ensures var cmp := CompareListings(existing, df);
      var order := NewLinkOrder(df, cmp.newLinks);
      && NoDup(order)
      && (forall l :: l in order <==> l in cmp.newLinks)
      && (forall l :: l in cmp.closedLinks + cmp.unchangedLinks ==> l !in order)
  {
    NewLinkOrderFacts(df, CompareListings(existing, df).newLinks);
    NewLinksPresent(existing, df);
  }

  /**
   * A later run requests the detail pages of the new links in visiting order, and all of them
   * when it ends with 0.
   */
  lemma LaterRunFetches(existing: Table, df: Table, fetch: Fetcher, stop: Option<nat>, today: int)
    ensures var cmp := CompareListings(existing, df);
      var order := NewLinkOrder(df, cmp.newLinks);
      var f := LaterRun(existing, df, fetch, stop, today);
      && |f.fetched| <= |order|
      && (forall m :: 0 <= m < |f.fetched| ==> f.fetched[m] == UrlOf(order[m]).GetOr(""))
      && (f.code == 0 || f.code == 1 || f.code == 130)
      && (f.saved.Some? <==> f.code == 0)
      && (f.code == 0 ==> |f.fetched| == |order|)
      && (f.code == 130 ==> stop == Some(|f.fetched| - 1))
  {
    var targets := NewTargets(df, CompareListings(existing, df).newLinks);
    var p := Enriched(|df.rows|, targets, fetch, stop, |targets|);
    EnrichedFetched(|df.rows|, targets, fetch, stop, |targets|);
    EnrichedEnds(|df.rows|, targets, fetch, stop, |targets|);
    if p.ended.Some? {
      var m := |p.fetched| - 1;
      StepEnds(|df.rows|, targets[m], m, fetch, stop);
    }
  }

  /**
   * The frame a later run hands to `update_database`: the detail cells of the first row of each new link
   * hold the record of that link's fetch, if it gave one; every other cell is as scraped.
   */
  lemma LaterRunCell(existing: Table, df: Table, fetch: Fetcher, stop: Option<nat>, i: nat, c: string)
    requires i < |df.rows|
    requires LaterLoop(df, CompareListings(existing, df).newLinks, fetch, stop).ended.None?
    ensures var cmp := CompareListings(existing, df);
      var link := Get(df.rows[i], "Link");
      var m := RowOf(NewLinkOrder(df, cmp.newLinks), link);
      var d := Written(fetch(link, m));
      var t := LaterEnriched(df, cmp.newLinks, fetch, stop);
      && |t.rows| == |df.rows| && df.columns <= t.columns
      && Get(t.rows[i], c) ==
           if c in DetailColumns && link in cmp.newLinks && RowOf(Links(df.rows), link) == i && d.Some?
           then DetailCell(d.value, c)
           else Get(df.rows[i], c)
  {
    var cmp := CompareListings(existing, df);
    var links := Links(df.rows);
    var link := links[i];
    var order := NewLinkOrder(df, cmp.newLinks);
    var targets := NewTargets(df, cmp.newLinks);
    var n := |df.rows|;
    var p := LaterLoop(df, cmp.newLinks, fetch, stop);
    NewLinkOrderFacts(df, cmp.newLinks);
    NewLinksPresent(existing, df);
    ApplyCell(df, p.writes, i, c);
    ApplyColumns(df, p.writes);
    if link in cmp.newLinks && RowOf(links, link) == i {
      var m := RowOf(order, link);
      NewTargetsDistinct(df, cmp.newLinks);
      EnrichedWrite(n, targets, fetch, stop, |targets|, m);
    } else {
      forall m | 0 <= m < |targets|
        ensures targets[m].row != i
      {
        assert order[m] in order;
      }
      EnrichedNoWrite(n, targets, fetch, stop, |targets|, i);
    }
  }

  /**
   * The run after scraping: no listings fail with 1 before anything is saved or fetched; otherwise the
   * run saves exactly when it ends with 0, and ends otherwise with 1, or with 130 at an interruption.
   */
  lemma AfterScrapeEnds(listings: seq<Listing>, store: Store, fetch: Fetcher, stop: Option<nat>, today: int)
    ensures var f := AfterScrape(listings, store, fetch, stop, today);
      && (listings == [] ==> f == Finish(1, None, []))
      && (f.code == 0 || f.code == 1 || f.code == 130)
      && (f.code == 130 ==> stop.Some?)
      && (f.saved.Some? <==> f.code == 0)
  {
    if listings != [] {
      if store.present {
        LaterRunFetches(LoadExisting(store, today), Processed(listings), fetch, stop, today);
      } else {
        FirstRunEnds(Processed(listings), fetch, stop, today);
      }
    }
  }

  /**
   * How `main()` ends: a backup request on an existing store fails with 1 and `--fix-data` ends with 0,
   * both before scraping; a scrape without listings fails with 1 before anything is saved or fetched;
   * otherwise the run ends with 0 and a saved table, with 1, or with 130 at an interruption.
   */
  lemma MainRunExits(args: Args, store: Store, site: Site, stop: Option<nat>, today: int)
    ensures var f := MainRun(args, store, site, stop, today);
      var listings := Scrape(site.search, site.parseSearch, SearchBase(None, site.configured));
      && (args.backup && store.present ==> f == Finish(1, None, []))
      && (args.fixData && !(args.backup && store.present) ==> f == Finish(0, None, []))
      && (!args.fixData && listings == [] ==> f.code == 1 && f.saved.None? && f.fetched == [])
      && (f.code == 0 || f.code == 1 || f.code == 130)
      && (f.code == 130 ==> stop.Some?)
      && (f.saved.Some? ==> f.code == 0 && !args.fixData && listings != [])
      && (f.code == 0 && !args.fixData ==> f.saved.Some?)
  {
    var listings := Scrape(site.search, site.parseSearch, SearchBase(None, site.configured));
    AfterScrapeEnds(listings, store, DetailsOf(site), stop, today);
  }
}
