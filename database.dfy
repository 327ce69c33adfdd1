/**
 * The listing store (`DatabaseHandler`): which listings are new, which have closed, and how
 * the stored table absorbs a fresh scrape. `today` stands for the handler's `current_date`.
 */
module Database {
  import opened Seqs
  import opened Frames

  /** The columns of a store created from nothing: what a scrape yields, then what the store adds. */
  const StoreColumns: seq<string> := ScrapedColumns + TrackedColumns

  const ScrapedColumns: seq<string> := [
    "Link", "Preis", "Beschreibung", "Details", "Adresse",
    "Features", "Vollständige_Adresse", "Latitude", "Longitude"
  ]

  const TrackedColumns: seq<string> := [
    "created_date", "closed_date", "Preis_cleaned", "Wohnfläche",
    "Grundstücksfläche", "Zimmer", "Preis_pro_qm"
  ]

  /** `_create_empty_dataframe`: no rows, the sixteen store columns, each once. */
  function CreateEmptyDataFrame(): (t: Table)
    ensures t.IsEmpty() && |t.rows| == 0
    ensures |t.columns| == 16 && NoDup(t.columns)
    ensures "Link" in t.columns && "created_date" in t.columns && "closed_date" in t.columns
  {
    StoreColumnsDistinct();
    assert StoreColumns[0] == "Link" && StoreColumns[9] == "created_date" && StoreColumns[10] == "closed_date";
    EmptyTable(StoreColumns)
  }

  lemma StoreColumnsDistinct()
    ensures NoDup(StoreColumns)
  {
    ScrapedColumnsDistinct();
    TrackedColumnsDistinct();
    ScrapedNotTracked();
    NoDupAppend(ScrapedColumns, TrackedColumns);
  }

  lemma ScrapedColumnsDistinct()
    ensures NoDup(ScrapedColumns)
  {
  }

  lemma TrackedColumnsDistinct()
    ensures NoDup(TrackedColumns)
  {
  }

  lemma ScrapedNotTracked()
    ensures forall i, j :: 0 <= i < |ScrapedColumns| && 0 <= j < |TrackedColumns| ==> ScrapedColumns[i] != TrackedColumns[j]
  {
  }

  /** The columns `_ensure_tracking_columns` adds when missing, with their defaults, in its order. */
  function TrackingDefaults(today: int): (ds: seq<(string, Cell)>)
    ensures NoDup(Names(ds))
  {
    [ ("created_date", Day(today)), ("closed_date", Null), ("Features", Null),
      ("Vollständige_Adresse", Null), ("Latitude", Null), ("Longitude", Null),
      ("Preis_cleaned", Null), ("Wohnfläche", Null), ("Grundstücksfläche", Null),
      ("Zimmer", Null), ("Preis_pro_qm", Null) ]
  }

  /** `_ensure_tracking_columns(df)`: adds each missing tracking column to the caller's frame. */
  method EnsureTrackingColumns(df: Frame, today: int)
    modifies df
    ensures df.Value() == AddMissing(old(df.Value()), TrackingDefaults(today))
  {
    df.AddMissingInPlace(TrackingDefaults(today));
  }

  /** After `_ensure_tracking_columns` every tracking column exists; `created_date` is `today` where it was added. */
  lemma TrackingColumnsPresent(t: Table, today: int)
    ensures var r := AddMissing(t, TrackingDefaults(today));
      && "created_date" in r.columns && "closed_date" in r.columns && "Zimmer" in r.columns
      && t.columns <= r.columns
      && (forall i, c :: 0 <= i < |t.rows| && c in t.columns ==> Get(r.rows[i], c) == Get(t.rows[i], c))
      && ("created_date" !in t.columns ==> forall i :: 0 <= i < |t.rows| ==> Get(r.rows[i], "created_date") == Day(today))
      && ("closed_date" !in t.columns ==> forall i :: 0 <= i < |t.rows| ==> Get(r.rows[i], "closed_date") == Null)
  {
    var ds := TrackingDefaults(today);
    TrackingDefaultsAt(today);
    AddMissingAt(t, ds, 0);
    AddMissingAt(t, ds, 1);
    AddMissingAt(t, ds, 9);
  }

  lemma TrackingDefaultsAt(today: int)
    ensures |TrackingDefaults(today)| == 11
    ensures TrackingDefaults(today)[0] == ("created_date", Day(today))
    ensures TrackingDefaults(today)[1] == ("closed_date", Null)
    ensures TrackingDefaults(today)[9].0 == "Zimmer"
  {
  }

  /** The set of links of some rows. */
  function LinkValues(rows: seq<Row>): (links: set<Cell>)
    ensures forall i :: 0 <= i < |rows| ==> Get(rows[i], "Link") in links
  {
    set i | 0 <= i < |rows| :: Get(rows[i], "Link")
  }

  /** The links of a table as `compare_listings` sees them: none without a `Link` column or rows. */
  function LinkSet(t: Table): (links: set<Cell>)
    ensures "Link" !in t.columns || t.IsEmpty() ==> links == {}
    ensures "Link" in t.columns && !t.IsEmpty() ==> links == LinkValues(t.rows)
  {
    if "Link" !in t.columns || t.IsEmpty() then {} else LinkValues(t.rows)
  }

  /** The three link sets `compare_listings` returns. */
  datatype Comparison = Comparison(newLinks: set<Cell>, closedLinks: set<Cell>, unchangedLinks: set<Cell>)

  /** `compare_listings`: new, closed and unchanged links partition the links of both tables. */
  function CompareListings(existing: Table, current: Table): (r: Comparison)
    ensures r.newLinks !! r.closedLinks && r.newLinks !! r.unchangedLinks && r.closedLinks !! r.unchangedLinks
    ensures r.newLinks + r.unchangedLinks == LinkSet(current)
    ensures r.closedLinks + r.unchangedLinks == LinkSet(existing)
    ensures r.newLinks + r.closedLinks + r.unchangedLinks == LinkSet(existing) + LinkSet(current)
  {
    var e := LinkSet(existing);
    var c := LinkSet(current);
    Comparison(c - e, e - c, e * c)
  }

  /** The closing step: `today` in `closed_date` for each row whose link closed and whose `closed_date` is null. */
  function CloseRows(rows: seq<Row>, closed: set<Cell>, today: int): (r: seq<Row>)
    ensures |r| == |rows|
    ensures forall i, c :: 0 <= i < |rows| && c != "closed_date" ==> Get(r[i], c) == Get(rows[i], c)
    ensures forall i :: 0 <= i < |rows| ==>
      Get(r[i], "closed_date") ==
        if Get(rows[i], "Link") in closed && Get(rows[i], "closed_date") == Null then Day(today)
        else Get(rows[i], "closed_date")
  {
    if rows == [] then []
    else
      var row := rows[0];
      var row' := if Get(row, "Link") in closed && Get(row, "closed_date") == Null then row["closed_date" := Day(today)] else row;
      [row'] + CloseRows(rows[1..], closed, today)
  }

  function CloseMissing(t: Table, closed: set<Cell>, today: int): (r: Table)
    ensures r.columns == t.columns
  {
    Table(t.columns, CloseRows(t.rows, closed, today))
  }

  /** The rows of the scrape whose link is new, stamped with `created_date` = today. */
  function NewEntries(incoming: Table, newLinks: set<Cell>, today: int): Table
  {
    SetColumn(Select(incoming, r => Get(r, "Link") in newLinks), "created_date", Day(today))
  }

  /** The table `update_database` returns. */
  function Merge(existing: Table, incoming: Table, cmp: Comparison, today: int): Table
  {
    if existing.IsEmpty() then SetColumn(incoming, "created_date", Day(today))
    else
      var closed := CloseMissing(existing, cmp.closedLinks, today);
      if cmp.newLinks != {} then Concat(closed, NewEntries(incoming, cmp.newLinks, today))
      else closed
  }

  /**
   * `update_database`. With an empty store the scrape's own frame is stamped and returned.
   * Otherwise the stored frame is closed in place and a new frame holds it followed by the new entries.
   */
  method UpdateDatabase(existing: Frame, incoming: Frame, cmp: Comparison, today: int) returns (merged: Frame)
    requires existing != incoming
    requires !existing.Value().IsEmpty() ==> "Link" in existing.columns && "closed_date" in existing.columns
    requires !existing.Value().IsEmpty() && cmp.newLinks != {} ==> "Link" in incoming.columns
    modifies existing, incoming
    ensures merged.Value() == Merge(old(existing.Value()), old(incoming.Value()), cmp, today)
    ensures old(existing.Value()).IsEmpty() ==> merged == incoming && existing.Value() == old(existing.Value())
    ensures !old(existing.Value()).IsEmpty() ==>
      fresh(merged)
      && existing.Value() == CloseMissing(old(existing.Value()), cmp.closedLinks, today)
      && incoming.Value() == old(incoming.Value())
  {
    if existing.Value().IsEmpty() {
      incoming.SetColumnInPlace("created_date", Day(today));
      merged := incoming;
      return;
    }
    existing.rows := CloseRows(existing.rows, cmp.closedLinks, today);
    if cmp.newLinks != {} {
      var entries := NewEntries(incoming.Value(), cmp.newLinks, today);
      merged := new Frame(Concat(existing.Value(), entries));
    } else {
      merged := new Frame(existing.Value());
    }
  }

  /** Closing twice changes nothing the second time, whatever day the second run has. */
  lemma {:induction false} CloseIdempotent(rows: seq<Row>, closed: set<Cell>, d1: int, d2: int)
    ensures CloseRows(CloseRows(rows, closed, d1), closed, d2) == CloseRows(rows, closed, d1)
  {
    if rows != [] {
      CloseIdempotent(rows[1..], closed, d1, d2);
      var once := CloseRows(rows, closed, d1);
      assert once[1..] == CloseRows(rows[1..], closed, d1);
      var row := once[0];
      assert !(Get(row, "Link") in closed && Get(row, "closed_date") == Null);
    }
  }

  /**
   * The layout of an incremental merge: the stored rows first, in order, changed only in
   * `closed_date`; then exactly the scraped rows with a new link, in scrape order, stamped today.
   */
  lemma MergeLayout(existing: Table, incoming: Table, cmp: Comparison, today: int)
    requires !existing.IsEmpty()
    ensures var m := Merge(existing, incoming, cmp, today);
      var added := Filter(incoming.rows, r => Get(r, "Link") in cmp.newLinks);
      && existing.columns <= m.columns
      && |m.rows| == |existing.rows| + (if cmp.newLinks == {} then 0 else |added|)
      && m.rows[..|existing.rows|] == CloseRows(existing.rows, cmp.closedLinks, today)
      && (cmp.newLinks != {} ==> forall j, c :: 0 <= j < |added| ==>
            Get(m.rows[|existing.rows| + j], c) == if c == "created_date" then Day(today) else Get(added[j], c))
      && (cmp.newLinks == {} ==> m == CloseMissing(existing, cmp.closedLinks, today))
  {
    var m := Merge(existing, incoming, cmp, today);
    if cmp.newLinks != {} {
      var closed := CloseMissing(existing, cmp.closedLinks, today);
      var entries := NewEntries(incoming, cmp.newLinks, today);
      assert m.rows == closed.rows + entries.rows;
      assert m.rows[..|existing.rows|] == closed.rows;
      forall j | 0 <= j < |entries.rows|
        ensures m.rows[|existing.rows| + j] == entries.rows[j]
      {
      }
    }
  }

  /** With an empty store the scrape is kept whole, each row stamped with today's `created_date`. */
  lemma FirstRunStampsAll(existing: Table, incoming: Table, cmp: Comparison, today: int)
    requires existing.IsEmpty()
    ensures var m := Merge(existing, incoming, cmp, today);
      && |m.rows| == |incoming.rows| && "created_date" in m.columns
      && forall i, c :: 0 <= i < |m.rows| ==>
           Get(m.rows[i], c) == if c == "created_date" then Day(today) else Get(incoming.rows[i], c)
  {
  }

  /** The links of the rows, in order. */
  function Links(rows: seq<Row>): (ls: seq<Cell>)
    ensures |ls| == |rows| && forall i :: 0 <= i < |rows| ==> ls[i] == Get(rows[i], "Link")
  {
    seq(|rows|, i requires 0 <= i < |rows| => Get(rows[i], "Link"))
  }

  /** The rows of an incremental merge that adds rows: the closed store, then the stamped new rows. */
  lemma MergeRows(existing: Table, incoming: Table, cmp: Comparison, today: int)
    requires !existing.IsEmpty() && cmp.newLinks != {}
    ensures Merge(existing, incoming, cmp, today).rows ==
      CloseRows(existing.rows, cmp.closedLinks, today)
      + SetAll(Filter(incoming.rows, r => Get(r, "Link") in cmp.newLinks), "created_date", Day(today))
  {
  }

  lemma LinkValuesAppend(a: seq<Row>, b: seq<Row>)
    ensures LinkValues(a + b) == LinkValues(a) + LinkValues(b)
  {
    forall l | l in LinkValues(a + b)
      ensures l in LinkValues(a) + LinkValues(b)
    {
      var i :| 0 <= i < |a + b| && Get((a + b)[i], "Link") == l;
      if i >= |a| {
        assert Get(b[i - |a|], "Link") == l;
      }
    }
    forall l | l in LinkValues(a)
      ensures l in LinkValues(a + b)
    {
      var i :| 0 <= i < |a| && Get(a[i], "Link") == l;
      assert (a + b)[i] == a[i];
    }
    forall l | l in LinkValues(b)
      ensures l in LinkValues(a + b)
    {
      var i :| 0 <= i < |b| && Get(b[i], "Link") == l;
      assert (a + b)[|a| + i] == b[i];
    }
  }

  /** Neither closing nor stamping touches a link. */
  lemma LinksKept(rows: seq<Row>, closed: set<Cell>, today: int)
    ensures Links(CloseRows(rows, closed, today)) == Links(rows)
    ensures Links(SetAll(rows, "created_date", Day(today))) == Links(rows)
    ensures LinkValues(CloseRows(rows, closed, today)) == LinkValues(rows)
    ensures LinkValues(SetAll(rows, "created_date", Day(today))) == LinkValues(rows)
  {
    var c := CloseRows(rows, closed, today);
    var s := SetAll(rows, "created_date", Day(today));
    assert forall i :: 0 <= i < |rows| ==> Get(c[i], "Link") == Get(rows[i], "Link");
    assert forall i :: 0 <= i < |rows| ==> Get(s[i], "Link") == Get(rows[i], "Link");
    assert Links(c) == Links(rows);
    assert Links(s) == Links(rows);
  }

  /** Selecting the rows whose link lies in `links` keeps exactly those links. */
  lemma LinkValuesFilter(rows: seq<Row>, links: set<Cell>)
    ensures LinkValues(Filter(rows, r => Get(r, "Link") in links)) == LinkValues(rows) * links
  {
    var p := (r: Row) => Get(r, "Link") in links;
    var f := Filter(rows, p);
    FilterElements(rows, p);
    forall l | l in LinkValues(rows) * links
      ensures l in LinkValues(f)
    {
      var i :| 0 <= i < |rows| && Get(rows[i], "Link") == l;
      assert rows[i] in f;
      var j :| 0 <= j < |f| && f[j] == rows[i];
    }
    forall l | l in LinkValues(f)
      ensures l in LinkValues(rows) * links
    {
      var j :| 0 <= j < |f| && Get(f[j], "Link") == l;
      assert f[j] in rows;
      var i :| 0 <= i < |rows| && rows[i] == f[j];
    }
  }

  /** Filtering rows by their link keeps the links distinct when they were distinct. */
  lemma FilterKeepsLinksDistinct(rows: seq<Row>, links: set<Cell>)
    requires NoDup(Links(rows))
    ensures NoDup(Links(Filter(rows, r => Get(r, "Link") in links)))
  {
    FilterIsSubsequence(rows, r => Get(r, "Link") in links);
    SubsequenceKeepsLinksDistinct(Filter(rows, r => Get(r, "Link") in links), rows);
  }

  /** Deleting rows keeps the links distinct when they were distinct. */
  lemma {:induction false} SubsequenceKeepsLinksDistinct(a: seq<Row>, b: seq<Row>)
    requires IsSubsequence(a, b) && NoDup(Links(b))
    ensures NoDup(Links(a))
    decreases |b|
  {
    if a != [] {
      assert Links(b[1..]) == Links(b)[1..];
      if a[0] == b[0] && IsSubsequence(a[1..], b[1..]) {
        SubsequenceKeepsLinksDistinct(a[1..], b[1..]);
        HeadLinkFresh(a, b);
        assert Links(a) == [Get(a[0], "Link")] + Links(a[1..]);
        NoDupCons(Get(a[0], "Link"), Links(a[1..]));
      } else {
        SubsequenceKeepsLinksDistinct(a, b[1..]);
      }
    }
  }

  /** The first kept row's link does not occur among the later kept rows. */
  lemma HeadLinkFresh(a: seq<Row>, b: seq<Row>)
    requires a != [] && b != [] && a[0] == b[0] && IsSubsequence(a[1..], b[1..]) && NoDup(Links(b))
    ensures Get(a[0], "Link") !in Links(a[1..])
  {
    SubsequenceMembers(a[1..], b[1..]);
    forall j | 0 <= j < |a| - 1
      ensures Links(a[1..])[j] != Get(a[0], "Link")
    {
      var k :| 0 <= k < |b| - 1 && b[1..][k] == a[1..][j];
      assert Links(b)[k + 1] == Links(a[1..])[j];
    }
  }

  /**
   * With distinct links in the store and in the scrape, and the comparison of the two, the merged
   * table has distinct links too (the merge itself does not remove duplicates).
   */
  lemma MergeKeepsLinksDistinct(existing: Table, incoming: Table, today: int)
    requires "Link" in existing.columns && !existing.IsEmpty()
    requires NoDup(Links(existing.rows)) && NoDup(Links(incoming.rows))
    ensures NoDup(Links(Merge(existing, incoming, CompareListings(existing, incoming), today).rows))
  {
    var cmp := CompareListings(existing, incoming);
    var closed := CloseRows(existing.rows, cmp.closedLinks, today);
    LinksKept(existing.rows, cmp.closedLinks, today);
    if cmp.newLinks != {} {
      var added := Filter(incoming.rows, r => Get(r, "Link") in cmp.newLinks);
      MergeRows(existing, incoming, cmp, today);
      FilterKeepsLinksDistinct(incoming.rows, cmp.newLinks);
      LinksKept(added, {}, today);
      NewEntryLinks(incoming, LinkSet(existing), today);
      LinksAppendDistinct(closed, SetAll(added, "created_date", Day(today)));
    }
  }

  /** Two row lists with distinct links and no link in common concatenate with distinct links. */
  lemma LinksAppendDistinct(a: seq<Row>, b: seq<Row>)
    requires NoDup(Links(a)) && NoDup(Links(b)) && LinkValues(a) !! LinkValues(b)
    ensures NoDup(Links(a + b))
  {
    assert Links(a + b) == Links(a) + Links(b);
    forall i, j | 0 <= i < |a| && 0 <= j < |b|
      ensures Links(a)[i] != Links(b)[j]
    {
      assert Links(a)[i] in LinkValues(a) && Links(b)[j] in LinkValues(b);
    }
    NoDupAppend(Links(a), Links(b));
  }

  /** The links of the merged table are those of both tables. */
  lemma MergeLinks(existing: Table, incoming: Table, today: int)
    requires "Link" in existing.columns && !existing.IsEmpty()
    ensures var m := Merge(existing, incoming, CompareListings(existing, incoming), today);
      "Link" in m.columns && !m.IsEmpty() && LinkValues(m.rows) == LinkSet(existing) + LinkSet(incoming)
  {
    var cmp := CompareListings(existing, incoming);
    LinksKept(existing.rows, cmp.closedLinks, today);
    if cmp.newLinks != {} {
      MergeRows(existing, incoming, cmp, today);
      NewEntryLinks(incoming, LinkSet(existing), today);
      LinkValuesAppend(CloseRows(existing.rows, cmp.closedLinks, today),
        SetAll(Filter(incoming.rows, r => Get(r, "Link") in cmp.newLinks), "created_date", Day(today)));
    }
  }

  /** The stamped rows of the scrape whose link is not in `known` carry exactly the scrape's other links. */
  lemma NewEntryLinks(incoming: Table, known: set<Cell>, today: int)
    requires LinkSet(incoming) - known != {}
    ensures var unseen := LinkSet(incoming) - known;
      LinkValues(SetAll(Filter(incoming.rows, r => Get(r, "Link") in unseen), "created_date", Day(today)))
      == LinkSet(incoming) - known
  {
    var unseen := LinkSet(incoming) - known;
    var added := Filter(incoming.rows, r => Get(r, "Link") in unseen);
    LinksKept(added, {}, today);
    LinkValuesFilter(incoming.rows, unseen);
    assert LinkSet(incoming) == LinkValues(incoming.rows);
  }

  /**
   * Absorbing the same scrape a second time changes nothing: no link is new any more, and every
   * link that closed already carries a `closed_date`.
   */
  lemma MergeTwiceStable(existing: Table, incoming: Table, d1: int, d2: int)
    requires "Link" in existing.columns && "closed_date" in existing.columns && !existing.IsEmpty()
    ensures var m1 := Merge(existing, incoming, CompareListings(existing, incoming), d1);
      Merge(m1, incoming, CompareListings(m1, incoming), d2) == m1
  {
    var cmp := CompareListings(existing, incoming);
    var m1 := Merge(existing, incoming, cmp, d1);
    MergeLinks(existing, incoming, d1);
    var cmp2 := CompareListings(m1, incoming);
    assert LinkSet(m1) == LinkSet(existing) + LinkSet(incoming);
    assert cmp2.newLinks == {};
    assert cmp2.closedLinks == cmp.closedLinks;
    MergeStaysClosed(existing, incoming, d1, d2);
  }

  /** Closing the merged rows again, on a later day, finds nothing left to close. */
  lemma MergeStaysClosed(existing: Table, incoming: Table, d1: int, d2: int)
    requires !existing.IsEmpty()
    ensures var cmp := CompareListings(existing, incoming);
      var m1 := Merge(existing, incoming, cmp, d1);
      CloseRows(m1.rows, cmp.closedLinks, d2) == m1.rows
  {
    var cmp := CompareListings(existing, incoming);
    var closed := CloseRows(existing.rows, cmp.closedLinks, d1);
    CloseIdempotent(existing.rows, cmp.closedLinks, d1, d2);
    if cmp.newLinks != {} {
      var added := Filter(incoming.rows, r => Get(r, "Link") in cmp.newLinks);
      var entries := SetAll(added, "created_date", Day(d1));
      MergeRows(existing, incoming, cmp, d1);
      forall j | 0 <= j < |entries|
        ensures Get(entries[j], "Link") !in cmp.closedLinks
      {
        assert Get(entries[j], "Link") == Get(added[j], "Link");
        assert Get(added[j], "Link") in cmp.newLinks;
      }
      CloseAppendNotClosed(closed, entries, cmp.closedLinks, d2);
    }
  }

  /** Closing leaves alone rows whose links did not close, and works row by row. */
  lemma {:induction false} CloseAppendNotClosed(a: seq<Row>, b: seq<Row>, closed: set<Cell>, today: int)
    requires CloseRows(a, closed, today) == a
    requires forall j :: 0 <= j < |b| ==> Get(b[j], "Link") !in closed
    ensures CloseRows(a + b, closed, today) == a + b
  {
    if a == [] {
      assert a + b == b;
      CloseUntouched(b, closed, today);
    } else {
      assert (a + b)[1..] == a[1..] + b;
      assert CloseRows(a, closed, today)[1..] == CloseRows(a[1..], closed, today);
      CloseAppendNotClosed(a[1..], b, closed, today);
    }
  }

  lemma {:induction false} CloseUntouched(rows: seq<Row>, closed: set<Cell>, today: int)
    requires forall j :: 0 <= j < |rows| ==> Get(rows[j], "Link") !in closed
    ensures CloseRows(rows, closed, today) == rows
  {
    if rows != [] {
      CloseUntouched(rows[1..], closed, today);
    }
  }

  /** The counts of `get_statistics` (its averages are not part of this model). */
  datatype Statistics = Statistics(total: nat, active: nat, closed: nat, newToday: nat, closedToday: nat)

  /** `get_statistics`: active rows have no `closed_date`, closed rows have one; together they are all rows. */
  function GetStatistics(t: Table, today: int): (s: Statistics)
    ensures s.total == |t.rows|
    ensures s.active + s.closed == s.total
    ensures s.closedToday <= s.closed && s.newToday <= s.total
    ensures s.active == |set i | 0 <= i < |t.rows| && Get(t.rows[i], "closed_date") == Null|
    ensures s.closed == |set i | 0 <= i < |t.rows| && Get(t.rows[i], "closed_date") != Null|
    ensures s.newToday == |set i | 0 <= i < |t.rows| && Get(t.rows[i], "created_date") == Day(today)|
    ensures s.closedToday == |set i | 0 <= i < |t.rows| && Get(t.rows[i], "closed_date") == Day(today)|
  {
    var isNull := (c: Cell) => c == Null;
    var notNull := (c: Cell) => !isNull(c);
    var isToday := (c: Cell) => c == Day(today);
    CountWhereComplement(t.rows, "closed_date", isNull);
    CountWhereImplies(t.rows, "closed_date", isToday, notNull);
    CountWhereRows(t.rows, "closed_date", isNull);
    CountWhereRows(t.rows, "closed_date", notNull);
    CountWhereRows(t.rows, "created_date", isToday);
    CountWhereRows(t.rows, "closed_date", isToday);
    assert Where(t.rows, "closed_date", isNull) == set i | 0 <= i < |t.rows| && Get(t.rows[i], "closed_date") == Null;
    assert Where(t.rows, "closed_date", notNull) == set i | 0 <= i < |t.rows| && Get(t.rows[i], "closed_date") != Null;
    assert Where(t.rows, "created_date", isToday) == set i | 0 <= i < |t.rows| && Get(t.rows[i], "created_date") == Day(today);
    assert Where(t.rows, "closed_date", isToday) == set i | 0 <= i < |t.rows| && Get(t.rows[i], "closed_date") == Day(today);
    Statistics(
      |t.rows|,
      CountWhere(t.rows, "closed_date", isNull),
      CountWhere(t.rows, "closed_date", notNull),
      CountWhere(t.rows, "created_date", isToday),
      CountWhere(t.rows, "closed_date", isToday))
  }

  /** A stricter test counts no more rows. */
  lemma {:induction false} CountWhereImplies(rows: seq<Row>, c: string, p: Cell -> bool, q: Cell -> bool)
    requires forall x :: p(x) ==> q(x)
    ensures CountWhere(rows, c, p) <= CountWhere(rows, c, q)
  {
    if rows != [] {
      CountWhereImplies(rows[1..], c, p, q);
    }
  }
}
