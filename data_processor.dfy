/**
 * The row normalisation of the scraped table: every required column is made to exist, the
 * parsers fill the numeric columns, the price per square metre is derived, missing addresses
 * get a placeholder and the date columns are read as days.
 */
module DataProcessor {
  import opened Wrappers
  import opened Seqs
  import opened Frames
  import opened Parsers
  import opened Dates

  /** The sixteen columns every processed table has. */
  const RequiredColumns: seq<string> := [
    "Link", "Preis", "Beschreibung", "Details", "Adresse",
    "Features", "Vollständige_Adresse", "Latitude", "Longitude",
    "created_date", "closed_date", "Preis_cleaned", "Wohnfläche",
    "Grundstücksfläche", "Zimmer", "Preis_pro_qm"
  ]

  /** `_ensure_columns` as (column, default) pairs: every required column, defaulting to `None`. */
  function RequiredDefaults(): (ds: seq<(string, Cell)>)
    ensures Names(ds) == RequiredColumns
    ensures forall k :: 0 <= k < |ds| ==> ds[k].1 == Null
    ensures NoDup(Names(ds))
  {
    seq(|RequiredColumns|, k requires 0 <= k < |RequiredColumns| => (RequiredColumns[k], Null))
  }

  /** `_ensure_columns(df)`: adds each missing required column, filled with `None`, to the caller's frame. */
  method EnsureColumns(df: Frame)
    modifies df
    ensures df.Value() == AddMissing(old(df.Value()), RequiredDefaults())
  {
    df.AddMissingInPlace(RequiredDefaults());
  }

  /**
   * After `_ensure_columns` every required column exists; the columns that were there keep their
   * cells and each added column is `None` in every row.
   */
  lemma EnsureColumnsComplete(t: Table)
    ensures var r := AddMissing(t, RequiredDefaults());
      && (forall c :: c in RequiredColumns ==> c in r.columns)
      && t.columns <= r.columns
      && (forall c :: c in r.columns ==> c in t.columns || c in RequiredColumns)
      && |r.rows| == |t.rows|
      && (forall i, c :: 0 <= i < |t.rows| && c in t.columns ==> Get(r.rows[i], c) == Get(t.rows[i], c))
      && (forall i, c :: 0 <= i < |t.rows| && c in RequiredColumns && c !in t.columns ==> Get(r.rows[i], c) == Null)
  {
    var ds := RequiredDefaults();
    var r := AddMissing(t, ds);
    forall c | c in RequiredColumns
      ensures c in r.columns
    {
      var k :| 0 <= k < |RequiredColumns| && RequiredColumns[k] == c;
      assert ds[k].0 == c;
    }
    forall i, c | 0 <= i < |t.rows| && c in RequiredColumns && c !in t.columns
      ensures Get(r.rows[i], c) == Null
    {
      var k :| 0 <= k < |RequiredColumns| && RequiredColumns[k] == c;
      assert ds[k].0 == c && ds[k].1 == Null;
    }
  }

  /** A parser's `float` or `None` as a cell of a float column (`None` is stored as NaN). */
  function FloatCell(o: Option<real>): (c: Cell)
    ensures o.None? <==> c.Null?
    ensures o.Some? ==> c == Num(o.value)
  {
    match o
    case None => Null
    case Some(x) => Num(x)
  }

  /**
   * The row function of `Preis_pro_qm`: the cleaned price over the living space when both are
   * present and the living space is positive, else `None`. The division is exact.
   */
  function PricePerSqm(row: Row): (c: Cell)
    ensures !c.Null? <==>
      Get(row, "Preis_cleaned").Num? && Get(row, "Wohnfläche").Num? && Get(row, "Wohnfläche").x > 0.0
    ensures !c.Null? ==> c.Num? && c.x * Get(row, "Wohnfläche").x == Get(row, "Preis_cleaned").x
  {
    match (Get(row, "Preis_cleaned"), Get(row, "Wohnfläche"))
    case (Num(p), Num(a)) => if a > 0.0 then Num(p / a) else Null
    case _ => Null
  }

  /** The price per square metre of a parsed price and a parsed living space. */
  function PerSqm(price: Option<real>, area: Option<real>): Cell
  {
    if price.Some? && area.Some? && area.value > 0.0 then Num(price.value / area.value) else Null
  }

  /** On a row holding the parsed price and living space, `PricePerSqm` divides the two. */
  lemma PricePerSqmOfParsed(row: Row, price: Option<real>, area: Option<real>)
    requires Get(row, "Preis_cleaned") == FloatCell(price) && Get(row, "Wohnfläche") == FloatCell(area)
    ensures PricePerSqm(row) == PerSqm(price, area)
  {
  }

  /** `fillna('Keine Adresse')` on one cell. */
  function FillAddress(c: Cell): (r: Cell)
    ensures c.Null? ==> r == Str("Keine Adresse")
    ensures !c.Null? ==> r == c
  {
    if c.Null? then Str("Keine Adresse") else c
  }

  /**
   * `pd.to_datetime(..., format='%Y-%m-%d', errors='coerce')` on one cell: a day stays a day, an ISO
   * date text becomes its day, and everything else becomes NaT instead of failing.
   */
  function CoerceDate(c: Cell): (r: Cell)
    ensures r.Null? || r.Day?
    ensures c.Day? ==> r == c
    ensures c.Str? ==> r == match ParseIsoDate(c.s) case Some(d) => Day(d) case None => Null
    ensures !c.Str? && !c.Day? ==> r.Null?
  {
    match c
    case Day(_) => c
    case Str(s) => (match ParseIsoDate(s) case Some(d) => Day(d) case None => Null)
    case _ => Null
  }

  /** The columns `_clean_data` reads before writing them; a missing one raises `KeyError`. */
  const ReadColumns: seq<string> := ["Preis", "Details", "Vollständige_Adresse", "created_date", "closed_date"]

  /** The columns `_clean_data` writes, in its order. */
  const WrittenColumns: seq<string> := [
    "Preis_cleaned", "Wohnfläche", "Grundstücksfläche", "Zimmer", "Preis_pro_qm",
    "Vollständige_Adresse", "created_date", "closed_date"
  ]

  /**
   * The cell function of a float column filled by a parser: `df[c].apply(parse)` read from the
   * row as it stands. The parsers are parameters here so that the facts below hold for any
   * parser and are then taken to the four parsers of the cleaning step.
   */
  function Parsed(parse: Cell -> Option<real>, c: string): Row -> Cell
  {
    r => FloatCell(parse(Get(r, c)))
  }

  function AddressOf(r: Row): Cell { FillAddress(Get(r, "Vollständige_Adresse")) }
  function CreatedOf(r: Row): Cell { CoerceDate(Get(r, "created_date")) }
  function ClosedOf(r: Row): Cell { CoerceDate(Get(r, "closed_date")) }

  /** The first four assignments of `_clean_data`: the parsed float columns, with the parsers given. */
  function ParseColumns(t: Table, price: Cell -> Option<real>, sqm: Cell -> Option<real>,
                        plot: Cell -> Option<real>, rooms: Cell -> Option<real>): Table
  {
    var t2 := MapColumn(MapColumn(t, "Preis_cleaned", Parsed(price, "Preis")), "Wohnfläche", Parsed(sqm, "Details"));
    MeasureColumns(t2, plot, rooms)
  }

  /** The third and fourth assignments: plot size and rooms, both read from `Details`. */
  function MeasureColumns(t: Table, plot: Cell -> Option<real>, rooms: Cell -> Option<real>): Table
  {
    MapColumn(MapColumn(t, "Grundstücksfläche", Parsed(plot, "Details")), "Zimmer", Parsed(rooms, "Details"))
  }

  /** The last four assignments of `_clean_data`: price per square metre, address and dates. */
  function DeriveColumns(t: Table): Table
  {
    FillColumns(MapColumn(t, "Preis_pro_qm", PricePerSqm))
  }

  /** The address placeholder and the two date coercions. */
  function FillColumns(t: Table): Table
  {
    DateColumns(MapColumn(t, "Vollständige_Adresse", AddressOf))
  }

  function DateColumns(t: Table): Table
  {
    MapColumn(MapColumn(t, "created_date", CreatedOf), "closed_date", ClosedOf)
  }

  /** The column-wise assignments of `_clean_data` in its order, with the four parsers given. */
  function CleanColumnsWith(t: Table, price: Cell -> Option<real>, sqm: Cell -> Option<real>,
                            plot: Cell -> Option<real>, rooms: Cell -> Option<real>): Table
  {
    DeriveColumns(ParseColumns(t, price, sqm, plot, rooms))
  }

  /** The column-wise assignments of `_clean_data`, applied to a copy of the table. */
  function CleanColumns(t: Table): Table
  {
    CleanColumnsWith(t, CleanPrice, ExtractSqm, ExtractPlotSize, ExtractRooms)
  }

  /** `_clean_data(df)`: `KeyError` when a column it reads is missing, else the cleaned copy. */
  function CleanData(t: Table): (r: Outcome<Table>)
    ensures r.Ok? || r.Raised?
    ensures r.Raised? <==> exists k :: 0 <= k < |ReadColumns| && ReadColumns[k] !in t.columns
  {
    if exists k :: 0 <= k < |ReadColumns| && ReadColumns[k] !in t.columns then Raised
    else Ok(CleanColumns(t))
  }

  /** The table shape after cleaning: rows in the same number and order; the written columns added at the end when new. */
  lemma CleanColumnsShape(t: Table)
    ensures |CleanColumns(t).rows| == |t.rows|
    ensures t.columns <= CleanColumns(t).columns
    ensures forall c :: c in CleanColumns(t).columns <==> c in t.columns || c in WrittenColumns
    ensures (forall c :: c in WrittenColumns ==> c in t.columns) ==> CleanColumns(t).columns == t.columns
  {
    var t4 := ParseColumns(t, CleanPrice, ExtractSqm, ExtractPlotSize, ExtractRooms);
    assert CleanColumns(t) == DeriveColumns(t4);
    ParseShape(t, CleanPrice, ExtractSqm, ExtractPlotSize, ExtractRooms);
    DeriveShape(t4);
    forall c
      ensures c in CleanColumns(t).columns <==> c in t.columns || c in WrittenColumns
    {
      WrittenMember(c);
    }
    if forall c :: c in WrittenColumns ==> c in t.columns {
      WrittenPresent(t.columns);
    }
  }

  lemma ParseShape(t: Table, price: Cell -> Option<real>, sqm: Cell -> Option<real>,
                   plot: Cell -> Option<real>, rooms: Cell -> Option<real>)
    ensures var r := ParseColumns(t, price, sqm, plot, rooms);
      && |r.rows| == |t.rows|
      && t.columns <= r.columns
      && (forall c :: c in r.columns <==>
            c in t.columns || c == "Preis_cleaned" || c == "Wohnfläche" || c == "Grundstücksfläche" || c == "Zimmer")
      && (("Preis_cleaned" in t.columns && "Wohnfläche" in t.columns && "Grundstücksfläche" in t.columns
           && "Zimmer" in t.columns) ==> r.columns == t.columns)
  {
    var t2 := MapColumn(MapColumn(t, "Preis_cleaned", Parsed(price, "Preis")), "Wohnfläche", Parsed(sqm, "Details"));
    MeasureShape(t2, plot, rooms);
  }

  lemma MeasureShape(t: Table, plot: Cell -> Option<real>, rooms: Cell -> Option<real>)
    ensures var r := MeasureColumns(t, plot, rooms);
      && |r.rows| == |t.rows|
      && t.columns <= r.columns
      && (forall c :: c in r.columns <==> c in t.columns || c == "Grundstücksfläche" || c == "Zimmer")
      && (("Grundstücksfläche" in t.columns && "Zimmer" in t.columns) ==> r.columns == t.columns)
  {
  }

  lemma DeriveShape(t: Table)
    ensures var r := DeriveColumns(t);
      && |r.rows| == |t.rows|
      && t.columns <= r.columns
      && (forall c :: c in r.columns <==>
            c in t.columns || c == "Preis_pro_qm" || c == "Vollständige_Adresse" || c == "created_date" || c == "closed_date")
      && (("Preis_pro_qm" in t.columns && "Vollständige_Adresse" in t.columns && "created_date" in t.columns
           && "closed_date" in t.columns) ==> r.columns == t.columns)
  {
    var t5 := MapColumn(t, "Preis_pro_qm", PricePerSqm);
    FillShape(t5);
  }

  lemma FillShape(t: Table)
    ensures var r := FillColumns(t);
      && |r.rows| == |t.rows|
      && t.columns <= r.columns
      && (forall c :: c in r.columns <==>
            c in t.columns || c == "Vollständige_Adresse" || c == "created_date" || c == "closed_date")
      && (("Vollständige_Adresse" in t.columns && "created_date" in t.columns && "closed_date" in t.columns)
          ==> r.columns == t.columns)
  {
    var t6 := MapColumn(t, "Vollständige_Adresse", AddressOf);
    DateShape(t6);
  }

  lemma DateShape(t: Table)
    ensures var r := DateColumns(t);
      && |r.rows| == |t.rows|
      && t.columns <= r.columns
      && (forall c :: c in r.columns <==> c in t.columns || c == "created_date" || c == "closed_date")
      && (("created_date" in t.columns && "closed_date" in t.columns) ==> r.columns == t.columns)
  {
  }

  lemma WrittenMember(c: string)
    ensures c in WrittenColumns <==>
      c == "Preis_cleaned" || c == "Wohnfläche" || c == "Grundstücksfläche" || c == "Zimmer"
      || c == "Preis_pro_qm" || c == "Vollständige_Adresse" || c == "created_date" || c == "closed_date"
  {
    assert WrittenColumns[0] == "Preis_cleaned" && WrittenColumns[1] == "Wohnfläche";
    assert WrittenColumns[2] == "Grundstücksfläche" && WrittenColumns[3] == "Zimmer";
    assert WrittenColumns[4] == "Preis_pro_qm" && WrittenColumns[5] == "Vollständige_Adresse";
    assert WrittenColumns[6] == "created_date" && WrittenColumns[7] == "closed_date";
  }

  lemma WrittenPresent(cols: seq<string>)
    requires forall c :: c in WrittenColumns ==> c in cols
    ensures "Preis_cleaned" in cols && "Wohnfläche" in cols && "Grundstücksfläche" in cols && "Zimmer" in cols
    ensures "Preis_pro_qm" in cols && "Vollständige_Adresse" in cols && "created_date" in cols && "closed_date" in cols
  {
    WrittenMember("Preis_cleaned");
    WrittenMember("Wohnfläche");
    WrittenMember("Grundstücksfläche");
    WrittenMember("Zimmer");
    WrittenMember("Preis_pro_qm");
    WrittenMember("Vollständige_Adresse");
    WrittenMember("created_date");
    WrittenMember("closed_date");
  }

  /** What the parsing assignments make of one row: the four float columns from `Preis` and `Details`. */
  lemma ParseRow(t: Table, i: nat, price: Cell -> Option<real>, sqm: Cell -> Option<real>,
                 plot: Cell -> Option<real>, rooms: Cell -> Option<real>)
    requires i < |t.rows|
    ensures var r := ParseColumns(t, price, sqm, plot, rooms);
      && |r.rows| == |t.rows|
      && var (a, b) := (t.rows[i], r.rows[i]);
      && Get(b, "Preis_cleaned") == FloatCell(price(Get(a, "Preis")))
      && Get(b, "Wohnfläche") == FloatCell(sqm(Get(a, "Details")))
      && Get(b, "Grundstücksfläche") == FloatCell(plot(Get(a, "Details")))
      && Get(b, "Zimmer") == FloatCell(rooms(Get(a, "Details")))
      && (forall c :: c != "Preis_cleaned" && c != "Wohnfläche" && c != "Grundstücksfläche" && c != "Zimmer"
            ==> Get(b, c) == Get(a, c))
  {
    ParseRowFirst(t, i, price, sqm, plot, rooms);
    ParseRowSecond(t, i, price, sqm, plot, rooms);
    ParseRowKept(t, i, price, sqm, plot, rooms);
  }

  lemma ParseRowFirst(t: Table, i: nat, price: Cell -> Option<real>, sqm: Cell -> Option<real>,
                      plot: Cell -> Option<real>, rooms: Cell -> Option<real>)
    requires i < |t.rows|
    ensures var r := ParseColumns(t, price, sqm, plot, rooms);
      && |r.rows| == |t.rows|
      && Get(r.rows[i], "Preis_cleaned") == FloatCell(price(Get(t.rows[i], "Preis")))
      && Get(r.rows[i], "Wohnfläche") == FloatCell(sqm(Get(t.rows[i], "Details")))
  {
    var t1 := MapColumn(t, "Preis_cleaned", Parsed(price, "Preis"));
    assert Get(t1.rows[i], "Details") == Get(t.rows[i], "Details");
  }

  lemma ParseRowSecond(t: Table, i: nat, price: Cell -> Option<real>, sqm: Cell -> Option<real>,
                       plot: Cell -> Option<real>, rooms: Cell -> Option<real>)
    requires i < |t.rows|
    ensures var r := ParseColumns(t, price, sqm, plot, rooms);
      && |r.rows| == |t.rows|
      && Get(r.rows[i], "Grundstücksfläche") == FloatCell(plot(Get(t.rows[i], "Details")))
      && Get(r.rows[i], "Zimmer") == FloatCell(rooms(Get(t.rows[i], "Details")))
  {
    var t1 := MapColumn(t, "Preis_cleaned", Parsed(price, "Preis"));
    var t2 := MapColumn(t1, "Wohnfläche", Parsed(sqm, "Details"));
    assert Get(t1.rows[i], "Details") == Get(t.rows[i], "Details");
    assert Get(t2.rows[i], "Details") == Get(t.rows[i], "Details");
    MeasureRow(t2, i, plot, rooms);
  }

  lemma MeasureRow(t: Table, i: nat, plot: Cell -> Option<real>, rooms: Cell -> Option<real>)
    requires i < |t.rows|
    ensures var r := MeasureColumns(t, plot, rooms);
      && |r.rows| == |t.rows|
      && Get(r.rows[i], "Grundstücksfläche") == FloatCell(plot(Get(t.rows[i], "Details")))
      && Get(r.rows[i], "Zimmer") == FloatCell(rooms(Get(t.rows[i], "Details")))
  {
    var t3 := MapColumn(t, "Grundstücksfläche", Parsed(plot, "Details"));
    assert Get(t3.rows[i], "Details") == Get(t.rows[i], "Details");
  }

  lemma ParseRowKept(t: Table, i: nat, price: Cell -> Option<real>, sqm: Cell -> Option<real>,
                     plot: Cell -> Option<real>, rooms: Cell -> Option<real>)
    requires i < |t.rows|
    ensures var r := ParseColumns(t, price, sqm, plot, rooms);
      && |r.rows| == |t.rows|
      && (forall c :: c != "Preis_cleaned" && c != "Wohnfläche" && c != "Grundstücksfläche" && c != "Zimmer"
            ==> Get(r.rows[i], c) == Get(t.rows[i], c))
  {
  }

  /** What the remaining assignments make of one row: each reads the row as the parsing left it. */
  lemma DeriveRow(t: Table, i: nat)
    requires i < |t.rows|
    ensures var r := DeriveColumns(t);
      && |r.rows| == |t.rows|
      && var (a, b) := (t.rows[i], r.rows[i]);
      && Get(b, "Preis_pro_qm") == PricePerSqm(a)
      && Get(b, "Vollständige_Adresse") == FillAddress(Get(a, "Vollständige_Adresse"))
      && Get(b, "created_date") == CoerceDate(Get(a, "created_date"))
      && Get(b, "closed_date") == CoerceDate(Get(a, "closed_date"))
      && (forall c :: c != "Preis_pro_qm" && c != "Vollständige_Adresse" && c != "created_date" && c != "closed_date"
            ==> Get(b, c) == Get(a, c))
  {
    var t5 := MapColumn(t, "Preis_pro_qm", PricePerSqm);
    FillRow(t5, i);
  }

  lemma FillRow(t: Table, i: nat)
    requires i < |t.rows|
    ensures var r := FillColumns(t);
      && |r.rows| == |t.rows|
      && var (a, b) := (t.rows[i], r.rows[i]);
      && Get(b, "Vollständige_Adresse") == FillAddress(Get(a, "Vollständige_Adresse"))
      && Get(b, "created_date") == CoerceDate(Get(a, "created_date"))
      && Get(b, "closed_date") == CoerceDate(Get(a, "closed_date"))
      && (forall c :: c != "Vollständige_Adresse" && c != "created_date" && c != "closed_date"
            ==> Get(b, c) == Get(a, c))
  {
    FillRowAddress(t, i);
    FillRowDates(t, i);
    FillRowKept(t, i);
  }

  lemma FillRowAddress(t: Table, i: nat)
    requires i < |t.rows|
    ensures |FillColumns(t).rows| == |t.rows|
    ensures Get(FillColumns(t).rows[i], "Vollständige_Adresse") == FillAddress(Get(t.rows[i], "Vollständige_Adresse"))
  {
    DateRow(MapColumn(t, "Vollständige_Adresse", AddressOf), i);
  }

  lemma FillRowDates(t: Table, i: nat)
    requires i < |t.rows|
    ensures |FillColumns(t).rows| == |t.rows|
    ensures Get(FillColumns(t).rows[i], "created_date") == CoerceDate(Get(t.rows[i], "created_date"))
    ensures Get(FillColumns(t).rows[i], "closed_date") == CoerceDate(Get(t.rows[i], "closed_date"))
  {
    var t6 := MapColumn(t, "Vollständige_Adresse", AddressOf);
    DateRow(t6, i);
    assert Get(t6.rows[i], "created_date") == Get(t.rows[i], "created_date");
    assert Get(t6.rows[i], "closed_date") == Get(t.rows[i], "closed_date");
  }

  lemma FillRowKept(t: Table, i: nat)
    requires i < |t.rows|
    ensures |FillColumns(t).rows| == |t.rows|
    ensures forall c :: (c != "Vollständige_Adresse" && c != "created_date" && c != "closed_date"
                         ==> Get(FillColumns(t).rows[i], c) == Get(t.rows[i], c))
  {
    DateRow(MapColumn(t, "Vollständige_Adresse", AddressOf), i);
  }

  lemma DateRow(t: Table, i: nat)
    requires i < |t.rows|
    ensures var r := DateColumns(t);
      && |r.rows| == |t.rows|
      && var (a, b) := (t.rows[i], r.rows[i]);
      && Get(b, "created_date") == CoerceDate(Get(a, "created_date"))
      && Get(b, "closed_date") == CoerceDate(Get(a, "closed_date"))
      && (forall c :: c != "created_date" && c != "closed_date" ==> Get(b, c) == Get(a, c))
  {
    var t7 := MapColumn(t, "created_date", CreatedOf);
    assert Get(t7.rows[i], "closed_date") == Get(t.rows[i], "closed_date");
  }

  /** What the assignments make of one row, for any parsers: each written cell in terms of the original row. */
  lemma CleanRowWith(t: Table, i: nat, price: Cell -> Option<real>, sqm: Cell -> Option<real>,
                     plot: Cell -> Option<real>, rooms: Cell -> Option<real>)
    requires i < |t.rows|
    ensures var r := CleanColumnsWith(t, price, sqm, plot, rooms);
      && |r.rows| == |t.rows|
      && var (a, b) := (t.rows[i], r.rows[i]);
      && Get(b, "Preis_cleaned") == FloatCell(price(Get(a, "Preis")))
      && Get(b, "Wohnfläche") == FloatCell(sqm(Get(a, "Details")))
      && Get(b, "Grundstücksfläche") == FloatCell(plot(Get(a, "Details")))
      && Get(b, "Zimmer") == FloatCell(rooms(Get(a, "Details")))
      && Get(b, "Preis_pro_qm") == PerSqm(price(Get(a, "Preis")), sqm(Get(a, "Details")))
      && Get(b, "Vollständige_Adresse") == FillAddress(Get(a, "Vollständige_Adresse"))
      && Get(b, "created_date") == CoerceDate(Get(a, "created_date"))
      && Get(b, "closed_date") == CoerceDate(Get(a, "closed_date"))
      && (forall c :: c !in WrittenColumns ==> Get(b, c) == Get(a, c))
  {
    CleanRowParsed(t, i, price, sqm, plot, rooms);
    CleanRowDerived(t, i, price, sqm, plot, rooms);
    CleanRowKept(t, i, price, sqm, plot, rooms);
  }

  lemma CleanRowParsed(t: Table, i: nat, price: Cell -> Option<real>, sqm: Cell -> Option<real>,
                       plot: Cell -> Option<real>, rooms: Cell -> Option<real>)
    requires i < |t.rows|
    ensures var r := CleanColumnsWith(t, price, sqm, plot, rooms);
      && |r.rows| == |t.rows|
      && var (a, b) := (t.rows[i], r.rows[i]);
      && Get(b, "Preis_cleaned") == FloatCell(price(Get(a, "Preis")))
      && Get(b, "Wohnfläche") == FloatCell(sqm(Get(a, "Details")))
      && Get(b, "Grundstücksfläche") == FloatCell(plot(Get(a, "Details")))
      && Get(b, "Zimmer") == FloatCell(rooms(Get(a, "Details")))
  {
    ParseRow(t, i, price, sqm, plot, rooms);
    DeriveRow(ParseColumns(t, price, sqm, plot, rooms), i);
  }

  lemma CleanRowDerived(t: Table, i: nat, price: Cell -> Option<real>, sqm: Cell -> Option<real>,
                        plot: Cell -> Option<real>, rooms: Cell -> Option<real>)
    requires i < |t.rows|
    ensures var r := CleanColumnsWith(t, price, sqm, plot, rooms);
      && |r.rows| == |t.rows|
      && var (a, b) := (t.rows[i], r.rows[i]);
      && Get(b, "Preis_pro_qm") == PerSqm(price(Get(a, "Preis")), sqm(Get(a, "Details")))
      && Get(b, "Vollständige_Adresse") == FillAddress(Get(a, "Vollständige_Adresse"))
      && Get(b, "created_date") == CoerceDate(Get(a, "created_date"))
      && Get(b, "closed_date") == CoerceDate(Get(a, "closed_date"))
  {
    var t4 := ParseColumns(t, price, sqm, plot, rooms);
    ParseRow(t, i, price, sqm, plot, rooms);
    DeriveRow(t4, i);
    PricePerSqmOfParsed(t4.rows[i], price(Get(t.rows[i], "Preis")), sqm(Get(t.rows[i], "Details")));
  }

  lemma CleanRowKept(t: Table, i: nat, price: Cell -> Option<real>, sqm: Cell -> Option<real>,
                     plot: Cell -> Option<real>, rooms: Cell -> Option<real>)
    requires i < |t.rows|
    ensures var r := CleanColumnsWith(t, price, sqm, plot, rooms);
      && |r.rows| == |t.rows|
      && (forall c :: c !in WrittenColumns ==> Get(r.rows[i], c) == Get(t.rows[i], c))
  {
    ParseRow(t, i, price, sqm, plot, rooms);
    DeriveRow(ParseColumns(t, price, sqm, plot, rooms), i);
    forall c | c !in WrittenColumns
      ensures Get(CleanColumnsWith(t, price, sqm, plot, rooms).rows[i], c) == Get(t.rows[i], c)
    {
      WrittenMember(c);
    }
  }

  /** Per row, the four numeric columns hold the parsers' results on the row's `Preis` and `Details`. */
  lemma CleanColumnsParsed(t: Table, i: nat)
    requires i < |t.rows|
    ensures |CleanColumns(t).rows| == |t.rows|
    ensures var (a, b) := (t.rows[i], CleanColumns(t).rows[i]);
      && Get(b, "Preis_cleaned") == FloatCell(CleanPrice(Get(a, "Preis")))
      && Get(b, "Wohnfläche") == FloatCell(ExtractSqm(Get(a, "Details")))
      && Get(b, "Grundstücksfläche") == FloatCell(ExtractPlotSize(Get(a, "Details")))
      && Get(b, "Zimmer") == FloatCell(ExtractRooms(Get(a, "Details")))
  {
    CleanRowWith(t, i, CleanPrice, ExtractSqm, ExtractPlotSize, ExtractRooms);
  }

  /** Per row, the address is filled and both dates are coerced. */
  lemma CleanColumnsFilled(t: Table, i: nat)
    requires i < |t.rows|
    ensures |CleanColumns(t).rows| == |t.rows|
    ensures var (a, b) := (t.rows[i], CleanColumns(t).rows[i]);
      && Get(b, "Vollständige_Adresse") == FillAddress(Get(a, "Vollständige_Adresse"))
      && Get(b, "created_date") == CoerceDate(Get(a, "created_date"))
      && Get(b, "closed_date") == CoerceDate(Get(a, "closed_date"))
  {
    CleanRowWith(t, i, CleanPrice, ExtractSqm, ExtractPlotSize, ExtractRooms);
  }

  /** Per row, every column `_clean_data` does not write keeps its cell. */
  lemma CleanColumnsKept(t: Table, i: nat)
    requires i < |t.rows|
    ensures |CleanColumns(t).rows| == |t.rows|
    ensures forall c :: c !in WrittenColumns ==> Get(CleanColumns(t).rows[i], c) == Get(t.rows[i], c)
  {
    CleanRowWith(t, i, CleanPrice, ExtractSqm, ExtractPlotSize, ExtractRooms);
  }

  /**
   * `Preis_pro_qm` is the cleaned price over the extracted living space exactly when both were
   * read and the living space is positive, and `None` otherwise.
   */
  lemma CleanColumnsPricePerSqm(t: Table, i: nat)
    requires i < |t.rows|
    ensures |CleanColumns(t).rows| == |t.rows|
    ensures var (a, b) := (t.rows[i], CleanColumns(t).rows[i]);
      var (price, area) := (CleanPrice(Get(a, "Preis")), ExtractSqm(Get(a, "Details")));
      Get(b, "Preis_pro_qm") ==
        if price.Some? && area.Some? && area.value > 0.0 then Num(price.value / area.value) else Null
  {
    CleanRowWith(t, i, CleanPrice, ExtractSqm, ExtractPlotSize, ExtractRooms);
  }

  /**
   * `process_new_data(df)`: completes the caller's frame in place with the required columns,
   * then returns a new, cleaned frame. Cleaning a frame with every required column cannot raise,
   * so the re-raise path is never taken.
   */
  method ProcessNewData(df: Frame) returns (processed: Frame)
    modifies df
    ensures df.Value() == AddMissing(old(df.Value()), RequiredDefaults())
    ensures fresh(processed)
    ensures CleanData(df.Value()) == Ok(processed.Value())
  {
    EnsureColumns(df);
    EnsureColumnsComplete(old(df.Value()));
    assert forall k :: 0 <= k < |ReadColumns| ==> ReadColumns[k] in RequiredColumns;
    var cleaned := CleanData(df.Value());
    processed := new Frame(cleaned.value);
  }
}
