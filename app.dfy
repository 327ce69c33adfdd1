/**
 * The front end's data loading (`App.tsx`): the image-address cleaning and image-list processing
 * applied to every row, the row-validity filter with the coordinate conversion, and the property
 * types offered by the type select. The browser's URL parser is a parameter.
 */
module App {
  import opened Wrappers
  import opened Seqs
  import opened Strings
  import opened JsValues
  import opened FilterRules
  import opened FormCoding
  import Urls
  import PropertyListPage

  /** A parsed address: everything before the query, the query and the fragment, each possibly absent. */
  datatype UrlRecord = UrlRecord(head: string, query: Option<string>, fragment: Option<string>)

  /** `url.toString()`. */
  function Serialize(u: UrlRecord): string
  {
    u.head + (if u.query.Some? then "?" + u.query.value else "") + (if u.fragment.Some? then "#" + u.fragment.value else "")
  }

  /** `new URL(text)`: a parsed address, or none when the constructor throws. */
  type Parser = string -> Option<UrlRecord>

  /**
   * `searchParams.get(name)` on the `&`-separated fields: the decoded value of the first field
   * whose decoded name is `name`, empty for a field without `=`.
   */
  function SearchGet(fields: seq<string>, name: string): Option<string>
  {
    if fields == [] then None
    else if Decode(Before(fields[0], '=')) == name then Some(Decode(After(fields[0], '=')))
    else SearchGet(fields[1..], name)
  }

  function QueryGet(query: Option<string>, name: string): Option<string>
  {
    if query.None? then None else SearchGet(Split(query.value, '&'), name)
  }

  /** `URLSearchParams.toString()` of the one parameter `ci_seal` set to `v`. */
  function SealQuery(v: string): string
  {
    Urls.SealName + "=" + Encode(v, Browser)
  }

  /** The record with only a non-empty `ci_seal` kept as its query, written by the browser's serializer. */
  function Cleaned(u: UrlRecord): UrlRecord
  {
    var seal := QueryGet(u.query, Urls.SealName);
    u.(query := if seal.Some? && seal.value != "" then Some(SealQuery(seal.value)) else None)
  }

  /**
   * `cleanImageUrl`: the empty text stays empty, an address the parser refuses is returned as it
   * is, and any other is written back with only its `ci_seal` parameter.
   */
  function CleanImageUrl(parse: Parser, url: string): (r: string)
    ensures url == "" ==> r == ""
    ensures url != "" && parse(url).None? ==> r == url
  {
    if url == "" then ""
    else match parse(url)
      case None => url
      case Some(u) => Serialize(Cleaned(u))
  }

  /** The query written for `v` is one field that gives back `v` for `ci_seal` and nothing for any other name. */
  lemma SealQueryFields(v: string)
    ensures var q := SealQuery(v);
            Split(q, '&') == [q] && QueryGet(Some(q), Urls.SealName) == Some(v)
            && forall name :: name != Urls.SealName ==> QueryGet(Some(q), name).None?
  {
    var e := Encode(v, Browser);
    var q := SealQuery(v);
    EncodeHasNoDelimiter(v, Browser);
    SealFieldNoAmpersand(e);
    Urls.SplitWithout(q, '&');
    SealFieldParts(e);
    DecodePlain(Urls.SealName);
    DecodeEncode(v, Browser);
    assert SearchGet([q], Urls.SealName) == Some(v);
    forall name | name != Urls.SealName
      ensures SearchGet([q], name).None?
    {
      assert [q][1..] == [];
    }
  }

  lemma SealFieldNoAmpersand(v: string)
    requires '&' !in v
    ensures '&' !in Urls.SealName + "=" + v
  {
    var p := Urls.SealName + "=";
    assert p == "ci_seal=";
    assert '&' !in p;
    assert Urls.SealName + "=" + v == p + v;
  }

  lemma SealFieldParts(v: string)
    ensures Before(Urls.SealName + "=" + v, '=') == Urls.SealName
    ensures After(Urls.SealName + "=" + v, '=') == v
  {
    assert '=' !in Urls.SealName;
    assert Urls.SealName + "=" + v == Urls.SealName + ['='] + v;
    BeforeAfterAt(Urls.SealName, v, '=');
  }

  /**
   * The cleaned record keeps the head and the fragment; it has a query exactly when the address
   * had a non-empty decoded `ci_seal` value, and that query is the single field `ci_seal=<value
   * encoded>`, which gives back the value and nothing for any other name.
   */
  lemma CleanedSpec(u: UrlRecord)
    ensures Cleaned(u).head == u.head && Cleaned(u).fragment == u.fragment
    ensures Cleaned(u).query.Some? <==> QueryGet(u.query, Urls.SealName).Some? && QueryGet(u.query, Urls.SealName).value != ""
    ensures Cleaned(u).query.Some? ==>
              Cleaned(u).query.value == Urls.SealName + "=" + Encode(QueryGet(u.query, Urls.SealName).value, Browser)
              && |Split(Cleaned(u).query.value, '&')| == 1
              && QueryGet(Cleaned(u).query, Urls.SealName) == QueryGet(u.query, Urls.SealName)
              && forall name :: name != Urls.SealName ==> QueryGet(Cleaned(u).query, name).None?
  {
    var seal := QueryGet(u.query, Urls.SealName);
    if seal.Some? && seal.value != "" {
      SealQueryFields(seal.value);
    }
  }

  /** Cleaning an already cleaned record changes nothing. */
  lemma CleanedIdempotent(u: UrlRecord)
    ensures Cleaned(Cleaned(u)) == Cleaned(u)
  {
    CleanedSpec(u);
  }

  /**
   * Cleaning is idempotent whenever the parser reads the cleaned address back as the record it was
   * written from.
   */
  lemma CleanImageUrlIdempotent(parse: Parser, url: string)
    requires url != "" && parse(url).Some?
    requires parse(CleanImageUrl(parse, url)) == Some(Cleaned(parse(url).value))
    ensures CleanImageUrl(parse, CleanImageUrl(parse, url)) == CleanImageUrl(parse, url)
  {
    CleanedIdempotent(parse(url).value);
  }

  /** The marker an address must contain to be kept. */
  predicate HasSeal(u: string)
  {
    Contains(u, Urls.SealName)
  }

  lemma SealedNonEmpty(u: string)
    requires HasSeal(u)
    ensures u != ""
  {
  }

  /** `Vorschaubild` cleaned when truthy, the empty text otherwise. */
  function PreviewOf(parse: Parser, row: Property): string
  {
    if Truthy(row.preview) then CleanImageUrl(parse, ToText(row.preview)) else ""
  }

  /** The `Images` text split at `;`, each piece trimmed, the empty ones dropped; none unless a non-blank text. */
  function Pieces(images: JsValue): seq<string>
  {
    if images.Text? && JsTrim(images.s) != "" then
      Filter(Map(Split(images.s, ';'), JsTrim), PropertyListPage.NonEmpty)
    else []
  }

  /** The pieces cleaned, keeping only those that still carry a seal, in order. */
  function KeptImages(parse: Parser, images: JsValue): seq<string>
  {
    Filter(Map(Pieces(images), (t: string) => CleanImageUrl(parse, t)), HasSeal)
  }

  /** A processed row with the extra `allImages` list. */
  datatype ProcessedRow = ProcessedRow(row: Property, allImages: seq<string>)

  /** `processImageData`. */
  function ProcessImageData(parse: Parser, row: Property): ProcessedRow
  {
    var preview := PreviewOf(parse, row);
    var kept := KeptImages(parse, row.images);
    var all := (if preview != "" && HasSeal(preview) then [preview] else []) + kept;
    ProcessedRow(row.(preview := Text(preview), images := Text(Join(kept, ';'))), all)
  }

  /**
   * The kept images carry a seal, each is the cleaning of a piece of the list, and every piece
   * whose cleaning carries a seal is kept. The pieces are non-empty.
   */
  lemma KeptImagesSpec(parse: Parser, images: JsValue)
    ensures var kept := KeptImages(parse, images); var pieces := Pieces(images);
            forall k :: 0 <= k < |kept| ==>
              (HasSeal(kept[k]) && exists j :: 0 <= j < |pieces| && kept[k] == CleanImageUrl(parse, pieces[j]))
    ensures var pieces := Pieces(images);
            forall j :: 0 <= j < |pieces| && HasSeal(CleanImageUrl(parse, pieces[j])) ==>
              CleanImageUrl(parse, pieces[j]) in KeptImages(parse, images)
    ensures forall j :: 0 <= j < |Pieces(images)| ==> Pieces(images)[j] != ""
  {
    KeptImagesFrom(parse, images);
    KeptImagesAll(parse, images);
  }

  /** Every kept image carries a seal and is the cleaning of one of the pieces. */
  lemma KeptImagesFrom(parse: Parser, images: JsValue)
    ensures var kept := KeptImages(parse, images); var pieces := Pieces(images);
            forall k :: 0 <= k < |kept| ==>
              (HasSeal(kept[k]) && exists j :: 0 <= j < |pieces| && kept[k] == CleanImageUrl(parse, pieces[j]))
  {
    var pieces := Pieces(images);
    var cleaned := Map(pieces, (t: string) => CleanImageUrl(parse, t));
    FilterElements(cleaned, HasSeal);
    var kept := KeptImages(parse, images);
    forall k | 0 <= k < |kept|
      ensures exists j :: 0 <= j < |pieces| && kept[k] == CleanImageUrl(parse, pieces[j])
    {
      var j :| 0 <= j < |cleaned| && cleaned[j] == kept[k];
    }
  }

  /** Every piece whose cleaning carries a seal is kept. */
  lemma KeptImagesAll(parse: Parser, images: JsValue)
    ensures var pieces := Pieces(images);
            forall j :: 0 <= j < |pieces| && HasSeal(CleanImageUrl(parse, pieces[j])) ==>
              CleanImageUrl(parse, pieces[j]) in KeptImages(parse, images)
  {
    var cleaned := Map(Pieces(images), (t: string) => CleanImageUrl(parse, t));
    FilterElements(cleaned, HasSeal);
  }

  /**
   * Processing changes only the preview and the image list, which become the cleaned preview and
   * the kept images joined with `;`. `allImages` is the kept list, preceded by the cleaned preview
   * exactly when that carries a seal, so every entry carries one.
   */
  lemma ProcessImageDataSpec(parse: Parser, row: Property)
    ensures var out := ProcessImageData(parse, row);
            out.row.(preview := row.preview, images := row.images) == row
            && out.row.preview == Text(PreviewOf(parse, row))
            && out.row.images == Text(Join(KeptImages(parse, row.images), ';'))
    ensures var out := ProcessImageData(parse, row); var kept := KeptImages(parse, row.images);
            if HasSeal(PreviewOf(parse, row)) then out.allImages == [PreviewOf(parse, row)] + kept
            else out.allImages == kept
    ensures forall k :: 0 <= k < |ProcessImageData(parse, row).allImages| ==> HasSeal(ProcessImageData(parse, row).allImages[k])
  {
    if HasSeal(PreviewOf(parse, row)) {
      SealedNonEmpty(PreviewOf(parse, row));
    }
  }

  /**
   * When no kept address holds a `;`, the listing card's split of the joined `Images` text gives
   * back exactly the kept list.
   */
  lemma CardSeesKeptImages(parse: Parser, row: Property)
    requires forall k :: 0 <= k < |KeptImages(parse, row.images)| ==> ';' !in KeptImages(parse, row.images)[k]
    ensures PropertyListPage.CardImages(ProcessImageData(parse, row).row.images) == KeptImages(parse, row.images)
  {
    var kept := KeptImages(parse, row.images);
    forall k | 0 <= k < |kept|
      ensures kept[k] != ""
    {
      SealedNonEmpty(kept[k]);
    }
    PropertyListPage.CardImagesOfJoined(kept);
  }

  /** A row without a truthy preview or a non-blank image text has no images at all after processing. */
  lemma NoImagesWithoutSources(parse: Parser, row: Property)
    requires !Truthy(row.preview) && !(row.images.Text? && JsTrim(row.images.s) != "")
    ensures ProcessImageData(parse, row).allImages == []
    ensures ProcessImageData(parse, row).row.images == Text("")
  {
  }

  /** `s.replace(",", ".")`: only the first comma is replaced. */
  function ReplaceFirstComma(s: string): string
  {
    if ',' in s then Before(s, ',') + "." + After(s, ',') else s
  }

  /**
   * `parseFloat`: leading white space skipped, an optional sign, then `Infinity` or the longest
   * prefix of digits with at most one decimal point and an optional exponent; NaN without a digit.
   */
  function ParseFloat(s: string): JsNum
  {
    var t := s[Span(s, IsJsSpace)..];
    var neg := t != [] && t[0] == '-';
    var u := if t != [] && (t[0] == '-' || t[0] == '+') then t[1..] else t;
    var m := if "Infinity" <= u then PosInf else LeadingDecimal(u);
    if neg then Negate(m) else m
  }

  /** The longest prefix of `u` that reads as a decimal literal, or NaN when it holds no digit. */
  function LeadingDecimal(u: string): JsNum
  {
    var (a, b, tail) := DecimalParts(u);
    DecimalOf(a, b, tail)
  }

  /** The digits `a` in front, then after a '.' the digits `b`, then the text `e` the exponent is read from. */
  function DecimalParts(u: string): (p: (string, string, string))
    ensures AllDigits(p.0) && AllDigits(p.1)
  {
    var a := u[..Span(u, IsDigit)];
    var rest := u[|a|..];
    var point := rest != [] && rest[0] == '.';
    var b := if point then rest[1..][..Span(rest[1..], IsDigit)] else "";
    (a, b, if point then rest[1 + |b|..] else rest)
  }

  /** The number the digits `a` and `b` around the point and the exponent text `e` stand for. */
  function DecimalOf(a: string, b: string, e: string): JsNum
    requires AllDigits(a) && AllDigits(b)
  {
    if |a| + |b| == 0 then NaN else Fin(DecimalValue(a, b) * ExponentScale(e))
  }

  /**
   * The factor the exponent at the front of `e` stands for: `e` or `E`, an optional sign and at
   * least one digit give ten to that power; anything else is no exponent and gives 1.
   */
  function ExponentScale(e: string): (x: real)
    ensures x > 0.0
  {
    if e == [] || (e[0] != 'e' && e[0] != 'E') then 1.0
    else
      var signed := |e| > 1 && (e[1] == '+' || e[1] == '-');
      var r := if signed then e[2..] else e[1..];
      var k := r[..Span(r, IsDigit)];
      if k == [] then 1.0
      else if signed && e[1] == '-' then 1.0 / Pow10(DigitsValue(k)) as real
      else Pow10(DigitsValue(k)) as real
  }

  /** The value of the digits `a` before and `b` after a decimal point. */
  function DecimalValue(a: string, b: string): real
    requires AllDigits(a) && AllDigits(b)
  {
    DigitsValue(a) as real + DigitsValue(b) as real / Pow10(|b|) as real
  }

  /** The coordinate conversion: a text is read as `parseFloat` of it with the first comma made a point. */
  function Coordinate(v: JsValue): JsValue
  {
    if v.Text? then Number(ParseFloat(ReplaceFirstComma(v.s))) else v
  }

  /** A run of digits followed by a character that is not a digit spans exactly the run. */
  lemma DigitSpan(a: string, rest: string)
    requires AllDigits(a) && (rest == [] || !IsDigit(rest[0]))
    ensures Span(a + rest, IsDigit) == |a|
  {
    assert forall k :: 0 <= k < |a| ==> (a + rest)[k] == a[k];
    if rest != [] {
      assert (a + rest)[|a|] == rest[0];
    }
  }

  lemma DigitsSpanAll(b: string)
    requires AllDigits(b)
    ensures Span(b, IsDigit) == |b|
  {
    DigitSpan(b, "");
    assert b + "" == b;
  }

  /** The decimal prefix of `a.b`, for digit runs `a` and `b`, is the number a.b. */
  lemma LeadingDecimalOf(a: string, b: string)
    requires AllDigits(a) && AllDigits(b) && |a| + |b| > 0
    ensures LeadingDecimal(a + "." + b) == Fin(DecimalValue(a, b))
  {
    DecimalPartsOf(a, b, "");
    assert a + "." + b + "" == a + "." + b;
  }

  /** Digits after `e`, with nothing after them, scale by ten to their value. */
  lemma ExponentOf(k: string)
    requires k != [] && AllDigits(k)
    ensures ExponentScale("e" + k) == Pow10(DigitsValue(k)) as real
    ensures ExponentScale("e-" + k) == 1.0 / Pow10(DigitsValue(k)) as real
  {
    DigitsSpanAll(k);
    assert ("e" + k)[1..] == k && ("e-" + k)[2..] == k;
    assert k[..|k|] == k;
    if |k| > 0 {
      assert ("e" + k)[1] == k[0];
      assert !IsDigit('+') && !IsDigit('-');
    }
  }

  /** The decimal prefix of `a.b` followed by an exponent part `e` is a.b scaled by that exponent. */
  lemma LeadingDecimalExponent(a: string, b: string, e: string)
    requires AllDigits(a) && AllDigits(b) && |a| + |b| > 0 && (e == [] || !IsDigit(e[0]))
    ensures LeadingDecimal(a + "." + b + e) == Fin(DecimalValue(a, b) * ExponentScale(e))
  {
    DecimalPartsOf(a, b, e);
  }

  /** `a.b` followed by a text `e` that does not start with a digit splits into exactly those parts. */
  lemma DecimalPartsOf(a: string, b: string, e: string)
    requires AllDigits(a) && AllDigits(b) && (e == [] || !IsDigit(e[0]))
    ensures DecimalParts(a + "." + b + e) == (a, b, e)
  {
    var u := a + "." + b + e;
    assert u == a + ("." + b + e);
    DigitSpan(a, "." + b + e);
    var rest := u[|a|..];
    assert u[..Span(u, IsDigit)] == a;
    assert rest == "." + b + e;
    assert rest != [] && rest[0] == '.';
    assert rest[1..] == b + e;
    DigitSpan(b, e);
    assert rest[1..][..Span(rest[1..], IsDigit)] == b;
    assert rest[1 + |b|..] == e;
  }

  /** A text that starts with a digit is read by its decimal prefix alone. */
  lemma ParseFloatOfDigitStart(u: string)
    requires u != [] && IsDigit(u[0])
    ensures ParseFloat(u) == LeadingDecimal(u)
  {
    DigitStartPlain(u);
  }

  /** A text that starts with a digit has no leading space, no sign and no `Infinity`. */
  lemma DigitStartPlain(u: string)
    requires u != [] && IsDigit(u[0])
    ensures u[Span(u, IsJsSpace)..] == u && u[0] != '-' && u[0] != '+' && !("Infinity" <= u)
  {
    assert Span(u, IsJsSpace) == 0;
    assert u[0..] == u;
    NotInfinity(u);
  }

  lemma NotInfinity(u: string)
    requires u != [] && u[0] != 'I'
    ensures !("Infinity" <= u)
  {
    assert "Infinity"[0] == 'I';
  }

  /** A German decimal `a,b` reads as the number a.b. */
  lemma CommaDecimalCoordinate(a: string, b: string)
    requires a != [] && AllDigits(a) && AllDigits(b)
    ensures Coordinate(Text(a + "," + b)) == Number(Fin(DecimalValue(a, b)))
  {
    DigitsExclude(a, ',');
    assert a + "," + b == a + [','] + b;
    BeforeAfterAt(a, b, ',');
    var u := a + "." + b;
    assert ReplaceFirstComma(a + "," + b) == u;
    assert u[0] == a[0];
    ParseFloatOfDigitStart(u);
    LeadingDecimalOf(a, b);
  }

  /**
   * A German decimal followed by a text `e` that does not start with a digit, such as an exponent
   * `e1` or `E-3`, reads as a.b scaled by the exponent at the front of `e`.
   */
  lemma CommaExponentText(a: string, b: string, e: string)
    requires a != [] && AllDigits(a) && AllDigits(b) && (e == [] || !IsDigit(e[0]))
    ensures Coordinate(Text(a + "," + b + e)) == Number(Fin(DecimalValue(a, b) * ExponentScale(e)))
  {
    DigitsExclude(a, ',');
    assert a + "," + b + e == a + [','] + (b + e);
    BeforeAfterAt(a, b + e, ',');
    var u := a + "." + b + e;
    assert ReplaceFirstComma(a + "," + b + e) == u by {
      assert a + "." + (b + e) == u;
    }
    assert u[0] == a[0];
    ParseFloatOfDigitStart(u);
    LeadingDecimalExponent(a, b, e);
  }

  /** Numbers pass the conversion unchanged, so converting a second time does nothing more. */
  lemma CoordinateIdempotent(v: JsValue)
    ensures !Coordinate(v).Text?
    ensures !v.Text? ==> Coordinate(v) == v
    ensures Coordinate(Coordinate(v)) == Coordinate(v)
  {
  }

  /** The CSV parser's `transform`: the coordinate fields are converted, every other field is kept. */
  function TransformField(field: string, value: JsValue): JsValue
  {
    if field == "Latitude" || field == "Longitude" then Coordinate(value) else value
  }

  /** The row filter: a truthy, non-NaN price and truthy coordinates. */
  predicate ValidRow(row: Property)
  {
    Truthy(row.price) && !IsNaN(row.price) && Truthy(row.latitude) && Truthy(row.longitude)
  }

  /** The map step's own coordinate conversion. */
  function WithCoordinates(row: Property): Property
  {
    row.(latitude := Coordinate(row.latitude), longitude := Coordinate(row.longitude))
  }

  /** The loaded rows: the valid ones, with coordinates converted and images processed. */
  function CleanedData(parse: Parser, rows: seq<Property>): seq<ProcessedRow>
  {
    Map(Filter(rows, ValidRow), (r: Property) => ProcessImageData(parse, WithCoordinates(r)))
  }

  /**
   * Over rows whose coordinates the parser's transform already converted, the loaded data has one
   * row per valid input row, in order, each with a truthy non-NaN price and truthy coordinates;
   * apart from its preview and image list, each row is the valid input row it came from.
   */
  lemma CleanedDataSpec(parse: Parser, rows: seq<Property>)
    requires forall i :: 0 <= i < |rows| ==> !rows[i].latitude.Text? && !rows[i].longitude.Text?
    ensures |CleanedData(parse, rows)| == |Filter(rows, ValidRow)| <= |rows|
    ensures forall i :: 0 <= i < |CleanedData(parse, rows)| ==> ValidRow(CleanedData(parse, rows)[i].row)
    ensures forall i :: 0 <= i < |CleanedData(parse, rows)| ==>
              exists j :: 0 <= j < |rows| && ValidRow(rows[j])
                && CleanedData(parse, rows)[i].row.description == rows[j].description
                && CleanedData(parse, rows)[i].row.price == rows[j].price
    ensures forall i :: 0 <= i < |CleanedData(parse, rows)| ==>
              CleanedData(parse, rows)[i].row.(preview := Filter(rows, ValidRow)[i].preview, images := Filter(rows, ValidRow)[i].images)
                == Filter(rows, ValidRow)[i]
  {
    var valid := Filter(rows, ValidRow);
    FilterElements(rows, ValidRow);
    forall i | 0 <= i < |valid|
      ensures WithCoordinates(valid[i]) == valid[i]
    {
      assert valid[i] in rows;
    }
  }

  /** The first word of each text description (`Beschreibung.split(" ")[0]`), empty words dropped. */
  function FirstWords(rows: seq<Property>): seq<string>
  {
    if rows == [] then []
    else
      var d := rows[0].description;
      (if d.Text? && Before(d.s, ' ') != "" then [Before(d.s, ' ')] else []) + FirstWords(rows[1..])
  }

  /** A word is listed exactly when it is the non-empty first word of some row's description. */
  lemma {:induction false} FirstWordsElements(rows: seq<Property>, w: string)
    ensures w in FirstWords(rows) <==>
              w != "" && exists i :: 0 <= i < |rows| && rows[i].description.Text? && Before(rows[i].description.s, ' ') == w
  {
    if rows != [] {
      FirstWordsElements(rows[1..], w);
      if w in FirstWords(rows[1..]) {
        var i :| 0 <= i < |rows[1..]| && rows[1..][i].description.Text? && Before(rows[1..][i].description.s, ' ') == w;
        assert rows[i + 1] == rows[1..][i];
      }
      if exists i :: 0 <= i < |rows| && rows[i].description.Text? && Before(rows[i].description.s, ' ') == w {
        var i :| 0 <= i < |rows| && rows[i].description.Text? && Before(rows[i].description.s, ' ') == w;
        if i > 0 {
          assert rows[1..][i - 1] == rows[i];
        }
      }
    }
  }

  /** `propertyTypes`: the distinct first words, in the order they first appear. */
  function PropertyTypes(rows: seq<Property>): seq<string>
  {
    Dedupe(FirstWords(rows))
  }

  /**
   * The offered types have no repeats, are exactly the non-empty first words of the descriptions,
   * and keep the order of first appearance.
   */
  lemma PropertyTypesSpec(rows: seq<Property>)
    ensures NoDup(PropertyTypes(rows))
    ensures forall w :: w in PropertyTypes(rows) <==>
              w != "" && exists i :: 0 <= i < |rows| && rows[i].description.Text? && Before(rows[i].description.s, ' ') == w
    ensures forall i, j :: 0 <= i < j < |PropertyTypes(rows)| ==>
              FirstBefore(FirstWords(rows), PropertyTypes(rows)[i], PropertyTypes(rows)[j])
  {
    DedupeElements(FirstWords(rows));
    forall w
      ensures w in PropertyTypes(rows) <==>
                w != "" && exists i :: 0 <= i < |rows| && rows[i].description.Text? && Before(rows[i].description.s, ' ') == w
    {
      FirstWordsElements(rows, w);
      if w in FirstWords(rows) {
        var k :| 0 <= k < |FirstWords(rows)| && FirstWords(rows)[k] == w;
      }
      if w in PropertyTypes(rows) {
        var k :| 0 <= k < |PropertyTypes(rows)| && PropertyTypes(rows)[k] == w;
      }
    }
    forall i, j | 0 <= i < j < |PropertyTypes(rows)|
      ensures FirstBefore(FirstWords(rows), PropertyTypes(rows)[i], PropertyTypes(rows)[j])
    {
      DedupeFirstOccurrenceOrder(FirstWords(rows), i, j);
    }
  }

  /** Selecting an offered type keeps, among others, every row the type was read from. */
  lemma OfferedTypeAdmitsItsRows(f: Filters, row: Property)
    requires row.description.Text? && Before(row.description.s, ' ') != ""
    ensures TypeOk(f.(propertyType := Before(row.description.s, ' ')), row)
  {
  }
}
