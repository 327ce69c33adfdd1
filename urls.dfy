/**
 * The URL handling of the scraper: `clean_image_url`, which deletes the `w=` and `h=` size
 * parameters of an image address with a regular expression, splits what is left with `urlparse`,
 * and writes it back with `urlunparse` keeping only the `ci_seal` query parameter (read the way
 * `parse_qs` reads it and written the way `urlencode` writes it). The split is the one of
 * `UrlJoin`, with no default scheme.
 */
module Urls {
  import opened Wrappers
  import opened Strings
  import opened Regex
  import opened FormCoding
  import opened UrlJoin

  /** `[?&]<key>=\d+` matches at the front of `t`. */
  predicate ParamHead(t: string, key: char)
  {
    |t| > 3 && (t[0] == '?' || t[0] == '&') && t[1] == key && t[2] == '=' && IsDigit(t[3])
  }

  /** `[?&]<key>=\d+` matches at position `i` of `s`. */
  predicate SizeParamAt(s: string, i: nat, key: char)
  {
    i <= |s| && ParamHead(s[i..], key)
  }

  /** `s` has no match of `[?&]<key>=\d+` anywhere. */
  predicate NoSizeParam(s: string, key: char)
  {
    forall i :: 0 <= i < |s| ==> !SizeParamAt(s, i, key)
  }

  /**
   * `re.sub(r'[?&]<key>=\d+', '', s)`: the matches, found left to right without overlapping, are
   * deleted; the scan goes on in the original text after each match.
   */
  function StripSizeParam(s: string, key: char): (r: string)
    ensures |r| <= |s|
    decreases |s|
  {
    if s == [] then s
    else if ParamHead(s, key) then StripSizeParam(s[DigitsEnd(s, 3)..], key)
    else [s[0]] + StripSizeParam(s[1..], key)
  }

  /** The schemes `urlparse` splits path parameters off for (`uses_params`). */
  const UsesParams: set<string> := {"", "ftp", "hdl", "prospero", "http", "imap", "https", "shttp", "rtsp",
                                    "rtsps", "rtspu", "sip", "sips", "mms", "sftp", "tel"}

  /** The schemes `urlunsplit` writes `//` for even without a network location (`uses_netloc`). */
  const UsesNetloc: set<string> := {"", "ftp", "http", "gopher", "nntp", "telnet", "imap", "wais", "file", "mms",
                                    "https", "shttp", "snews", "prospero", "rtsp", "rtsps", "rtspu", "rsync", "svn",
                                    "svn+ssh", "sftp", "nfs", "git", "git+ssh", "ws", "wss", "itms-services"}

  /**
   * `urlparse(url)`, or none when it raises `ValueError`: leading controls and spaces are stripped
   * and tabs and line breaks deleted; then come the lower-cased scheme (empty without a valid one),
   * the network location after `//`, the fragment after the first '#' and the query after the
   * first '?'; for the schemes that use them, the parameters are split off the last path segment.
   */
  function ParseUrl(url: string): Option<Parts>
  {
    var s := Sanitize(url);
    var scheme := if HasScheme(s) then Lower(Before(s, ':')) else "";
    var t := AfterScheme(s);
    var netloc := NetlocOf(t);
    var rest := AfterNetloc(t);
    var beforeFragment := Before(rest, '#');
    var u := Before(beforeFragment, '?');
    var pathAndParams := if scheme in UsesParams then SplitParams(u) else (u, "");
    if !BracketsPaired(netloc) then None
    else Some(Parts(scheme, netloc, pathAndParams.0, pathAndParams.1, After(beforeFragment, '?'), After(rest, '#')))
  }

  /**
   * `urlunparse`: the parameters after a ';' when there are any; `//` and the network location
   * when there is one (with a '/' in front of a relative path), else `//` alone before a path that
   * starts with `//`, or before an empty or absolute path of a scheme that uses a network location;
   * the scheme and ':' in front when there is one; an empty query or fragment is left out.
   */
  function UnparseUrl(q: Parts): string
  {
    var u := q.path + ParamsText(q.params);
    var head :=
      if q.netloc != "" then "//" + q.netloc + PathText(q.path, q.params)
      else if "//" <= u then "//" + u
      else if q.scheme != "" && q.scheme in UsesNetloc && (u == "" || u[0] == '/') then "//" + u
      else u;
    (if q.scheme != "" then q.scheme + ":" else "") + head + QueryText(q.query) + FragmentText(q.fragment)
  }

  /**
   * The value `parse_qs` reads for `name` from one `&`-separated field: none without '=', when the
   * text after it is empty, or when the decoded name differs; otherwise the decoded value.
   */
  function FieldValue(field: string, name: string): Option<string>
  {
    if '=' in field && Decode(Before(field, '=')) == name && After(field, '=') != "" then Some(Decode(After(field, '=')))
    else None
  }

  /** `parse_qs(query)[name][0]`: the first non-empty value the fields give for `name`. */
  function FirstValue(fields: seq<string>, name: string): (r: Option<string>)
    ensures r.Some? ==> r.value != ""
  {
    if fields == [] then None
    else if FieldValue(fields[0], name).Some? then FieldValue(fields[0], name)
    else FirstValue(fields[1..], name)
  }

  /** The one query parameter an image address keeps. */
  const SealName: string := "ci_seal"

  /** The image address without its `w=` and `h=` size parameters. */
  function Unsized(url: string): string
  {
    StripSizeParam(StripSizeParam(url, 'w'), 'h')
  }

  /** The decoded `ci_seal` value of a query, as `parse_qs` reads it. */
  function Seal(query: string): Option<string>
  {
    FirstValue(Split(query, '&'), SealName)
  }

  /**
   * `clean_image_url`: the sizes deleted, the address split by `urlparse` and written back by
   * `urlunparse` with `ci_seal=<first value>` as the whole query, or no query when there is no
   * `ci_seal` value; none when `urlparse` raises.
   */
  function CleanImageUrl(url: string): Option<string>
  {
    match ParseUrl(Unsized(url))
    case None => None
    case Some(p) => Some(UnparseUrl(p.(query := SealQuery(Seal(p.query)))))
  }

  /** `urlencode({'ci_seal': v})`, which writes `v` with `quote_plus`, or the empty query without a value. */
  function SealQuery(seal: Option<string>): string
  {
    if seal.Some? then SealName + "=" + Encode(seal.value, Python) else ""
  }

  /** The first value comes from a field for `name`, and every field before it has none. */
  lemma {:induction false} FirstValueFound(fields: seq<string>, name: string)
    requires FirstValue(fields, name).Some?
    ensures exists k :: 0 <= k < |fields| && FieldValue(fields[k], name) == FirstValue(fields, name)
                        && forall j :: 0 <= j < k ==> FieldValue(fields[j], name).None?
  {
    if FieldValue(fields[0], name).Some? {
      assert FieldValue(fields[0], name) == FirstValue(fields, name);
    } else {
      FirstValueFound(fields[1..], name);
      var k :| 0 <= k < |fields[1..]| && FieldValue(fields[1..][k], name) == FirstValue(fields, name)
               && forall j :: 0 <= j < k ==> FieldValue(fields[1..][j], name).None?;
      assert forall j :: 1 <= j < k + 1 ==> fields[j] == fields[1..][j - 1];
      assert FieldValue(fields[k + 1], name) == FirstValue(fields, name);
    }
  }

  /** There is no first value exactly when no field gives one. */
  lemma {:induction false} FirstValueNone(fields: seq<string>, name: string)
    ensures FirstValue(fields, name).None? <==> forall k :: 0 <= k < |fields| ==> FieldValue(fields[k], name).None?
  {
    if fields != [] && FieldValue(fields[0], name).None? {
      FirstValueNone(fields[1..], name);
      assert forall k :: 1 <= k < |fields| ==> fields[k] == fields[1..][k - 1];
    }
  }

  /** A text without `c` splits into itself alone. */
  lemma SplitWithout(s: string, c: char)
    requires c !in s
    ensures Split(s, c) == [s]
  {
    JoinSplit(s, c);
  }

  /** The `ci_seal` field of a value without '&' and '#' has neither. */
  lemma SealFieldChars(v: string)
    requires '&' !in v
    ensures '&' !in SealName + "=" + v && ('#' !in v ==> '#' !in SealName + "=" + v) && '=' !in SealName
  {
    assert forall k :: 0 <= k < |SealName + "="| ==> (SealName + "=")[k] in "ci_seal=";
  }

  /** A field `name=v` with a non-empty `v` and a plain name gives the decoded `v`. */
  lemma FieldOfPair(name: string, v: string)
    requires '=' !in name && '%' !in name && '+' !in name && v != ""
    ensures FieldValue(name + "=" + v, name) == Some(Decode(v))
  {
    BeforeAfterAt(name, v, '=');
    assert name + "=" + v == name + ['='] + v;
    DecodePlain(name);
  }

  /** An encoding holds none of the characters `urlsplit` deletes. */
  lemma EncodeSafe(s: string, w: Writer)
    ensures Safe(Encode(s, w))
  {
    EncodeChars(s, w);
  }

  /** The `ci_seal` field of a value `urlsplit` deletes nothing from is one too. */
  lemma SealFieldSafe(v: string)
    requires Safe(v)
    ensures Safe(SealName + "=" + v)
  {
    var t := SealName + "=" + v;
    forall k | 0 <= k < |t|
      ensures !IsUnsafe(t[k])
    {
      if k >= 8 {
        assert t[k] == v[k - 8];
      }
    }
  }

  /**
   * The query `urlencode` writes for a value `v` holds no '#' and nothing `urlsplit` deletes, and
   * gives back `v` for `ci_seal` and nothing for any other name.
   */
  lemma SealQueryFields(seal: Option<string>)
    requires seal.Some? ==> seal.value != ""
    ensures '#' !in SealQuery(seal) && Safe(SealQuery(seal))
    ensures Seal(SealQuery(seal)) == seal
    ensures forall name :: name != SealName ==> FirstValue(Split(SealQuery(seal), '&'), name).None?
  {
    if seal.Some? {
      var e := Encode(seal.value, Python);
      EncodeHasNoDelimiter(seal.value, Python);
      EncodeNonEmpty(seal.value, Python);
      EncodeSafe(seal.value, Python);
      SealFieldSafe(e);
      SealFieldChars(e);
      SealFieldValue(e);
      DecodeEncode(seal.value, Python);
      SealFieldOnly(e);
    } else {
      assert Split("", '&') == [""];
      assert [""][1..] == [];
    }
  }

  /** A lone `ci_seal` field gives no value for any other name. */
  lemma SealFieldOnly(v: string)
    requires '&' !in v && v != ""
    ensures forall name :: name != SealName ==> FirstValue(Split(SealName + "=" + v, '&'), name).None?
  {
    SealFieldChars(v);
    assert '%' !in SealName && '+' !in SealName;
    LoneField(SealName, v);
  }

  /** A query of one field `key=v`, with a plain key, gives no value for any other name. */
  lemma LoneField(key: string, v: string)
    requires '=' !in key && '%' !in key && '+' !in key && '&' !in key + "=" + v
    ensures forall name :: name != key ==> FirstValue(Split(key + "=" + v, '&'), name).None?
  {
    var query := key + "=" + v;
    SplitWithout(query, '&');
    BeforeAfterAt(key, v, '=');
    assert query == key + ['='] + v;
    DecodePlain(key);
    forall name | name != key
      ensures FirstValue([query], name).None?
    {
      assert FieldValue(query, name).None?;
      assert [query][1..] == [];
    }
  }

  /** With a valid scheme that lower-cases to `https`, `urlparse` splits as `urljoin` does for the site. */
  lemma ParseHttps(url: string)
    requires HasScheme(Sanitize(url)) && Lower(Before(Sanitize(url), ':')) == "https"
    ensures ParseUrl(url) == SplitUrl(Sanitize(url))
  {
  }

  /** With a scheme and a network location, `urlunparse` writes what `UrlJoin.Unparse` writes. */
  lemma UnparseNetloc(q: Parts)
    requires q.scheme != "" && q.netloc != ""
    ensures UnparseUrl(q) == Unparse(q)
  {
    assert q.scheme + "://" == q.scheme + ":" + "//";
  }

  /** Behind a network location, the path and parameters start with '/' or are empty. */
  lemma NetlocRest(t: string)
    requires "//" <= t
    ensures var u := Before(Before(AfterNetloc(t), '#'), '?'); u == "" || u[0] == '/'
  {
    var rest := AfterNetloc(t);
    var b := Before(rest, '#');
    var u := Before(b, '?');
    if u != "" {
      var n := Span(t[2..], InNetloc);
      assert rest == t[2..][n..];
      assert u[0] == b[0] == rest[0];
      assert !InNetloc(t[2..][n]);
    }
  }

  /** An empty or absolute path keeps that form when its parameters are split off, so `urlparse` reads it back as it is. */
  lemma AbsoluteSplit(u: string)
    requires u == "" || u[0] == '/'
    ensures CanonPath(SplitParams(u).0, SplitParams(u).1) == SplitParams(u).0
  {
    var k := SegmentStart(u);
    if u != "" {
      assert k > 0 by {
        assert u[0..][0] == '/';
      }
    }
  }

  /** An https address with a network location splits into parts `urlunparse` can write back, with its path as it is read again. */
  lemma ParsedWritable(url: string)
    requires ParseUrl(url).Some? && ParseUrl(url).value.scheme == "https" && ParseUrl(url).value.netloc != ""
    ensures ParseUrl(url) == SplitUrl(Sanitize(url))
    ensures Writable(ParseUrl(url).value)
    ensures CanonPath(ParseUrl(url).value.path, ParseUrl(url).value.params) == ParseUrl(url).value.path
  {
    var s := Sanitize(url);
    assert HasScheme(s);
    ParseHttps(url);
    SplitUrlParts(s);
    var t := AfterScheme(s);
    assert NetlocOf(t) != "";
    NetlocRest(t);
    AbsoluteSplit(Before(Before(AfterNetloc(t), '#'), '?'));
  }

  /** `urlparse` reads back the parts of an https address with a network location that `urlunparse` wrote. */
  lemma ReparseUrl(q: Parts)
    requires Writable(q) && CanonPath(q.path, q.params) == q.path
    ensures UnparseUrl(q) == Unparse(q)
    ensures ParseUrl(UnparseUrl(q)) == Some(q)
  {
    UnparseNetloc(q);
    Reparse(q);
    UnparseShape(q);
    SchemeOfHttps("//" + (q.netloc + TailText(q)));
    ParseHttps(Unparse(q));
  }

  /**
   * `clean_image_url` raises exactly when `urlparse` does. For an https address with a network
   * location, `urlparse` reads the cleaned address back with the same scheme, network location,
   * path, parameters and fragment; its query is empty without a `ci_seal` value, else `ci_seal=`
   * and the first decoded value written by `quote_plus`; and `parse_qs` reads that query as
   * exactly that value and no other parameter.
   */
  lemma CleanImageUrlParts(url: string)
    ensures CleanImageUrl(url).None? <==> ParseUrl(Unsized(url)).None?
    ensures var p := ParseUrl(Unsized(url));
      p.Some? && p.value.scheme == "https" && p.value.netloc != "" ==>
        && ParseUrl(CleanImageUrl(url).value).Some?
        && var c := ParseUrl(CleanImageUrl(url).value).value;
        && c.(query := p.value.query) == p.value
        && (Seal(p.value.query).None? ==> c.query == "")
        && (Seal(p.value.query).Some? ==> c.query == SealName + "=" + Encode(Seal(p.value.query).value, Python))
        && Seal(c.query) == Seal(p.value.query)
        && forall name :: name != SealName ==> FirstValue(Split(c.query, '&'), name).None?
  {
    var p := ParseUrl(Unsized(url));
    if p.Some? && p.value.scheme == "https" && p.value.netloc != "" {
      ParsedWritable(Unsized(url));
      SealQueryFields(Seal(p.value.query));
      ReparseUrl(p.value.(query := SealQuery(Seal(p.value.query))));
    }
  }

  /**
   * Cleaning an https address with a network location a second time changes nothing, as long as
   * the cleaned address holds no size parameter (deleting one can join the text around it into
   * a new one).
   */
  lemma CleanUrlFixed(url: string)
    requires ParseUrl(Unsized(url)).Some?
    requires ParseUrl(Unsized(url)).value.scheme == "https" && ParseUrl(Unsized(url)).value.netloc != ""
    requires NoSizeParam(CleanImageUrl(url).value, 'w') && NoSizeParam(CleanImageUrl(url).value, 'h')
    ensures CleanImageUrl(CleanImageUrl(url).value) == CleanImageUrl(url)
  {
    var c := CleanImageUrl(url).value;
    StripWithoutMatch(c, 'w');
    StripWithoutMatch(c, 'h');
    assert Unsized(c) == c;
    var p := ParseUrl(Unsized(url)).value;
    var q := p.(query := SealQuery(Seal(p.query)));
    ParsedWritable(Unsized(url));
    SealQueryFields(Seal(p.query));
    ReparseUrl(q);
    assert q.(query := SealQuery(Seal(q.query))) == q;
  }

  /** Without a match nothing is deleted. */
  lemma {:induction false} StripWithoutMatch(s: string, key: char)
    requires NoSizeParam(s, key)
    ensures StripSizeParam(s, key) == s
    decreases |s|
  {
    if s != [] {
      assert s[0..] == s;
      assert !ParamHead(s, key) by {
        assert !SizeParamAt(s, 0, key);
      }
      forall i | 0 <= i < |s[1..]|
        ensures !SizeParamAt(s[1..], i, key)
      {
        assert s[1..][i..] == s[i + 1..];
        assert !SizeParamAt(s, i + 1, key);
      }
      StripWithoutMatch(s[1..], key);
    }
  }

  /** Text in which no match starts is copied and the scan goes on after it. */
  lemma {:induction false} StripSkip(a: string, t: string, key: char)
    requires forall i :: 0 <= i < |a| ==> !SizeParamAt(a + t, i, key)
    ensures StripSizeParam(a + t, key) == a + StripSizeParam(t, key)
    decreases |a|
  {
    if a == [] {
      assert a + t == t;
    } else {
      SkipOne(a, t, key);
      assert (a + t)[1..] == a[1..] + t;
      StripSkip(a[1..], t, key);
    }
  }

  /** The first character of a text in which no match starts is not a match, nor is any in the rest. */
  lemma SkipOne(a: string, t: string, key: char)
    requires a != []
    requires forall i :: 0 <= i < |a| ==> !SizeParamAt(a + t, i, key)
    ensures !ParamHead(a + t, key)
    ensures forall i :: 0 <= i < |a[1..]| ==> !SizeParamAt(a[1..] + t, i, key)
  {
    assert (a + t)[0..] == a + t;
    assert !SizeParamAt(a + t, 0, key);
    forall i | 0 <= i < |a[1..]|
      ensures !SizeParamAt(a[1..] + t, i, key)
    {
      assert (a[1..] + t)[i..] == (a + t)[i + 1..];
      assert !SizeParamAt(a + t, i + 1, key);
    }
  }

  /** A match at the front is deleted up to the end of its digits. */
  lemma StripDrop(sep: char, key: char, d: string, t: string)
    requires sep == '?' || sep == '&'
    requires d != [] && AllDigits(d) && (t == [] || !IsDigit(t[0]))
    ensures StripSizeParam([sep, key, '='] + d + t, key) == StripSizeParam(t, key)
  {
    var s := [sep, key, '='] + d + t;
    assert ParamHead(s, key);
    var e := DigitsEnd(s, 3);
    assert forall k :: 3 <= k < 3 + |d| ==> s[k] == d[k - 3];
    assert 3 + |d| < |s| ==> s[3 + |d|] == t[0];
    assert e == 3 + |d|;
    assert s[3 + |d|..] == t;
  }

  /** Text without '?' and '&' contains no match. */
  lemma PlainText(s: string, key: char)
    requires '?' !in s && '&' !in s
    ensures NoSizeParam(s, key)
  {
  }

  /** The field `ci_seal=<v>` holds no match of a size parameter when `v` has no '?' or '&'. */
  lemma SealFieldPlain(b: string, v: string, t: string, key: char)
    requires '?' !in b && '&' !in b && '?' !in v && '&' !in v && key != 'c'
    ensures forall i :: 0 <= i < |b + "?ci_seal=" + v| ==> !SizeParamAt(b + "?ci_seal=" + v + t, i, key)
  {
    var a := b + "?ci_seal=" + v;
    forall i | 0 <= i < |a|
      ensures !SizeParamAt(a + t, i, key)
    {
      assert (a + t)[i] == a[i];
      if i == |b| {
        assert a[i + 1] == 'c';
        assert (a + t)[i + 1] == 'c';
      } else if i < |b| {
        assert a[i] == b[i];
      } else if i < |b| + 9 {
        assert a[i] == "?ci_seal="[i - |b|];
      } else {
        assert a[i] == v[i - |b| - 9];
      }
    }
  }

  /** A size parameter `[?&]<other>=<digits>` for another key holds no match for `key`. */
  lemma OtherParamPlain(sep: char, other: char, d: string, key: char)
    requires sep == '?' || sep == '&'
    requires other != key && other != '?' && other != '&' && AllDigits(d)
    ensures NoSizeParam([sep, other, '='] + d, key)
  {
    var t := [sep, other, '='] + d;
    forall i | 0 <= i < |t|
      ensures !SizeParamAt(t, i, key)
    {
      if i >= 3 {
        assert t[i] == d[i - 3];
      }
    }
  }

  /** Both size parameters after the seal are deleted. */
  lemma SizedSealedUnsized(b: string, v: string, dw: string, dh: string)
    requires '?' !in b && '&' !in b && '#' !in b && '?' !in v && '&' !in v && '#' !in v
    requires dw != [] && AllDigits(dw) && dh != [] && AllDigits(dh)
    ensures Unsized(b + "?ci_seal=" + v + "&w=" + dw + "&h=" + dh) == b + "?ci_seal=" + v
  {
    var a := b + "?ci_seal=" + v;
    var th := ['&', 'h', '='] + dh;
    var tw := ['&', 'w', '='] + dw + th;
    var url := a + tw;
    assert b + "?ci_seal=" + v + "&w=" + dw + "&h=" + dh == url;
    SealFieldPlain(b, v, tw, 'w');
    StripSkip(a, tw, 'w');
    StripDrop('&', 'w', dw, th);
    OtherParamPlain('&', 'h', dh, 'w');
    StripWithoutMatch(th, 'w');
    assert StripSizeParam(url, 'w') == a + th;
    SealFieldPlain(b, v, th, 'h');
    StripSkip(a, th, 'h');
    assert th == ['&', 'h', '='] + dh + "";
    StripDrop('&', 'h', dh, "");
  }

  /** `b&ci_seal=v` holds no size parameter when `b` and `v` have no '?' or '&'. */
  lemma PathSealPlain(b: string, v: string, key: char)
    requires '?' !in b && '&' !in b && '?' !in v && '&' !in v && key != 'c'
    ensures NoSizeParam(b + ("&ci_seal=" + v), key)
  {
    var r := b + ("&ci_seal=" + v);
    forall i | 0 <= i < |r|
      ensures !SizeParamAt(r, i, key)
    {
      if i == |b| {
        assert r[i + 1] == 'c';
      } else if i < |b| {
        assert r[i] == b[i];
      } else if i < |b| + 9 {
        assert r[i] == "&ci_seal="[i - |b|];
      } else {
        assert r[i] == v[i - |b| - 9];
      }
    }
  }

  /** Deleting the leading width parameter leaves the path followed by the rest of the query. */
  lemma LeadingWidthStripped(b: string, dw: string, v: string)
    requires '?' !in b && '&' !in b && '?' !in v && '&' !in v
    requires dw != [] && AllDigits(dw)
    ensures StripSizeParam(b + (['?', 'w', '='] + dw + ("&ci_seal=" + v)), 'w') == b + ("&ci_seal=" + v)
  {
    var tail := "&ci_seal=" + v;
    var tw := ['?', 'w', '='] + dw + tail;
    var url := b + tw;
    PlainText(b, 'w');
    forall i | 0 <= i < |b|
      ensures !SizeParamAt(url, i, 'w')
    {
      assert url[i] == b[i];
    }
    StripSkip(b, tw, 'w');
    StripDrop('?', 'w', dw, tail);
    PathSealPlain("", v, 'w');
    assert "" + tail == tail;
    StripWithoutMatch(tail, 'w');
  }

  /** `&ci_seal=<v>` holds none of the characters listed when `v` holds none. */
  lemma PathSealChars(v: string)
    requires '?' !in v && '#' !in v && ';' !in v && '/' !in v && Safe(v)
    ensures var t := "&ci_seal=" + v; '?' !in t && '#' !in t && ';' !in t && '/' !in t && Safe(t)
  {
    var t := "&ci_seal=" + v;
    forall k | 0 <= k < |t|
      ensures t[k] != '?' && t[k] != '#' && t[k] != ';' && t[k] != '/' && !IsUnsafe(t[k])
    {
      if k >= 9 {
        assert t[k] == v[k - 9];
      }
    }
  }

  /** `https://<h><path>`: a network location and an empty or absolute path that `urlunparse` writes and `urlparse` reads back as they are. */
  predicate HttpsAddress(h: string, path: string)
  {
    h != "" && (path == "" || path[0] == '/') && Writable(Parts("https", h, path, "", "", ""))
  }

  /** An https address with no '&' in it, so that no size parameter can start in it. */
  predicate PlainAddress(h: string, path: string)
  {
    HttpsAddress(h, path) && '&' !in h && '&' !in path
  }

  /** Appending the parts of a text one by one gives the same text. */
  lemma Regroup3(a: string, b: string, c: string)
    ensures a + (b + c) == a + b + c
  {
  }

  /** Appending the parts of a text one by one gives the same text. */
  lemma Regroup(a: string, b: string, c: string, d: string)
    ensures a + (b + c + d) == a + b + c + d
  {
  }

  /** `https` and `:` and `//` are `https://`. */
  lemma HttpsHead(h: string, path: string)
    ensures "https" + ":" + ("//" + h + path) == "https://" + h + path
  {
    assert "https" + ":" + "//" == "https://";
    Regroup("https" + ":", "//", h, path);
  }

  /** What `urlunparse` writes for an https address with an empty or absolute path. */
  lemma PlainUnparse(h: string, path: string, query: string, fragment: string)
    requires h != "" && (path == "" || path[0] == '/')
    ensures UnparseUrl(Parts("https", h, path, "", query, fragment)) == "https://" + h + path + QueryText(query) + FragmentText(fragment)
  {
    assert PathText(path, "") == path;
    assert UnparseUrl(Parts("https", h, path, "", query, fragment)) == "https" + ":" + ("//" + h + path) + QueryText(query) + FragmentText(fragment);
    HttpsHead(h, path);
  }

  /** `urlunparse` writes an https address with a query and a fragment, and `urlparse` reads it back. */
  lemma PlainParts(h: string, path: string, query: string, fragment: string)
    requires HttpsAddress(h, path) && '#' !in query && Safe(query) && Safe(fragment)
    ensures UnparseUrl(Parts("https", h, path, "", query, fragment)) == "https://" + h + path + QueryText(query) + FragmentText(fragment)
    ensures ParseUrl(UnparseUrl(Parts("https", h, path, "", query, fragment))) == Some(Parts("https", h, path, "", query, fragment))
  {
    var q := Parts("https", h, path, "", query, fragment);
    assert Writable(q);
    assert CanonPath(path, "") == path;
    ReparseUrl(q);
    PlainUnparse(h, path, query, fragment);
  }

  /** No '?', '&' or '#' in a plain address. */
  lemma PlainAddressChars(h: string, path: string)
    requires PlainAddress(h, path)
    ensures var b := "https://" + h + path; '?' !in b && '&' !in b && '#' !in b
  {
    assert forall k :: 0 <= k < |h| ==> InNetloc(h[k]);
  }

  /** An address without '?' and '&' holds no size parameter, so it is its own unsized form. */
  lemma UnsizedPlain(x: string)
    requires '?' !in x && '&' !in x
    ensures Unsized(x) == x
  {
    PlainText(x, 'w');
    StripWithoutMatch(x, 'w');
    PlainText(x, 'h');
    StripWithoutMatch(x, 'h');
  }

  /** Text that is safe and does not start with a control or a space is left as it is by `urlsplit`'s clean-up. */
  lemma SanitizeKeeps(x: string)
    requires Safe(x) && x != "" && !IsControlOrSpace(x[0])
    ensures Sanitize(x) == x
  {
    assert x[Span(x, IsControlOrSpace)..] == x;
  }

  /** Two texts with the same scheme and the same rest, which the clean-up leaves alone, are split alike. */
  lemma ParseUrlBy(x: string, y: string)
    requires Sanitize(x) == x && Sanitize(y) == y && HasScheme(x) && HasScheme(y)
    requires Lower(Before(x, ':')) == Lower(Before(y, ':')) && AfterScheme(x) == AfterScheme(y)
    ensures ParseUrl(x) == ParseUrl(y)
  {
  }

  /** `https://<h><rest>` with a network location `h` ended by `rest`: the scheme, the location and what follows it. */
  lemma HttpsText(h: string, rest: string)
    requires (forall k :: 0 <= k < |h| ==> InNetloc(h[k])) && (rest == "" || IsNetlocEnd(rest[0]))
    requires Safe(h) && Safe(rest)
    ensures var x := "https://" + h + rest;
      && Sanitize(x) == x && HasScheme(x) && Lower(Before(x, ':')) == "https"
      && AfterScheme(x) == "//" + (h + rest)
      && NetlocOf(AfterScheme(x)) == h && AfterNetloc(AfterScheme(x)) == rest
  {
    var x := "https://" + h + rest;
    var t := "//" + (h + rest);
    assert x == "https" + [':'] + t;
    assert Safe(x);
    SanitizeKeeps(x);
    SchemeOfHttps(t);
    NetlocText(h, rest);
  }

  /** `HTTPS://<rest>`: the scheme `https`, and the same rest. */
  lemma UpperHttpsText(rest: string)
    requires Safe(rest)
    ensures var x := "HTTPS://" + rest;
      Sanitize(x) == x && HasScheme(x) && Lower(Before(x, ':')) == "https" && AfterScheme(x) == "//" + rest
  {
    var x := "HTTPS://" + rest;
    var t := "//" + rest;
    assert "HTTPS://" == "HTTPS" + [':'] + "//";
    Regroup3("HTTPS" + [':'], "//", rest);
    assert Safe(x);
    SanitizeKeeps(x);
    UpperScheme(t);
  }

  /** An address that starts with `HTTPS:` has the scheme https. */
  lemma UpperScheme(t: string)
    ensures var x := "HTTPS" + [':'] + t; HasScheme(x) && Lower(Before(x, ':')) == "https" && AfterScheme(x) == t
  {
    BeforeAfterAt("HTTPS", t, ':');
    LowerHttps();
  }

  lemma LowerHttps()
    ensures Lower("HTTPS") == "https"
  {
  }

  /** The last segment of a path grows by what is appended without a '/'. */
  lemma SegmentAppend(path: string, tail: string)
    requires '/' !in tail
    ensures LastSegment(path + tail) == LastSegment(path) + tail
  {
    var k := SegmentStart(path);
    var u := path + tail;
    assert u[k..] == path[k..] + tail;
    if k > 0 {
      assert u[k - 1] == path[k - 1];
    }
    SegmentStartIs(u, k);
  }

  /** An absolute path stays one of an https address when text without '/', ';', '?' and '#' is appended. */
  lemma AddressTail(h: string, path: string, tail: string)
    requires HttpsAddress(h, path) && path != ""
    requires '?' !in tail && '#' !in tail && ';' !in tail && '/' !in tail && Safe(tail)
    ensures HttpsAddress(h, path + tail)
  {
    SegmentAppend(path, tail);
    assert (path + tail)[0] == '/';
  }

  /**
   * The usual image address: the size parameters after `ci_seal` are deleted, and the seal stays,
   * decoded and written again by `urlencode`.
   */
  lemma CleanSizedSealedUrl(h: string, path: string, v: string, dw: string, dh: string)
    requires PlainAddress(h, path) && '?' !in v && '&' !in v && '#' !in v && Safe(v) && v != ""
    requires dw != [] && AllDigits(dw) && dh != [] && AllDigits(dh)
    ensures CleanImageUrl("https://" + h + path + "?ci_seal=" + v + "&w=" + dw + "&h=" + dh)
            == Some("https://" + h + path + "?ci_seal=" + Encode(Decode(v), Python))
  {
    PlainAddressChars(h, path);
    SizedSealedUnsized("https://" + h + path, v, dw, dh);
    CleanOfSealed("https://" + h + path + "?ci_seal=" + v + "&w=" + dw + "&h=" + dh, h, path, v);
  }

  /** An address whose unsized form is `https://<h><path>?ci_seal=<v>` is cleaned to the same with `v` decoded and encoded again. */
  lemma CleanOfSealed(url: string, h: string, path: string, v: string)
    requires HttpsAddress(h, path) && '&' !in v && '#' !in v && Safe(v) && v != ""
    requires Unsized(url) == "https://" + h + path + "?ci_seal=" + v
    ensures CleanImageUrl(url) == Some("https://" + h + path + "?ci_seal=" + Encode(Decode(v), Python))
  {
    SealedParts(h, path, v);
    SealFieldValue(v);
    var e := Encode(Decode(v), Python);
    EncodeHasNoDelimiter(Decode(v), Python);
    EncodeSafe(Decode(v), Python);
    SealedParts(h, path, e);
  }

  /** `https://<h><path>?ci_seal=<v>` is what `urlunparse` writes for its parts, and `urlparse` reads them back. */
  lemma SealedParts(h: string, path: string, v: string)
    requires HttpsAddress(h, path) && '&' !in v && '#' !in v && Safe(v)
    ensures var q := Parts("https", h, path, "", SealName + "=" + v, "");
      UnparseUrl(q) == "https://" + h + path + "?ci_seal=" + v && ParseUrl(UnparseUrl(q)) == Some(q)
  {
    var query := SealName + "=" + v;
    SealFieldChars(v);
    SealFieldSafe(v);
    PlainParts(h, path, query, "");
    SealText("https://" + h + path, v);
  }

  /** The address with the query `ci_seal=<v>` and no fragment. */
  lemma SealText(b: string, v: string)
    ensures b + QueryText(SealName + "=" + v) + FragmentText("") == b + "?ci_seal=" + v
  {
    assert "?" + SealName + "=" == "?ci_seal=";
    Regroup(b, "?", SealName + "=", v);
    assert QueryText(SealName + "=" + v) == "?" + (SealName + "=" + v);
    Regroup("?", SealName, "=", v);
  }

  /** The single field `ci_seal=<v>` gives the decoded `v`. */
  lemma SealFieldValue(v: string)
    requires '&' !in v && v != ""
    ensures Seal(SealName + "=" + v) == Some(Decode(v))
  {
    var q := SealName + "=" + v;
    SealFieldChars(v);
    SplitWithout(q, '&');
    FieldOfPair(SealName, v);
  }

  /** An address whose unsized form is an https address without query or fragment is cleaned to that form. */
  lemma CleanWithoutQuery(url: string, h: string, path: string)
    requires HttpsAddress(h, path) && Unsized(url) == "https://" + h + path
    ensures CleanImageUrl(url) == Some(Unsized(url))
  {
    PlainParts(h, path, "", "");
    NoSeal();
    NoQueryText("https://" + h + path);
  }

  /** The empty query has no seal. */
  lemma NoSeal()
    ensures Seal("") == None
  {
    assert Split("", '&') == [""];
    assert [""][1..] == [];
  }

  /** An empty query and an empty fragment add nothing. */
  lemma NoQueryText(b: string)
    ensures b + QueryText("") + FragmentText("") == b
  {
    assert QueryText("") == [] && FragmentText("") == [];
  }

  /**
   * When the width comes first, deleting `?w=...` takes the '?' with it: the rest of the query
   * becomes part of the path and the address keeps `&ci_seal=<v>` there, with no query.
   */
  lemma CleanLeadingWidthUrl(h: string, path: string, dw: string, v: string)
    requires PlainAddress(h, path) && path != ""
    requires '?' !in v && '&' !in v && '#' !in v && ';' !in v && '/' !in v && Safe(v)
    requires dw != [] && AllDigits(dw)
    ensures CleanImageUrl("https://" + h + path + "?w=" + dw + "&ci_seal=" + v) == Some("https://" + h + path + "&ci_seal=" + v)
  {
    var b := "https://" + h + path;
    var tail := "&ci_seal=" + v;
    var url := b + (['?', 'w', '='] + dw + tail);
    assert "?w=" == ['?', 'w', '='];
    Regroup(b, "?w=", dw, tail);
    Regroup3(b + "?w=" + dw, "&ci_seal=", v);
    PlainAddressChars(h, path);
    LeadingWidthStripped(b, dw, v);
    PathSealPlain(b, v, 'h');
    StripWithoutMatch(b + tail, 'h');
    assert Unsized(url) == b + tail;
    PathSealChars(v);
    AddressTail(h, path, tail);
    Regroup3("https://" + h, path, tail);
    CleanWithoutQuery(url, h, path + tail);
    Regroup3(b, "&ci_seal=", v);
  }

  /** A network location with an '[' and no ']' makes `urlparse` raise, so cleaning fails. */
  lemma CleanUnpairedBracket(h: string, path: string)
    requires '[' in h && ']' !in h && '&' !in h && Safe(h) && forall k :: 0 <= k < |h| ==> InNetloc(h[k])
    requires (path == "" || path[0] == '/') && '?' !in path && '&' !in path && Safe(path)
    ensures CleanImageUrl("https://" + h + path) == None
  {
    var x := "https://" + h + path;
    assert '?' !in x && '&' !in x;
    UnsizedPlain(x);
    HttpsText(h, path);
  }

  /** The scheme is read lower-cased, so an upper-case one is written back in lower case. */
  lemma CleanUpperCaseScheme(h: string, path: string)
    requires PlainAddress(h, path)
    ensures CleanImageUrl("HTTPS://" + h + path) == Some("https://" + h + path)
  {
    var x := "HTTPS://" + h + path;
    var y := "https://" + h + path;
    PlainAddressChars(h, path);
    assert x == "HTTPS://" + (h + path) && '?' !in x && '&' !in x;
    UnsizedPlain(x);
    UnsizedPlain(y);
    assert Safe(h + path);
    UpperHttpsText(h + path);
    assert path == "" || IsNetlocEnd(path[0]);
    HttpsText(h, path);
    ParseUrlBy(x, y);
    CleanWithoutQuery(y, h, path);
  }
}
