/**
 * Python's `urljoin(base, url)` for the one base the scraper uses, `https://www.immowelt.de`,
 * following `urllib.parse`: the reference is read by `urlsplit` (and `urlparse`'s split of the
 * path parameters); a reference with another scheme stands for itself; one with its own network
 * location is written back by `urlunparse`; any other takes the site's location, and its path is
 * resolved: `.` and `..` segments are removed and, for a relative path, the empty segments between
 * the first and the last are dropped.
 */
module UrlJoin {
  import opened Wrappers
  import opened Strings
  import opened Seqs

  /** The site card links are resolved against, and its network location. */
  const SiteUrl: string := "https://www.immowelt.de"
  const Host: string := "www.immowelt.de"

  /** The six parts `urlparse` splits an address into. */
  datatype Parts = Parts(scheme: string, netloc: string, path: string, params: string, query: string, fragment: string)

  /** The C0 controls and the space, which `urlsplit` strips from the front of a reference. */
  predicate IsControlOrSpace(c: char)
  {
    c <= ' '
  }

  /** Tab, carriage return and line feed, which `urlsplit` deletes wherever they occur. */
  predicate IsUnsafe(c: char)
  {
    c == '\t' || c == '\r' || c == '\n'
  }

  predicate Safe(x: string)
  {
    '\t' !in x && '\r' !in x && '\n' !in x
  }

  /** The reference as `urlsplit` reads it: leading controls and spaces stripped, tabs and line breaks deleted. */
  function Sanitize(ref: string): (r: string)
    ensures Safe(r)
  {
    var s := ref[Span(ref, IsControlOrSpace)..];
    Delete(Delete(Delete(s, '\t'), '\r'), '\n')
  }

  predicate IsAsciiLetter(c: char)
  {
    'a' <= c <= 'z' || 'A' <= c <= 'Z'
  }

  predicate IsSchemeChar(c: char)
  {
    IsAsciiLetter(c) || IsDigit(c) || c == '+' || c == '-' || c == '.'
  }

  /** `urlsplit` finds a scheme: an ASCII letter and then scheme characters up to the first ':'. */
  predicate HasScheme(ref: string)
  {
    var name := Before(ref, ':');
    ':' in ref && name != [] && IsAsciiLetter(name[0]) && forall k :: 0 <= k < |name| ==> IsSchemeChar(name[k])
  }

  /** `str.lower()` on ASCII text. */
  function Lower(s: string): (r: string)
    ensures |r| == |s|
  {
    if s == [] then [] else [if 'A' <= s[0] <= 'Z' then (s[0] as int + 32) as char else s[0]] + Lower(s[1..])
  }

  /** The scheme: the lower-cased name before the first ':' when there is one, else the base's `https`. */
  function SchemeOf(s: string): string
  {
    if HasScheme(s) then Lower(Before(s, ':')) else "https"
  }

  function AfterScheme(s: string): string
  {
    if HasScheme(s) then After(s, ':') else s
  }

  /** The characters that end a network location. */
  predicate IsNetlocEnd(c: char)
  {
    c == '/' || c == '?' || c == '#'
  }

  predicate InNetloc(c: char)
  {
    !IsNetlocEnd(c)
  }

  /** After `//`, the network location runs up to the first '/', '?' or '#'. */
  function NetlocOf(t: string): string
  {
    if "//" <= t then t[2..2 + Span(t[2..], InNetloc)] else ""
  }

  function AfterNetloc(t: string): string
  {
    if "//" <= t then t[2 + Span(t[2..], InNetloc)..] else t
  }

  /** A network location with an '[' but no ']', or the reverse, makes `urlsplit` raise `ValueError`. */
  predicate BracketsPaired(netloc: string)
  {
    ('[' in netloc) == (']' in netloc)
  }

  /** Where the last segment of a path starts: after its last '/', or at 0 without one. */
  function SegmentStart(u: string): (k: nat)
    ensures k <= |u| && '/' !in u[k..] && (k > 0 ==> u[k - 1] == '/')
  {
    assert u[|u|..] == [];
    SegmentStartBefore(u, |u|)
  }

  /** The start of the segment that ends at index `i`. */
  function SegmentStartBefore(u: string, i: nat): (k: nat)
    requires i <= |u|
    ensures k <= i && '/' !in u[k..i] && (k > 0 ==> u[k - 1] == '/')
  {
    if i == 0 || u[i - 1] == '/' then i
    else
      var k := SegmentStartBefore(u, i - 1);
      assert u[k..i] == u[k..i - 1] + [u[i - 1]];
      k
  }

  function LastSegment(u: string): string
  {
    u[SegmentStart(u)..]
  }

  /** `_splitparams`: the parameters start at the first ';' of the last segment. */
  function SplitParams(u: string): (string, string)
  {
    var k := SegmentStart(u);
    if ';' in u[k..] then (u[..k] + Before(u[k..], ';'), After(u[k..], ';')) else (u, "")
  }

  /** `urlparse(s, 'https')`, or none when it raises. */
  function SplitUrl(s: string): Option<Parts>
  {
    var t := AfterScheme(s);
    var netloc := NetlocOf(t);
    var rest := AfterNetloc(t);
    var beforeFragment := Before(rest, '#');
    var pathAndParams := SplitParams(Before(beforeFragment, '?'));
    if !BracketsPaired(netloc) then None
    else Some(Parts(SchemeOf(s), netloc, pathAndParams.0, pathAndParams.1, After(beforeFragment, '?'), After(rest, '#')))
  }

  /** The path and the parameters as `urlunparse` writes them after a network location: with a '/' in front when missing. */
  function PathText(path: string, params: string): string
  {
    var u := path + ParamsText(params);
    if u != "" && u[0] != '/' then "/" + u else u
  }

  function ParamsText(params: string): string
  {
    if params != "" then ";" + params else ""
  }

  function QueryText(query: string): string
  {
    if query != "" then "?" + query else ""
  }

  function FragmentText(fragment: string): string
  {
    if fragment != "" then "#" + fragment else ""
  }

  /** `urlunparse` of parts with a network location; an empty query or fragment is left out. */
  function Unparse(q: Parts): string
  {
    q.scheme + "://" + q.netloc + TailText(q)
  }

  /** Everything `urlunparse` writes after the network location. */
  function TailText(q: Parts): string
  {
    PathText(q.path, q.params) + (QueryText(q.query) + FragmentText(q.fragment))
  }

  /**
   * The segments a path is resolved from: an absolute path's own, or, for a relative one, the
   * empty segment of the site's empty base path followed by the path's, with the empty segments
   * between the first and the last dropped.
   */
  function Segments(path: string): (segs: seq<string>)
    ensures |segs| >= 2 || (path != "" && path[0] == '/')
    ensures segs != []
  {
    if path != "" && path[0] == '/' then Split(path, '/')
    else
      var all := [""] + Split(path, '/');
      [""] + Filter(all[1..|all| - 1], NonEmpty) + [all[|all| - 1]]
  }

  predicate NonEmpty(s: string)
  {
    s != ""
  }

  predicate IsDot(seg: string)
  {
    seg == "." || seg == ".."
  }

  /** The loop over the segments: `..` removes the last segment kept so far (if any), `.` is skipped, any other is kept. */
  function RemoveDots(segs: seq<string>): seq<string>
  {
    if segs == [] then []
    else
      var kept := RemoveDots(segs[..|segs| - 1]);
      var seg := segs[|segs| - 1];
      if seg == ".." then (if kept == [] then [] else kept[..|kept| - 1])
      else if seg == "." then kept
      else kept + [seg]
  }

  /** The segments kept, with an empty one added when the last was a dot segment. */
  function KeptSegments(path: string): seq<string>
  {
    var segs := Segments(path);
    RemoveDots(segs) + if IsDot(segs[|segs| - 1]) then [""] else []
  }

  /** `'/'.join(resolved_path) or '/'`. */
  function ResolvePath(path: string): (r: string)
    ensures r != ""
  {
    var joined := Join(KeptSegments(path), '/');
    if joined == "" then "/" else joined
  }

  /**
   * `urljoin(SiteUrl, ref)`, or none when it raises: the empty reference gives the site; one with
   * another scheme stands for itself; one with a network location is written back; any other
   * takes the site's network location and, unless it has neither path nor parameters, its path
   * resolved.
   */
  function Resolve(ref: string): Option<string>
  {
    if ref == "" then Some(SiteUrl)
    else match SplitUrl(Sanitize(ref))
      case None => None
      case Some(p) =>
        if p.scheme != "https" then Some(ref)
        else if p.netloc != "" then Some(Unparse(p))
        else if p.path == "" && p.params == "" then Some(Unparse(p.(netloc := Host)))
        else Some(Unparse(p.(netloc := Host, path := ResolvePath(p.path))))
  }

  /** The link of a card: its `href` cut at the first '?' and resolved against the site; none when `urljoin` raises. */
  function JoinLink(href: string): Option<string>
  {
    Resolve(Before(href, '?'))
  }

  /** The path `urlparse` reads back from `PathText`: a relative path gains a '/', and an empty one before parameters becomes "/". */
  function CanonPath(path: string, params: string): string
  {
    if path != "" && path[0] != '/' then "/" + path
    else if path == "" && params != "" then "/"
    else path
  }

  /** The parts `Resolve` writes back: an https address with a network location, each part free of what would end it. */
  predicate Writable(q: Parts)
  {
    q.scheme == "https" && q.netloc != "" && Readable(q)
  }

  /** Parts as `urlsplit` cuts them: none holds a character that would have ended it, or one it deletes. */
  predicate Readable(q: Parts)
  {
    && (forall k :: 0 <= k < |q.netloc| ==> InNetloc(q.netloc[k]))
    && BracketsPaired(q.netloc)
    && ';' !in LastSegment(q.path) && '/' !in q.params
    && '?' !in q.path && '#' !in q.path && '?' !in q.params && '#' !in q.params && '#' !in q.query
    && Safe(q.netloc) && Safe(q.path) && Safe(q.params) && Safe(q.query) && Safe(q.fragment)
  }

  /** The last segment starts at the one index after which there is no '/' and before which there is one. */
  lemma {:induction false} SegmentStartIs(u: string, k: nat)
    requires k <= |u| && '/' !in u[k..] && (k > 0 ==> u[k - 1] == '/')
    ensures SegmentStart(u) == k
  {
  }

  /** A '/' in front of a path leaves its last segment alone. */
  lemma {:induction false} LastSegmentSlash(path: string)
    ensures LastSegment("/" + path) == LastSegment(path)
  {
    var j := SegmentStart(path);
    var u := "/" + path;
    assert u[j + 1..] == path[j..];
    if j > 0 {
      assert u[j] == path[j - 1];
    }
    SegmentStartIs(u, j + 1);
  }

  /** What `urlunparse` writes is the path made absolute, then the parameters. */
  lemma {:induction false} PathTextCanon(path: string, params: string)
    ensures PathText(path, params) == CanonPath(path, params) + ParamsText(params)
  {
  }

  /** Writing the path `urlparse` read back gives the same text. */
  lemma {:induction false} PathTextAgain(path: string, params: string)
    ensures PathText(CanonPath(path, params), params) == PathText(path, params)
  {
    PathTextCanon(path, params);
    var p := CanonPath(path, params);
    var x := ParamsText(params);
    if p != "" {
      assert (p + x)[0] == p[0] == '/';
    } else {
      assert p + x == "";
    }
  }

  /** Making a path absolute leaves its last segment alone. */
  lemma {:induction false} CanonLastSegment(path: string, params: string)
    ensures LastSegment(CanonPath(path, params)) == LastSegment(path)
  {
    if path != "" && path[0] != '/' {
      LastSegmentSlash(path);
    } else if path == "" && params != "" {
      LastSegmentSlash(path);
      assert "/" + path == "/";
    }
  }

  /** `_splitparams` finds the parameters after a path whose last segment has no ';'. */
  lemma {:induction false} SplitParamsText(p: string, params: string)
    requires ';' !in LastSegment(p) && '/' !in params && params != ""
    ensures SplitParams(p + ParamsText(params)) == (p, params)
  {
    var k := SegmentStart(p);
    assert p[..k] + p[k..] == p;
    var tail := [';'] + params;
    var u := p + tail;
    assert u == p + ParamsText(params);
    assert u[k..] == p[k..] + [';'] + params;
    assert u[..k] == p[..k];
    assert '/' !in u[k..];
    if k > 0 {
      assert u[k - 1] == p[k - 1];
    }
    SegmentStartIs(u, k);
    BeforeAfterAt(p[k..], params, ';');
    assert ';' in u[k..] && Before(u[k..], ';') == p[k..] && After(u[k..], ';') == params;
    assert SplitParams(u) == (u[..k] + p[k..], params);
  }

  /** `urlparse` reads the path and parameters `urlunparse` wrote, with the path made absolute. */
  lemma {:induction false} PathTextSplit(path: string, params: string)
    requires ';' !in LastSegment(path) && '/' !in params
    ensures SplitParams(PathText(path, params)) == (CanonPath(path, params), params)
    ensures PathText(CanonPath(path, params), params) == PathText(path, params)
  {
    var p := CanonPath(path, params);
    PathTextCanon(path, params);
    PathTextAgain(path, params);
    CanonLastSegment(path, params);
    if params != "" {
      SplitParamsText(p, params);
    } else {
      assert p + ParamsText(params) == p;
    }
  }

  /** A network location of characters that do not end one, followed by one that does, is read in full. */
  lemma {:induction false} NetlocSpan(netloc: string, tail: string)
    requires forall k :: 0 <= k < |netloc| ==> InNetloc(netloc[k])
    requires tail == "" || IsNetlocEnd(tail[0])
    ensures Span(netloc + tail, InNetloc) == |netloc|
  {
    if netloc == "" {
      assert netloc + tail == tail;
    } else {
      assert (netloc + tail)[1..] == netloc[1..] + tail;
      NetlocSpan(netloc[1..], tail);
    }
  }

  /** An address that starts with `https:` has the scheme https. */
  lemma {:induction false} SchemeOfHttps(t: string)
    ensures var s := "https" + [':'] + t; HasScheme(s) && SchemeOf(s) == "https" && AfterScheme(s) == t
  {
    BeforeAfterAt("https", t, ':');
    assert Lower("https") == "https";
  }

  /** A '#' marks the fragment, after a text without one. */
  lemma {:induction false} FragmentSplit(a: string, fragment: string)
    requires '#' !in a
    ensures Before(a + FragmentText(fragment), '#') == a && After(a + FragmentText(fragment), '#') == fragment
  {
    if fragment == "" {
      assert a + FragmentText(fragment) == a;
      BeforeAbsent(a, '#');
    } else {
      assert a + FragmentText(fragment) == a + ['#'] + fragment;
      BeforeAfterAt(a, fragment, '#');
    }
  }

  /** A '?' marks the query, after a text without one. */
  lemma {:induction false} QuerySplit(a: string, query: string)
    requires '?' !in a
    ensures Before(a + QueryText(query), '?') == a && After(a + QueryText(query), '?') == query
  {
    if query == "" {
      assert a + QueryText(query) == a;
      BeforeAbsent(a, '?');
    } else {
      assert a + QueryText(query) == a + ['?'] + query;
      BeforeAfterAt(a, query, '?');
    }
  }

  /** `urlsplit` finds nothing to strip or delete in what `urlunparse` wrote. */
  lemma {:induction false} UnparseSafe(q: Parts)
    requires Writable(q)
    ensures Sanitize(Unparse(q)) == Unparse(q)
  {
    var s := Unparse(q);
    var u := q.path + (if q.params != "" then ";" + q.params else "");
    assert Safe(u);
    assert Safe(PathText(q.path, q.params));
    assert Safe(QueryText(q.query)) && Safe(FragmentText(q.fragment));
    assert Safe(s);
    assert s[0] == 'h';
    assert s[Span(s, IsControlOrSpace)..] == s;
  }

  lemma {:induction false} UnparseShape(q: Parts)
    ensures Unparse(q) == q.scheme + [':'] + ("//" + (q.netloc + TailText(q)))
  {
  }

  /** Behind the network location, `urlsplit` finds the fragment after the first '#' and the query after the first '?'. */
  lemma {:induction false} TailSplit(q: Parts)
    requires Writable(q)
    ensures Before(TailText(q), '#') == PathText(q.path, q.params) + QueryText(q.query)
    ensures After(TailText(q), '#') == q.fragment
    ensures Before(PathText(q.path, q.params) + QueryText(q.query), '?') == PathText(q.path, q.params)
    ensures After(PathText(q.path, q.params) + QueryText(q.query), '?') == q.query
  {
    var u := PathText(q.path, q.params);
    assert TailText(q) == (u + QueryText(q.query)) + FragmentText(q.fragment);
    FragmentSplit(u + QueryText(q.query), q.fragment);
    QuerySplit(u, q.query);
  }

  /** After `//`, `urlsplit` reads a network location up to the character that ends it. */
  lemma {:induction false} NetlocText(netloc: string, tail: string)
    requires forall k :: 0 <= k < |netloc| ==> InNetloc(netloc[k])
    requires tail == "" || IsNetlocEnd(tail[0])
    ensures NetlocOf("//" + (netloc + tail)) == netloc && AfterNetloc("//" + (netloc + tail)) == tail
  {
    var t := "//" + (netloc + tail);
    NetlocSpan(netloc, tail);
    assert t[2..] == netloc + tail;
  }

  /** What follows the network location starts with a character that ends it. */
  lemma {:induction false} TailStart(q: Parts)
    ensures TailText(q) == "" || IsNetlocEnd(TailText(q)[0])
  {
    var u := PathText(q.path, q.params);
    if u != "" {
      assert TailText(q)[0] == u[0];
    } else if q.query != "" {
      assert TailText(q)[0] == '?';
    } else if q.fragment != "" {
      assert TailText(q)[0] == '#';
    }
  }

  /** `urlsplit` reads back what `urlunparse` wrote: the same parts, with the path made absolute. */
  lemma {:induction false} Reparse(q: Parts)
    requires Writable(q)
    ensures Sanitize(Unparse(q)) == Unparse(q)
    ensures SplitUrl(Unparse(q)) == Some(q.(path := CanonPath(q.path, q.params)))
  {
    var t := "//" + (q.netloc + TailText(q));
    UnparseSafe(q);
    UnparseShape(q);
    SchemeOfHttps(t);
    TailStart(q);
    NetlocText(q.netloc, TailText(q));
    TailSplit(q);
    PathTextSplit(q.path, q.params);
  }

  /** Reading back what `urlunparse` wrote and writing it again changes nothing, so `Resolve` keeps it. */
  lemma {:induction false} ReparseResolves(q: Parts)
    requires Writable(q)
    ensures Resolve(Unparse(q)) == Some(Unparse(q))
  {
    Reparse(q);
    PathTextSplit(q.path, q.params);
    var q' := q.(path := CanonPath(q.path, q.params));
    assert Unparse(q') == Unparse(q);
    assert Unparse(q) != "";
  }

  /** A character missing from a text is missing from what is cut out of it. */
  lemma {:induction false} Missing(s: string, x: char)
    requires x !in s
    ensures forall c :: x !in Before(s, c) && x !in After(s, c)
    ensures forall i, j :: 0 <= i <= j <= |s| ==> x !in s[i..j]
  {
    forall c
      ensures x !in Before(s, c) && x !in After(s, c)
    {
      var b := Before(s, c);
      assert b == s[..|b|];
    }
    forall i, j | 0 <= i <= j <= |s|
      ensures x !in s[i..j]
    {
      assert forall k :: 0 <= k < j - i ==> s[i..j][k] == s[i + k];
    }
  }

  /** What `_splitparams` cuts out of a path and parameters. */
  lemma {:induction false} SplitParamsParts(u: string)
    ensures ';' !in LastSegment(SplitParams(u).0) && '/' !in SplitParams(u).1
    ensures forall x :: x !in u ==> x !in SplitParams(u).0 && x !in SplitParams(u).1
  {
    var k := SegmentStart(u);
    var v := u[k..];
    assert u == u[..k] + v;
    if ';' in v {
      var b := Before(v, ';');
      var path := u[..k] + b;
      assert b == v[..|b|];
      assert path[k..] == b;
      if k > 0 {
        assert path[k - 1] == u[k - 1];
      }
      SegmentStartIs(path, k);
      forall x | x !in u
        ensures x !in path && x !in After(v, ';')
      {
        Missing(u, x);
        Missing(v, x);
      }
      Missing(v, '/');
    }
  }

  /** What `urlsplit` cuts out of a reference holds none of the characters that would have ended it. */
  lemma {:induction false} SplitUrlParts(s: string)
    requires Safe(s) && SplitUrl(s).Some?
    ensures Readable(SplitUrl(s).value)
  {
    var t := AfterScheme(s);
    var rest := AfterNetloc(t);
    var beforeFragment := Before(rest, '#');
    var pathAndParams := SplitParams(Before(beforeFragment, '?'));
    assert SplitUrl(s).value == Parts(SchemeOf(s), NetlocOf(t), pathAndParams.0, pathAndParams.1,
                                      After(beforeFragment, '?'), After(rest, '#'));
    NetlocParts(s);
    RestParts(rest);
    SplitParamsParts(Before(beforeFragment, '?'));
  }

  /** The network location and what follows it are cut out of a safe reference. */
  lemma {:induction false} NetlocParts(s: string)
    requires Safe(s)
    ensures var t := AfterScheme(s); Safe(NetlocOf(t)) && Safe(AfterNetloc(t))
  {
    var t := AfterScheme(s);
    forall x | IsUnsafe(x)
      ensures x !in t
    {
      Missing(s, x);
    }
    forall x | IsUnsafe(x)
      ensures x !in NetlocOf(t) && x !in AfterNetloc(t)
    {
      Missing(t, x);
    }
  }

  /** Behind the network location, the query holds no '#', and path, parameters and query no '?' or '#'. */
  lemma {:induction false} RestParts(rest: string)
    requires Safe(rest)
    ensures var beforeFragment := Before(rest, '#');
      && Safe(Before(beforeFragment, '?')) && '#' !in Before(beforeFragment, '?') && '?' !in Before(beforeFragment, '?')
      && Safe(After(beforeFragment, '?')) && '#' !in After(beforeFragment, '?')
      && Safe(After(rest, '#'))
  {
    var beforeFragment := Before(rest, '#');
    forall x | IsUnsafe(x)
      ensures x !in beforeFragment
    {
      Missing(rest, x);
    }
    forall x | IsUnsafe(x) || x == '#'
      ensures x !in Before(beforeFragment, '?') && x !in After(beforeFragment, '?')
    {
      Missing(beforeFragment, x);
    }
    forall x | IsUnsafe(x)
      ensures x !in After(rest, '#')
    {
      Missing(rest, x);
    }
  }

  /** Every segment of the path is non-empty and no dot segment. */
  predicate PlainPath(path: string)
  {
    var segs := Split(path, '/');
    forall k :: 0 <= k < |segs| ==> segs[k] != "" && !IsDot(segs[k])
  }

  /** No segment of the path is `.` or `..`. */
  predicate DotFree(path: string)
  {
    var segs := Split(path, '/');
    forall k :: 0 <= k < |segs| ==> !IsDot(segs[k])
  }

  lemma {:induction false} SplitMissing(s: string, c: char, x: char)
    requires x !in s
    ensures forall k :: 0 <= k < |Split(s, c)| ==> x !in Split(s, c)[k]
    decreases |s|
  {
    if s != [] {
      SplitMissing(s[1..], c, x);
    }
  }

  lemma {:induction false} JoinMissing(parts: seq<string>, c: char, x: char)
    requires x != c && forall k :: 0 <= k < |parts| ==> x !in parts[k]
    ensures x !in Join(parts, c)
  {
    if |parts| > 1 {
      JoinMissing(parts[1..], c, x);
    }
  }

  /** Every segment kept is one of the segments and no dot segment. */
  lemma {:induction false} RemoveDotsElements(segs: seq<string>)
    ensures forall k :: 0 <= k < |RemoveDots(segs)| ==> RemoveDots(segs)[k] in segs && !IsDot(RemoveDots(segs)[k])
  {
    if segs != [] {
      var init := segs[..|segs| - 1];
      RemoveDotsElements(init);
      assert forall t :: t in init ==> t in segs;
    }
  }

  /** The segments a path is resolved from are pieces of it, without '/'. */
  lemma {:induction false} SegmentsShape(path: string)
    ensures forall k :: 0 <= k < |Segments(path)| ==> Segments(path)[k] in Split(path, '/') + [""]
    ensures forall k :: 0 <= k < |Segments(path)| ==> '/' !in Segments(path)[k]
  {
    if !(path != "" && path[0] == '/') {
      var all := [""] + Split(path, '/');
      FilterElements(all[1..|all| - 1], NonEmpty);
    }
  }

  /** The segments kept are pieces of the path without '/', none of them a dot segment. */
  lemma {:induction false} KeptShape(path: string)
    ensures forall k :: 0 <= k < |KeptSegments(path)| ==> KeptSegments(path)[k] in Split(path, '/') + [""]
    ensures forall k :: 0 <= k < |KeptSegments(path)| ==> '/' !in KeptSegments(path)[k] && !IsDot(KeptSegments(path)[k])
  {
    SegmentsShape(path);
    RemoveDotsElements(Segments(path));
  }

  /** A character missing from the path is missing from every segment kept. */
  lemma {:induction false} KeptMissing(path: string, x: char)
    requires x !in path
    ensures forall k :: 0 <= k < |KeptSegments(path)| ==> x !in KeptSegments(path)[k]
  {
    SplitMissing(path, '/', x);
    KeptShape(path);
  }

  /** The last segment of joined pieces is the last piece. */
  lemma {:induction false} LastSegmentJoin(parts: seq<string>)
    requires parts != [] && forall k :: 0 <= k < |parts| ==> '/' !in parts[k]
    ensures LastSegment(Join(parts, '/')) == parts[|parts| - 1]
  {
    if |parts| == 1 {
      SegmentStartIs(parts[0], 0);
    } else {
      LastSegmentJoin(parts[1..]);
      LastSegmentAfterSlash(parts[0], Join(parts[1..], '/'));
    }
  }

  /** Behind a '/', the last segment is that of what follows it. */
  lemma {:induction false} LastSegmentAfterSlash(head: string, rest: string)
    ensures LastSegment(head + ['/'] + rest) == LastSegment(rest)
  {
    var u := head + ['/'] + rest;
    var k := SegmentStart(rest);
    assert u[|head| + 1 + k..] == rest[k..];
    if k > 0 {
      assert u[|head| + k] == rest[k - 1];
    }
    SegmentStartIs(u, |head| + 1 + k);
  }

  /** The last piece of a path split at '/' is its last segment. */
  lemma {:induction false} SplitLast(path: string)
    ensures Split(path, '/')[|Split(path, '/')| - 1] == LastSegment(path)
  {
    JoinSplit(path, '/');
    LastSegmentJoin(Split(path, '/'));
  }

  /** The last segment kept is the path's own last segment, or empty. */
  lemma {:induction false} KeptLast(path: string)
    ensures var kept := KeptSegments(path); kept != [] && (kept[|kept| - 1] == "" || kept[|kept| - 1] == LastSegment(path))
  {
    var segs := Segments(path);
    SplitLast(path);
    SegmentsLast(path);
    if !IsDot(segs[|segs| - 1]) {
      RemoveDotsLast(segs);
    }
  }

  /** The last of the segments resolved is the path's last piece. */
  lemma {:induction false} SegmentsLast(path: string)
    ensures Segments(path)[|Segments(path)| - 1] == Split(path, '/')[|Split(path, '/')| - 1]
  {
  }

  /** A last segment that is no dot segment is kept last. */
  lemma {:induction false} RemoveDotsLast(segs: seq<string>)
    requires segs != [] && !IsDot(segs[|segs| - 1])
    ensures RemoveDots(segs) != [] && RemoveDots(segs)[|RemoveDots(segs)| - 1] == segs[|segs| - 1]
  {
  }

  /** Resolving a path adds no character but '/'. */
  lemma {:induction false} ResolvePathMissing(path: string, x: char)
    requires x != '/' && x !in path
    ensures x !in ResolvePath(path)
  {
    KeptMissing(path, x);
    JoinMissing(KeptSegments(path), '/', x);
  }

  /** Resolving a path keeps a last segment without ';' so. */
  lemma {:induction false} ResolvePathLast(path: string)
    requires ';' !in LastSegment(path)
    ensures ';' !in LastSegment(ResolvePath(path))
  {
    var kept := KeptSegments(path);
    KeptShape(path);
    KeptLast(path);
    if Join(kept, '/') == "" {
      SegmentStartIs("/", 1);
    } else {
      LastSegmentJoin(kept);
    }
  }

  /** A resolved path has no `.` or `..` segment. */
  lemma {:induction false} ResolvePathDotFree(path: string)
    ensures DotFree(ResolvePath(path))
  {
    var kept := KeptSegments(path);
    KeptShape(path);
    KeptLast(path);
    if Join(kept, '/') == "" {
      assert Split("/", '/') == ["", ""];
    } else {
      SplitJoin(kept, '/');
    }
  }

  /** The parts `Resolve` writes back with `urlunparse`, when it writes any. */
  function Written(ref: string): Option<Parts>
  {
    if ref == "" then Some(Parts("https", Host, "", "", "", ""))
    else match SplitUrl(Sanitize(ref))
      case None => None
      case Some(p) =>
        if p.scheme != "https" then None
        else if p.netloc != "" then Some(p)
        else if p.path == "" && p.params == "" then Some(p.(netloc := Host))
        else Some(p.(netloc := Host, path := ResolvePath(p.path)))
  }

  /** The site's network location is one `urlsplit` reads whole. */
  lemma {:induction false} HostFacts()
    ensures forall k :: 0 <= k < |Host| ==> InNetloc(Host[k]) && !IsUnsafe(Host[k]) && Host[k] != '[' && Host[k] != ']'
    ensures Safe(Host) && BracketsPaired(Host) && Host != ""
  {
    assert forall k :: 0 <= k < |Host| ==> 'a' <= Host[k] <= 'z' || Host[k] == '.';
  }

  /** The site's own address. */
  lemma {:induction false} SiteWritable()
    ensures Writable(Parts("https", Host, "", "", "", ""))
  {
    HostFacts();
    SegmentStartIs("", 0);
  }

  /** `urlunparse` of the site's own parts is the site's address. */
  lemma {:induction false} SiteUnparse()
    ensures Unparse(Parts("https", Host, "", "", "", "")) == SiteUrl
  {
    var q := Parts("https", Host, "", "", "", "");
    assert TailText(q) == "";
    assert "https" + "://" + Host == SiteUrl;
  }

  /** The site's network location in place of none. */
  lemma {:induction false} HostReadable(p: Parts)
    requires Readable(p) && p.netloc == ""
    ensures Readable(p.(netloc := Host))
  {
    HostFacts();
  }

  /** A resolved path in place of the reference's. */
  lemma {:induction false} ResolvedReadable(p: Parts)
    requires Readable(p)
    ensures Readable(p.(path := ResolvePath(p.path)))
  {
    forall x | x == '?' || x == '#' || IsUnsafe(x)
      ensures x !in ResolvePath(p.path)
    {
      ResolvePathMissing(p.path, x);
    }
    ResolvePathLast(p.path);
  }

  /** What `Resolve` writes back is an address `urlsplit` reads back unchanged. */
  lemma {:induction false} WrittenWritable(ref: string)
    ensures Written(ref).Some? ==> Writable(Written(ref).value)
  {
    if ref == "" {
      SiteWritable();
    } else if SplitUrl(Sanitize(ref)).Some? {
      var p := SplitUrl(Sanitize(ref)).value;
      SplitUrlParts(Sanitize(ref));
      if p.scheme == "https" {
        WrittenFrom(p);
      }
    }
  }

  /** Each address `Resolve` writes from parts `urlsplit` read is one it reads back. */
  lemma {:induction false} WrittenFrom(p: Parts)
    requires Readable(p) && p.scheme == "https"
    ensures p.netloc != "" ==> Writable(p)
    ensures p.netloc == "" ==> Writable(p.(netloc := Host)) && Writable(p.(netloc := Host, path := ResolvePath(p.path)))
  {
    if p.netloc == "" {
      HostReadable(p);
      ResolvedReadable(p.(netloc := Host));
    }
  }

  /** `Resolve` gives what it writes back, whenever it writes. */
  lemma {:induction false} WrittenResolves(ref: string)
    ensures Written(ref).Some? ==> Resolve(ref) == Some(Unparse(Written(ref).value))
  {
    if ref == "" {
      SiteUnparse();
    }
  }

  /** Resolving a resolved address gives it back. */
  lemma {:induction false} ResolveIdempotent(ref: string)
    requires Resolve(ref).Some?
    ensures Resolve(Resolve(ref).value) == Resolve(ref)
  {
    WrittenWritable(ref);
    WrittenResolves(ref);
    if Written(ref).Some? {
      ReparseResolves(Written(ref).value);
    }
  }

  /** A resolved address is absolute: it has a scheme and, when that is https, a network location. */
  lemma {:induction false} ResolveAbsolute(ref: string)
    requires Resolve(ref).Some?
    ensures var s := Sanitize(Resolve(ref).value); HasScheme(s) && (SchemeOf(s) == "https" ==> NetlocOf(AfterScheme(s)) != "")
  {
    WrittenWritable(ref);
    WrittenResolves(ref);
    if Written(ref).Some? {
      var q := Written(ref).value;
      Reparse(q);
      UnparseShape(q);
      SchemeOfHttps("//" + (q.netloc + TailText(q)));
    }
  }

  /** `urljoin` raises exactly when the reference's network location has an unpaired bracket. */
  lemma {:induction false} ResolveFails(ref: string)
    ensures Resolve(ref).None? <==> ref != "" && !BracketsPaired(NetlocOf(AfterScheme(Sanitize(ref))))
  {
  }

  /** A reference with another scheme stands for itself. */
  lemma {:induction false} ResolveOtherScheme(ref: string)
    requires ref != "" && HasScheme(Sanitize(ref)) && SchemeOf(Sanitize(ref)) != "https"
    requires BracketsPaired(NetlocOf(AfterScheme(Sanitize(ref))))
    ensures Resolve(ref) == Some(ref)
  {
  }

  lemma {:induction false} DotFreeSlash(x: string)
    requires DotFree(x)
    ensures DotFree("/" + x)
  {
    assert ("/" + x)[1..] == x;
  }

  /** An https address written with the site's network location is the site's address and what follows it. */
  lemma {:induction false} SiteText(q: Parts)
    requires q.scheme == "https" && q.netloc == Host
    ensures Unparse(q) == SiteUrl + TailText(q)
  {
    assert "https" + "://" + Host == SiteUrl;
  }

  /** An https address written with the site's network location starts with the site's address. */
  lemma {:induction false} SitePrefix(q: Parts)
    requires q.scheme == "https" && q.netloc == Host
    ensures var r := Unparse(q); SiteUrl <= r && (|r| == |SiteUrl| || IsNetlocEnd(r[|SiteUrl|]))
  {
    var t := TailText(q);
    SiteText(q);
    TailStart(q);
    assert (SiteUrl + t)[..|SiteUrl|] == SiteUrl;
  }

  /** Without a network location of its own, a reference is written back with the site's and a path free of dot segments. */
  lemma {:induction false} OnSiteWritten(ref: string)
    requires ref != "" && SchemeOf(Sanitize(ref)) == "https" && NetlocOf(AfterScheme(Sanitize(ref))) == ""
    ensures Written(ref).Some? && Written(ref).value.netloc == Host
    ensures DotFree(CanonPath(Written(ref).value.path, Written(ref).value.params))
  {
    var p := SplitUrl(Sanitize(ref)).value;
    var q := Written(ref).value;
    if p.path == "" && p.params == "" {
      assert q.path == "" && CanonPath(q.path, q.params) == "";
    } else {
      ResolvePathDotFree(p.path);
      if CanonPath(q.path, q.params) != q.path {
        DotFreeSlash(q.path);
      }
    }
  }

  /**
   * A reference with no network location of its own stays on the site: the result is the site's
   * address followed by a path, a query or a fragment, and its path has no `.` or `..` segment.
   */
  lemma {:induction false} ResolveOnSite(ref: string)
    requires ref != "" && SchemeOf(Sanitize(ref)) == "https" && NetlocOf(AfterScheme(Sanitize(ref))) == ""
    ensures Resolve(ref).Some?
    ensures var r := Resolve(ref).value;
      SiteUrl <= r && (|r| == |SiteUrl| || IsNetlocEnd(r[|SiteUrl|]))
      && SplitUrl(r).Some? && DotFree(SplitUrl(r).value.path)
  {
    OnSiteWritten(ref);
    WrittenWritable(ref);
    WrittenResolves(ref);
    var q := Written(ref).value;
    Reparse(q);
    SitePrefix(q);
  }

  /** A reference with nothing to strip, delete or split off is read as a path alone. */
  lemma {:induction false} PlainParts(ref: string)
    requires ref != "" && !IsControlOrSpace(ref[0]) && !HasScheme(ref) && !("//" <= ref)
    requires Safe(ref) && '?' !in ref && '#' !in ref && ';' !in ref
    ensures Sanitize(ref) == ref && SplitUrl(ref) == Some(Parts("https", "", ref, "", "", ""))
  {
    BeforeAbsent(ref, '#');
    BeforeAbsent(ref, '?');
    Missing(ref, ';');
    assert ref[SegmentStart(ref)..] == ref[SegmentStart(ref)..|ref|];
  }

  lemma {:induction false} RemoveDotsKeeps(segs: seq<string>)
    requires forall k :: 0 <= k < |segs| ==> !IsDot(segs[k])
    ensures RemoveDots(segs) == segs
  {
    if segs != [] {
      RemoveDotsKeeps(segs[..|segs| - 1]);
    }
  }

  /** An absolute path without dot segments resolves to itself. */
  lemma {:induction false} AbsoluteKept(path: string)
    requires path != "" && path[0] == '/' && DotFree(path)
    ensures ResolvePath(path) == path
  {
    var segs := Split(path, '/');
    RemoveDotsKeeps(segs);
    assert KeptSegments(path) == segs;
    JoinSplit(path, '/');
  }

  /** A relative path without empty segments is resolved from the site's empty segment and its own. */
  lemma {:induction false} RelativeSegments(path: string)
    requires path != "" && path[0] != '/'
    requires PlainPath(path)
    ensures Segments(path) == [""] + Split(path, '/')
  {
    var segs := Split(path, '/');
    var all := [""] + segs;
    var init := segs[..|segs| - 1];
    assert all[1..|all| - 1] == init;
    forall i | 0 <= i < |init|
      ensures NonEmpty(init[i])
    {
      assert init[i] == segs[i];
      assert segs[i] != "";
    }
    FilterAll(init, NonEmpty);
    assert init + [segs[|segs| - 1]] == segs;
  }

  /** A relative path of plain, non-empty segments resolves to itself under the site's root. */
  lemma {:induction false} RelativeKept(path: string)
    requires path != "" && path[0] != '/'
    requires PlainPath(path)
    ensures ResolvePath(path) == "/" + path
  {
    RelativeKeptSegments(path);
    JoinSplit(path, '/');
    JoinAfterEmpty(Split(path, '/'));
  }

  /** Joining an empty piece before others puts a '/' in front. */
  lemma {:induction false} JoinAfterEmpty(segs: seq<string>)
    requires segs != []
    ensures Join([""] + segs, '/') == "/" + Join(segs, '/')
  {
    var all := [""] + segs;
    assert all[1..] == segs;
  }

  lemma {:induction false} RelativeKeptSegments(path: string)
    requires path != "" && path[0] != '/'
    requires PlainPath(path)
    ensures KeptSegments(path) == [""] + Split(path, '/')
  {
    var segs := Split(path, '/');
    var all := [""] + segs;
    RelativeSegments(path);
    forall k | 0 <= k < |all|
      ensures !IsDot(all[k])
    {
      if k > 0 {
        assert all[k] == segs[k - 1];
      }
    }
    RemoveDotsKeeps(all);
  }

  /** What `urlunparse` writes for a path alone, under the site. */
  lemma {:induction false} SitePath(path: string)
    requires path != "" && path[0] == '/'
    ensures Unparse(Parts("https", Host, path, "", "", "")) == SiteUrl + path
  {
    SiteText(Parts("https", Host, path, "", "", ""));
  }

  /** A plain absolute path is appended to the site's address. */
  lemma {:induction false} ResolveAbsolutePath(ref: string)
    requires ref != "" && ref[0] == '/' && !("//" <= ref)
    requires Safe(ref) && '?' !in ref && '#' !in ref && ';' !in ref && DotFree(ref)
    ensures Resolve(ref) == Some(SiteUrl + ref)
  {
    assert !HasScheme(ref) by {
      if Before(ref, ':') != [] {
        assert Before(ref, ':')[0] == ref[0];
      }
    }
    PlainParts(ref);
    AbsoluteKept(ref);
    SitePath(ref);
  }

  /** A plain relative path is appended to the site's address after a '/'. */
  lemma {:induction false} ResolveRelativePath(ref: string)
    requires ref != "" && ref[0] != '/' && !IsControlOrSpace(ref[0]) && ':' !in ref
    requires Safe(ref) && '?' !in ref && '#' !in ref && ';' !in ref
    requires PlainPath(ref)
    ensures Resolve(ref) == Some(SiteUrl + ("/" + ref))
  {
    PlainParts(ref);
    RelativeKept(ref);
    SitePath("/" + ref);
  }

  /** A text without the separator is one piece. */
  lemma {:induction false} SplitWhole(s: string, c: char)
    requires c !in s
    ensures Split(s, c) == [s]
  {
    JoinSplit(s, c);
  }

  /** A segment with nothing `urlsplit` or the dot removal would act on. */
  predicate PlainSegment(seg: string)
  {
    seg != "" && !IsDot(seg) && '/' !in seg && '?' !in seg && '#' !in seg && ';' !in seg && ':' !in seg && Safe(seg)
  }

  /** A plain reference is the site's address followed by its resolved path. */
  lemma {:induction false} PlainResolve(ref: string)
    requires ref != "" && !IsControlOrSpace(ref[0]) && !HasScheme(ref) && !("//" <= ref)
    requires Safe(ref) && '?' !in ref && '#' !in ref && ';' !in ref
    requires ResolvePath(ref)[0] == '/'
    ensures Resolve(ref) == Some(SiteUrl + ResolvePath(ref))
  {
    PlainParts(ref);
    SitePath(ResolvePath(ref));
  }

  lemma {:induction false} DotDotSplit(a: string, b: string)
    requires PlainSegment(a) && PlainSegment(b)
    ensures Split("/" + a + "/../" + b, '/') == ["", a, "..", b]
  {
    assert "/" + a + "/../" + b == "" + ['/'] + (a + ['/'] + (".." + ['/'] + b));
    SplitWhole(b, '/');
    SplitPrefix("..", b, '/');
    SplitPrefix(a, ".." + ['/'] + b, '/');
    SplitPrefix("", a + ['/'] + (".." + ['/'] + b), '/');
  }

  lemma {:induction false} DotDotPath(a: string, b: string)
    requires PlainSegment(a) && PlainSegment(b)
    ensures ResolvePath("/" + a + "/../" + b) == "/" + b
  {
    var ref := "/" + a + "/../" + b;
    DotDotSplit(a, b);
    var segs := ["", a, "..", b];
    assert Segments(ref) == segs;
    assert RemoveDots([""]) == [""] by {
      assert [""][..0] == [];
    }
    assert RemoveDots(["", a]) == ["", a] by {
      assert ["", a][..1] == [""];
    }
    assert RemoveDots(["", a, ".."]) == [""] by {
      assert ["", a, ".."][..2] == ["", a];
    }
    assert RemoveDots(segs) == ["", b] by {
      assert segs[..3] == ["", a, ".."];
    }
    assert KeptSegments(ref) == ["", b];
    JoinAfterEmpty([b]);
  }

  /** `urljoin(SiteUrl, "/a/../b")`: a `..` segment removes the segment before it. */
  lemma {:induction false} DotDotCancels(a: string, b: string)
    requires PlainSegment(a) && PlainSegment(b)
    ensures Resolve("/" + a + "/../" + b) == Some(SiteUrl + ("/" + b))
  {
    var ref := "/" + a + "/../" + b;
    assert ref[0] == '/' && ref[1] == a[0];
    assert Safe(ref) && '?' !in ref && '#' !in ref && ';' !in ref;
    DotDotPath(a, b);
    PlainResolve(ref);
  }

  lemma {:induction false} EmptySegmentSplit(a: string, b: string)
    requires PlainSegment(a) && PlainSegment(b)
    ensures Split(a + "//" + b, '/') == [a, "", b]
  {
    assert a + "//" + b == a + ['/'] + ("" + ['/'] + b);
    SplitWhole(b, '/');
    SplitPrefix("", b, '/');
    SplitPrefix(a, "" + ['/'] + b, '/');
  }

  lemma {:induction false} EmptySegmentPath(a: string, b: string)
    requires PlainSegment(a) && PlainSegment(b)
    ensures ResolvePath(a + "//" + b) == "/" + a + "/" + b
  {
    assert ["", a, b] == [""] + [a, b];
    assert "/" + (a + ['/'] + b) == "/" + a + "/" + b;
    EmptySegmentKept(a, b);
    JoinPair(a, b);
    JoinAfterEmpty([a, b]);
  }

  /** The segments kept of `a//b`: the site's empty one, `a` and `b`. */
  lemma {:induction false} EmptySegmentKept(a: string, b: string)
    requires PlainSegment(a) && PlainSegment(b)
    ensures KeptSegments(a + "//" + b) == ["", a, b]
  {
    var ref := a + "//" + b;
    EmptySegmentSplit(a, b);
    var all := [""] + [a, "", b];
    assert all[1..|all| - 1] == [a, ""];
    assert Filter([a, ""], NonEmpty) == [a];
    var segs := ["", a, b];
    assert Segments(ref) == segs;
    RemoveDotsKeeps(segs);
  }

  /** Two pieces joined with '/'. */
  lemma {:induction false} JoinPair(a: string, b: string)
    ensures Join([a, b], '/') == a + ['/'] + b
  {
    assert [a, b][1..] == [b];
  }

  /** `urljoin(SiteUrl, "a//b")`: the empty segment of a relative path is dropped. */
  lemma {:induction false} EmptySegmentDropped(a: string, b: string)
    requires PlainSegment(a) && PlainSegment(b) && !IsControlOrSpace(a[0])
    ensures Resolve(a + "//" + b) == Some(SiteUrl + ("/" + a + "/" + b))
  {
    var ref := a + "//" + b;
    assert ref[0] == a[0] && ':' !in ref;
    assert Safe(ref) && '?' !in ref && '#' !in ref && ';' !in ref;
    EmptySegmentPath(a, b);
    PlainResolve(ref);
  }

  /** `https:` in front of a reference without scheme or network location is read away. */
  lemma {:induction false} SameSchemeSplit(ref: string)
    requires !HasScheme(ref)
    ensures SplitUrl("https:" + ref) == SplitUrl(ref)
  {
    var s := "https" + [':'] + ref;
    assert "https:" + ref == s;
    SchemeOfHttps(ref);
    SplitUrlBy(s, ref);
  }

  /** `urlsplit` reads a reference through its scheme and what follows the scheme. */
  lemma {:induction false} SplitUrlBy(s: string, s': string)
    requires SchemeOf(s) == SchemeOf(s') && AfterScheme(s) == AfterScheme(s')
    ensures SplitUrl(s) == SplitUrl(s')
  {
  }

  lemma {:induction false} SameSchemeSafe(ref: string)
    requires Safe(ref)
    ensures Sanitize("https:" + ref) == "https:" + ref
  {
    var s := "https:" + ref;
    assert s[0] == 'h' && Safe(s);
    assert s[Span(s, IsControlOrSpace)..] == s;
  }

  /** `urljoin(SiteUrl, "https:" + ref)`: naming the site's own scheme changes nothing for a plain reference. */
  lemma {:induction false} SameSchemeRelative(ref: string)
    requires ref != "" && !IsControlOrSpace(ref[0]) && !HasScheme(ref) && !("//" <= ref)
    requires Safe(ref) && '?' !in ref && '#' !in ref && ';' !in ref
    ensures Resolve("https:" + ref) == Resolve(ref)
  {
    SameSchemeSafe(ref);
    SameSchemeSplit(ref);
    PlainParts(ref);
  }

  /** Sanitizing adds no character. */
  lemma {:induction false} SanitizeMissing(ref: string, x: char)
    requires x !in ref
    ensures x !in Sanitize(ref)
  {
    var s := ref[Span(ref, IsControlOrSpace)..];
    Missing(ref, x);
    assert s == ref[Span(ref, IsControlOrSpace)..|ref|];
    var d := Delete(Delete(s, '\t'), '\r');
    assert x !in Delete(s, '\t');
    assert x !in d;
  }

  /** `urlsplit` adds no character to the parts it cuts out of a reference. */
  lemma {:induction false} SplitUrlMissing(s: string, x: char)
    requires x !in s && SplitUrl(s).Some?
    ensures var p := SplitUrl(s).value;
      x !in p.netloc && x !in p.path && x !in p.params && x !in p.query && x !in p.fragment
  {
    var t := AfterScheme(s);
    var rest := AfterNetloc(t);
    var beforeFragment := Before(rest, '#');
    Missing(s, x);
    assert x !in t;
    Missing(t, x);
    Missing(rest, x);
    Missing(beforeFragment, x);
    SplitParamsParts(Before(beforeFragment, '?'));
  }

  /** A reference without '?' has an empty query. */
  lemma {:induction false} SplitUrlNoQuery(s: string)
    requires '?' !in s && SplitUrl(s).Some?
    ensures SplitUrl(s).value.query == ""
  {
    var rest := AfterNetloc(AfterScheme(s));
    SplitUrlMissing(s, '?');
    Missing(s, '?');
    assert '?' !in AfterScheme(s);
    Missing(AfterScheme(s), '?');
    Missing(rest, '?');
  }

  /** `urlunparse` writes a '?' only in front of a query. */
  lemma {:induction false} UnparseNoQuery(q: Parts)
    requires q.scheme == "https" && q.query == ""
    requires '?' !in q.netloc && '?' !in q.path && '?' !in q.params && '?' !in q.fragment
    ensures '?' !in Unparse(q)
  {
    assert '?' !in PathText(q.path, q.params);
    assert '?' !in TailText(q);
  }

  /** A card link never carries a query: its `href` is cut at the first '?', and resolving writes none back. */
  lemma {:induction false} JoinLinkNoQuery(href: string)
    ensures JoinLink(href).Some? ==> '?' !in JoinLink(href).value
  {
    var ref := Before(href, '?');
    if ref == "" {
      assert '?' !in SiteUrl;
    } else if SplitUrl(Sanitize(ref)).Some? {
      var p := SplitUrl(Sanitize(ref)).value;
      SanitizeMissing(ref, '?');
      SplitUrlMissing(Sanitize(ref), '?');
      SplitUrlNoQuery(Sanitize(ref));
      if p.scheme == "https" {
        HostFacts();
        assert '?' !in Host;
        ResolvePathMissing(p.path, '?');
        UnparseNoQuery(p);
        UnparseNoQuery(p.(netloc := Host));
        UnparseNoQuery(p.(netloc := Host, path := ResolvePath(p.path)));
      }
    }
  }
}
