/**
 * `urllib.parse.urlparse` as far as the spiders use it (they only read the
 * path), and the `code` the spiders derive from the first path segment.
 * `unquote` is abstract: the spiders pass it in as a function.
 */
module Urls {
  import opened Values
  import opened Strings
  import opened Patterns

  datatype Url = Url(scheme: string, netloc: string, path: string,
                     params: string, query: string, fragment: string)

  predicate IsAsciiAlpha(c: char) { 'a' <= c <= 'z' || 'A' <= c <= 'Z' }

  predicate IsSchemeChar(c: char) {
    IsAsciiAlpha(c) || IsDigit(c) || c == '+' || c == '-' || c == '.'
  }

  predicate AllSchemeChars(s: string) { forall i :: 0 <= i < |s| ==> IsSchemeChar(s[i]) }

  /** The schemes for which `urlparse` splits `;params` off the path. */
  const UsesParams: set<string> := {
    "", "ftp", "hdl", "prospero", "http", "imap", "https", "shttp",
    "rtsp", "rtspu", "sip", "sips", "mms", "sftp", "tel"
  }

  /** The scheme and the rest: a scheme is a non-empty run of scheme
      characters starting with a letter before the first `:`. */
  function SplitScheme(url: string): (r: (string, string))
  {
    var i := Find(url, ":");
    if i > 0 && IsAsciiAlpha(url[0]) && AllSchemeChars(url[..i]) then (Lower(url[..i]), url[i + 1..])
    else ("", url)
  }

  /** The first index at or after `start` holding one of `/`, `?`, `#`,
      or `|s|`. */
  function NetlocEnd(s: string, start: nat): (e: nat)
    requires start <= |s|
    ensures start <= e <= |s|
    ensures forall k :: start <= k < e ==> s[k] != '/' && s[k] != '?' && s[k] != '#'
    ensures e < |s| ==> s[e] == '/' || s[e] == '?' || s[e] == '#'
    decreases |s| - start
  {
    if start == |s| || s[start] == '/' || s[start] == '?' || s[start] == '#' then start
    else NetlocEnd(s, start + 1)
  }

  /** `s.rfind(c)`. */
  function RFind(s: string, c: char): (r: int)
    ensures r == -1 || (0 <= r < |s| && s[r] == c)
    ensures forall k :: r < k < |s| ==> s[k] != c
  {
    if s == [] then -1
    else if s[|s| - 1] == c then |s| - 1
    else RFind(s[..|s| - 1], c)
  }

  /** `s.find(c, start)`. */
  function FindFrom(s: string, c: char, start: nat): (r: int)
    requires start <= |s|
    ensures r == -1 || (start <= r < |s| && s[r] == c)
    decreases |s| - start
  {
    if start == |s| then -1 else if s[start] == c then start else FindFrom(s, c, start + 1)
  }

  /** `_splitparams`: the `;params` of the last path segment (`RFind` is
      non-negative exactly when `/` occurs). */
  function SplitParams(url: string): (r: (string, string))
    ensures |r.0| <= |url| && r.0 == url[..|r.0|]
  {
    var j := RFind(url, '/');
    if j >= 0 then
      var i := FindFrom(url, ';', j);
      if i < 0 then (url, "") else (url[..i], url[i + 1..])
    else
      var i := Find(url, ";");
      if i < 0 then (url, "") else (url[..i], url[i + 1..])
  }

  /** The characters `urlsplit` strips from the front of a URL: the C0
      controls and space. */
  predicate IsControlOrSpace(c: char) { c <= ' ' }

  /** The characters `urlsplit` removes wherever they are: tab, carriage
      return and line feed. */
  predicate IsUnsafe(c: char) { c == '\t' || c == '\r' || c == '\n' }

  predicate NoUnsafe(s: string) { forall i :: 0 <= i < |s| ==> !IsUnsafe(s[i]) }

  predicate AllControlOrSpace(s: string) { forall i :: 0 <= i < |s| ==> IsControlOrSpace(s[i]) }

  /** `url.lstrip` of the C0 controls and space. */
  function LStripControl(s: string): (r: string)
    ensures |r| <= |s| && r == s[|s| - |r|..]
    ensures r == [] || !IsControlOrSpace(r[0])
    ensures AllControlOrSpace(s[..|s| - |r|])
  {
    if s != [] && IsControlOrSpace(s[0]) then LStripControl(s[1..]) else s
  }

  /** Every tab, carriage return and line feed removed, the rest kept in
      order. */
  function RemoveUnsafe(s: string): (r: string)
    ensures NoUnsafe(r) && |r| <= |s|
    ensures NoUnsafe(s) ==> r == s
    ensures s != [] && !IsUnsafe(s[0]) ==> r != [] && r[0] == s[0]
  {
    if s == [] then []
    else if IsUnsafe(s[0]) then RemoveUnsafe(s[1..])
    else
      assert NoUnsafe(s) ==> NoUnsafe(s[1..]) by {
        forall i | 0 <= i < |s[1..]| ensures s[1..][i] == s[i + 1] {}
      }
      [s[0]] + RemoveUnsafe(s[1..])
  }

  /** What `urlsplit` parses: the URL with its leading controls and spaces
      stripped and its tabs, carriage returns and line feeds removed. */
  function CleanUrl(url: string): (r: string)
    ensures NoUnsafe(r)
    ensures r == [] || !IsControlOrSpace(r[0])
    ensures NoUnsafe(url) && (url == [] || !IsControlOrSpace(url[0])) ==> r == url
  {
    RemoveUnsafe(LStripControl(url))
  }

  /** Cleaning is idempotent, so a URL and its cleaned form parse alike. */
  lemma CleanUrlIdempotent(url: string)
    ensures CleanUrl(CleanUrl(url)) == CleanUrl(url)
    ensures UrlParse(CleanUrl(url)) == UrlParse(url)
  {
  }

  /** Removing tabs, carriage returns and line feeds distributes over
      concatenation. */
  lemma {:induction false} RemoveUnsafeAppend(a: string, b: string)
    ensures RemoveUnsafe(a + b) == RemoveUnsafe(a) + RemoveUnsafe(b)
  {
    if a == [] {
      assert a + b == b;
    } else {
      assert (a + b)[0] == a[0] && (a + b)[1..] == a[1..] + b;
      RemoveUnsafeAppend(a[1..], b);
    }
  }

  lemma NoUnsafeAppend(a: string, b: string)
    requires NoUnsafe(a) && NoUnsafe(b)
    ensures NoUnsafe(a + b)
  {
    forall i | 0 <= i < |a + b| ensures !IsUnsafe((a + b)[i]) {
      if i >= |a| {
        assert (a + b)[i] == b[i - |a|];
      }
    }
  }

  /** A prefix that starts with neither a control nor a space and holds no
      tab, carriage return or line feed survives cleaning, and the rest is
      cleaned of those three alone. */
  lemma CleanKeepsPrefix(pre: string, rest: string)
    requires pre != [] && !IsControlOrSpace(pre[0]) && NoUnsafe(pre)
    ensures CleanUrl(pre + rest) == pre + RemoveUnsafe(rest)
  {
    assert (pre + rest)[0] == pre[0];
    RemoveUnsafeAppend(pre, rest);
  }

  /** `urlparse(url)`: the URL cleaned, then cut into scheme, `//netloc`,
      `#fragment`, `?query` and, for the schemes that use them, `;params`.
      A netloc with an unmatched square bracket raises ValueError ("Invalid
      IPv6 URL"). */
  function UrlParse(url: string): (r: Result<Url>)
    ensures r.Err? ==> r.error.ValueError?
  {
    SplitUrl(CleanUrl(url))
  }

  /** The cutting of `urlparse` on a cleaned URL. */
  function SplitUrl(url: string): (r: Result<Url>)
    ensures r.Err? ==> r.error.ValueError?
  {
    var (scheme, rest) := SplitScheme(url);
    var (netloc, rest1) :=
      if StartsWith(rest, "//") then
        var e := NetlocEnd(rest, 2);
        (rest[2..e], rest[e..])
      else ("", rest);
    if (Contains(netloc, "[") && !Contains(netloc, "]")) || (Contains(netloc, "]") && !Contains(netloc, "[")) then
      Err(ValueError("Invalid IPv6 URL"))
    else
      var (path, params, query, fragment) := PathParts(scheme, rest1);
      Ok(Url(scheme, netloc, path, params, query, fragment))
  }

  /** What follows the netloc, cut into path, params, query and fragment. */
  function PathParts(scheme: string, rest1: string): (r: (string, string, string, string))
  {
    var (rest2, fragment) := Partition(rest1, "#");
    var (rest3, query) := Partition(rest2, "?");
    var (path, params) := if scheme in UsesParams && Contains(rest3, ";") then SplitParams(rest3) else (rest3, "");
    (path, params, query, fragment)
  }

  /** For an `http`/`https` URL, the path is empty or starts with `/`. */
  lemma HttpPathRooted(url: string)
    requires StartsWith(url, "http://") || StartsWith(url, "https://")
    requires UrlParse(url).Ok?
    ensures var p := UrlParse(url).value.path; p == [] || p[0] == '/'
  {
    if StartsWith(url, "http://") {
      CleanKeepsScheme(url, "http://");
    } else {
      CleanKeepsScheme(url, "https://");
    }
    SplitHttpRooted(CleanUrl(url));
  }

  /** Cleaning keeps an `http://` or `https://` prefix. */
  lemma CleanKeepsScheme(url: string, pre: string)
    requires pre == "http://" || pre == "https://"
    requires StartsWith(url, pre)
    ensures StartsWith(CleanUrl(url), pre)
  {
    assert NoUnsafe(pre);
    assert url == pre + url[|pre|..];
    CleanKeepsPrefix(pre, url[|pre|..]);
    assert CleanUrl(url)[..|pre|] == pre;
  }

  /** `HttpPathRooted` for the cutting of a cleaned URL. */
  lemma SplitHttpRooted(url: string)
    requires StartsWith(url, "http://") || StartsWith(url, "https://")
    requires SplitUrl(url).Ok?
    ensures var p := SplitUrl(url).value.path; p == [] || p[0] == '/'
  {
    if StartsWith(url, "http://") {
      SchemePrefix(url, "http");
      SchemeRooted(url, "http", url[5..]);
    } else {
      SchemePrefix(url, "https");
      SchemeRooted(url, "https", url[6..]);
    }
  }

  lemma SchemePrefix(url: string, scheme: string)
    requires StartsWith(url, scheme + "://")
    ensures url == scheme + ":" + url[|scheme| + 1..]
    ensures StartsWith(url[|scheme| + 1..], "//")
  {
    assert url[..|scheme| + 1] == (scheme + "://")[..|scheme| + 1] == scheme + ":";
    assert url[|scheme| + 1..][..2] == (scheme + "://")[|scheme| + 1..];
  }

  lemma SchemeRooted(url: string, scheme: string, rest: string)
    requires scheme == "http" || scheme == "https"
    requires url == scheme + ":" + rest && StartsWith(rest, "//")
    requires SplitUrl(url).Ok?
    ensures var p := SplitUrl(url).value.path; p == [] || p[0] == '/'
  {
    SplitSchemeOf(url, scheme, rest);
    var e := NetlocEnd(rest, 2);
    assert SplitUrl(url).value.path == PathParts(scheme, rest[e..]).0;
    RootedPath(scheme, rest[e..]);
  }

  /** What follows the netloc is empty or starts with `/`, `?` or `#`; the
      path cut from it is then empty or starts with `/`. */
  lemma RootedPath(scheme: string, rest1: string)
    requires rest1 == [] || rest1[0] == '/' || rest1[0] == '?' || rest1[0] == '#'
    ensures var path := PathParts(scheme, rest1).0; path == [] || path[0] == '/'
  {
    var (rest2, fragment) := Partition(rest1, "#");
    var (rest3, query) := Partition(rest2, "?");
    assert rest2 == rest1[..|rest2|];
    assert rest3 == rest2[..|rest3|];
    if rest1 != [] && rest1[0] == '#' {
      assert rest1[..1] == "#";
      assert rest2 == [];
    }
    if rest2 != [] && rest2[0] == '?' {
      assert rest2[..1] == "?";
      assert rest3 == [];
    }
  }

  /** The path segment after the first `/` of `p`, up to the next `/`. */
  function FirstSegment(p: string): string
    requires Contains(p, "/")
  {
    FindSpec(p, "/");
    var rest := p[Find(p, "/") + 1..];
    var k := Find(rest, "/");
    if k == -1 then rest else rest[..k]
  }

  /** `unquote(urlparse(href).path.split("/")[1])`: the URL-decoded first
      path segment, IndexError when the path has no `/`. */
  function PathCode(href: string, unquote: string -> string): (r: Result<string>)
    ensures UrlParse(href).Err? ==> r == Err(UrlParse(href).error)
    ensures UrlParse(href).Ok? ==>
      && (r.Err? <==> !Contains(UrlParse(href).value.path, "/"))
      && (r.Err? ==> r.error == IndexError)
      && (r.Ok? ==> r.value == unquote(FirstSegment(UrlParse(href).value.path)))
  {
    var u :- UrlParse(href);
    var parts := Split(u.path, "/");
    SplitTail(u.path, "/");
    if |parts| < 2 then Err(IndexError)
    else
      FindSpec(u.path, "/");
      SplitHead(u.path[Find(u.path, "/") + 1..], "/");
      Ok(unquote(parts[1]))
  }

  /** A site-relative href (`/x/...`) is all path. */
  lemma UrlParseRelative(h: string)
    requires |h| >= 1 && h[0] == '/' && !StartsWith(h, "//")
    requires !Contains(h, "#") && !Contains(h, "?") && !Contains(h, ";")
    requires NoUnsafe(h)
    ensures UrlParse(h) == Ok(Url("", "", h, "", "", ""))
  {
    assert CleanUrl(h) == h;
    SplitRelative(h);
    ParseOfClean(h, Url("", "", h, "", "", ""));
  }

  lemma SplitRelative(h: string)
    requires |h| >= 1 && h[0] == '/' && !StartsWith(h, "//")
    requires !Contains(h, "#") && !Contains(h, "?") && !Contains(h, ";")
    ensures SplitUrl(h) == Ok(Url("", "", h, "", "", ""))
  {
    FindSpec(h, "#");
    FindSpec(h, "?");
  }

  /** An `http`/`https` URL without query or fragment: the path is what
      follows the host. */
  lemma UrlParseAbsolute(scheme: string, host: string, p: string)
    requires scheme == "http" || scheme == "https"
    requires forall i :: 0 <= i < |host| ==> host[i] !in "/?#[]"
    requires p == [] || p[0] == '/'
    requires !Contains(p, "#") && !Contains(p, "?") && !Contains(p, ";")
    requires NoUnsafe(host) && NoUnsafe(p)
    ensures UrlParse(scheme + "://" + host + p) == Ok(Url(scheme, host, p, "", "", ""))
  {
    var url := scheme + "://" + host + p;
    var u := Url(scheme, host, p, "", "", "");
    assert CleanUrl(url) == url by { CleanAbsolute(scheme, host, p); }
    assert SplitUrl(url) == Ok(u) by { SplitAbsolute(scheme, host, p); }
    ParseOfClean(url, u);
  }

  /** A URL that cleaning leaves alone is cut as it is. */
  lemma ParseOfClean(url: string, u: Url)
    requires CleanUrl(url) == url && SplitUrl(url) == Ok(u)
    ensures UrlParse(url) == Ok(u)
  {
  }

  lemma CleanAbsolute(scheme: string, host: string, p: string)
    requires scheme == "http" || scheme == "https"
    requires NoUnsafe(host) && NoUnsafe(p)
    ensures CleanUrl(scheme + "://" + host + p) == scheme + "://" + host + p
  {
    assert NoUnsafe(scheme + "://");
    NoUnsafeAppend(scheme + "://", host);
    NoUnsafeAppend(scheme + "://" + host, p);
    assert (scheme + "://" + host + p)[0] == 'h';
  }

  lemma SplitAbsolute(scheme: string, host: string, p: string)
    requires scheme == "http" || scheme == "https"
    requires forall i :: 0 <= i < |host| ==> host[i] !in "/?#[]"
    requires p == [] || p[0] == '/'
    requires !Contains(p, "#") && !Contains(p, "?") && !Contains(p, ";")
    ensures SplitUrl(scheme + "://" + host + p) == Ok(Url(scheme, host, p, "", "", ""))
  {
    var url := scheme + "://" + host + p;
    var rest := "//" + host + p;
    assert url == scheme + ":" + rest;
    SplitSchemeOf(url, scheme, rest);
    NetlocOf(rest, host, p);
    NoBrackets(host);
    FindSpec(p, "#");
    FindSpec(p, "?");
  }

  lemma SplitSchemeOf(url: string, scheme: string, rest: string)
    requires scheme == "http" || scheme == "https"
    requires url == scheme + ":" + rest
    ensures SplitScheme(url) == (scheme, rest)
  {
    assert OccursAt(url, ":", |scheme|);
    FindSpec(url, ":");
    forall j | 0 <= j < |scheme| ensures !OccursAt(url, ":", j) { assert url[j] == scheme[j]; }
    assert url[..|scheme|] == scheme;
    assert Lower(scheme) == scheme;
    assert url[|scheme| + 1..] == rest;
  }

  lemma NetlocOf(rest: string, host: string, p: string)
    requires forall i :: 0 <= i < |host| ==> host[i] !in "/?#[]"
    requires p == [] || p[0] == '/'
    requires rest == "//" + host + p
    ensures StartsWith(rest, "//")
    ensures NetlocEnd(rest, 2) == 2 + |host|
    ensures rest[2..2 + |host|] == host && rest[2 + |host|..] == p
  {
    assert forall k :: 2 <= k < 2 + |host| ==> rest[k] == host[k - 2];
    assert 2 + |host| < |rest| ==> rest[2 + |host|] == '/';
    assert rest[2..2 + |host|] == host;
    assert rest[2 + |host|..] == p;
  }

  lemma NoBrackets(host: string)
    requires forall i :: 0 <= i < |host| ==> host[i] !in "/?#[]"
    ensures !Contains(host, "[") && !Contains(host, "]")
  {
    forall i | 0 <= i <= |host| - 1 ensures !OccursAt(host, "[", i) && !OccursAt(host, "]", i) {
      assert host[i..i + 1] == [host[i]];
    }
  }

  /** The code of a site-relative href `/<seg>/...` is the decoded `<seg>`. */
  lemma PathCodeRelative(h: string, seg: string, unquote: string -> string)
    requires |h| >= 1 + |seg| && h[0] == '/' && h[1..1 + |seg|] == seg
    requires seg != [] && !Contains(seg, "/")
    requires |h| == 1 + |seg| || h[1 + |seg|] == '/'
    requires !Contains(h, "#") && !Contains(h, "?") && !Contains(h, ";")
    requires NoUnsafe(h)
    ensures PathCode(h, unquote) == Ok(unquote(seg))
  {
    assert !StartsWith(h, "//") by {
      assert h[1] == seg[0];
      assert !OccursAt(seg, "/", 0);
      assert seg[..1] == [seg[0]];
    }
    UrlParseRelative(h);
    FirstSegmentOf(h, seg);
  }

  lemma FirstSegmentOf(h: string, seg: string)
    requires |h| >= 1 + |seg| && h[0] == '/' && h[1..1 + |seg|] == seg
    requires !Contains(seg, "/")
    requires |h| == 1 + |seg| || h[1 + |seg|] == '/'
    ensures Contains(h, "/") && FirstSegment(h) == seg
  {
    assert OccursAt(h, "/", 0);
    FindSpec(h, "/");
    var rest := h[1..];
    FindSpec(rest, "/");
    assert rest[..|seg|] == seg;
    ContainsChar(seg, '/');
    forall j | 0 <= j < |seg| ensures !OccursAt(rest, "/", j) {
      assert rest[j] == seg[j];
    }
    if |rest| > |seg| {
      assert OccursAt(rest, "/", |seg|);
    } else {
      assert rest == seg;
    }
  }
}
