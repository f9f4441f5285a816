/**
 * The shared base spider: its defaults, the parent-key stripping done on the
 * loaded entrypoints, the per-type seasonised entrypoint URLs and the start
 * requests built from them, and `safe_strip`.
 */
module Common {
  import opened Values
  import opened Strings
  import opened Patterns

  const DefaultBaseUrl := "https://www.transfermarkt.co.uk"

  /** The season used when none (or an empty one) is given. */
  const DefaultSeason := "2025"

  /** `safe_strip(word)`: falsy words (None, "") come back unchanged, any
      other word is whitespace-stripped. */
  function SafeStrip(word: Option<string>): (r: Option<string>)
    ensures r.None? <==> word.None?
    ensures word == Some("") ==> r == Some("")
    ensures word.Some? && word.value != [] ==> r == Some(Strip(word.value))
  {
    match word
    case None => None
    case Some(w) => if w != [] then Some(Strip(w)) else Some(w)
  }

  /** A stripped word is stripped, and stripping it again changes nothing. */
  lemma SafeStripIdempotent(word: Option<string>)
    ensures SafeStrip(word).Some? ==> IsStripped(SafeStrip(word).value)
    ensures SafeStrip(SafeStrip(word)) == SafeStrip(word)
  {
    if word.Some? && word.value != [] {
      StripIdempotent(word.value);
    }
  }

  /** `a or b` on two optional texts. */
  function OrElse(a: Option<string>, b: Option<string>): (r: Option<string>)
    ensures a.Some? && a.value != [] ==> r == a
    ensures (a.None? || a.value == []) ==> r == b
  {
    if a.Some? && a.value != [] then a else b
  }

  /** Whether the parents file is gzip-compressed: its last `.`-separated
      extension is non-empty and equal to `gz`. */
  function GzipFlag(parents: Option<string>): (g: bool)
    ensures g <==> parents.Some? && Split(parents.value, ".")[|Split(parents.value, ".")| - 1] == "gz"
  {
    match parents
    case None => false
    case Some(p) =>
      var parts := Split(p, ".");
      var extension := parts[|parts| - 1];
      if extension != [] then extension == "gz" else false
  }

  /** A path ending in `.gz` is read as gzip; a path without any `.` never is,
      unless it is literally `gz`. */
  lemma GzipOfSuffix(stem: string)
    ensures GzipFlag(Some(stem + ".gz"))
    ensures '.' !in stem && stem != "gz" ==> !GzipFlag(Some(stem))
  {
    var s := stem + ".gz";
    SplitLast(s, '.');
    var last := Split(s, ".")[|Split(s, ".")| - 1];
    assert s[|s| - 3] == '.' && s[|s| - 2] == 'g' && s[|s| - 1] == 'z';
    assert forall j :: 0 <= j < |last| ==> last[j] == s[|s| - |last| + j];
    assert last == s[|s| - 2..] == "gz";
    SplitLast(stem, '.');
  }

  /** The season text: the given season when truthy, else 2025. */
  function SeasonText(season: Option<string>): (r: string)
    ensures r != []
    ensures season.Some? && season.value != [] ==> r == season.value
    ensures season.None? || season.value == [] ==> r == DefaultSeason
  {
    if season.Some? && season.value != [] then season.value else DefaultSeason
  }

  /** One loaded entrypoint with a non-None `parent` value removed. */
  function StripParent(p: Record): (r: Record)
    ensures Get(r, "parent") == Null
    ensures forall k :: k != "parent" ==> (k in r <==> k in p)
    ensures forall k :: k in r ==> k in p && r[k] == p[k]
    ensures "parent" in p && p["parent"] == Null ==> r == p
  {
    if Get(p, "parent") != Null then p - {"parent"} else p
  }

  /** `scrape_parents`: backfilling without a parents file is refused unless
      the `SCRAPY_CHECK` environment variable is set, and then there is
      nothing to scrape. */
  function ScrapeParents(scrapyCheck: bool): (r: Result<seq<Record>>)
    ensures r.Ok? <==> scrapyCheck
    ensures r.Ok? ==> r.value == []
  {
    if !scrapyCheck then Err(Exception("Backfilling is not yet supported, please provide a 'parents' file"))
    else Ok([])
  }

  /** The `href` of an item as `urlparse(item['href']).path.split("/")`
      takes it: KeyError when missing, the text itself when it is text.
      Any other value fails inside `urlparse`'s argument coercion: a truthy
      one has no `decode` (AttributeError), and a falsy one becomes an empty
      bytes path that `split("/")` refuses (TypeError). */
  function HrefOf(item: Record): (r: Result<string>)
    ensures "href" !in item ==> r == Err(KeyError("href"))
    ensures "href" in item && item["href"].Str? ==> r == Ok(item["href"].s)
    ensures "href" in item && !item["href"].Str? && Truthy(item["href"]) ==> r == Err(AttributeError)
    ensures "href" in item && !item["href"].Str? && !Truthy(item["href"]) ==> r == Err(TypeError)
  {
    var v :- Index(item, "href");
    if v.Str? then Ok(v.s)
    else if Truthy(v) then Err(AttributeError)
    else Err(TypeError)
  }

  /** `str()` of a value, as an f-string spells it: None, booleans,
      integers and text as Python writes them, an empty list or dictionary
      as `[]` or `{}`. How a float or a non-empty list or dictionary is
      written is `repr`. */
  function Render(v: Value, repr: Value -> string): (r: string)
    ensures v.Str? ==> r == v.s
    ensures v == Null ==> r == "None"
    ensures v.Bool? ==> r == (if v.b then "True" else "False")
    ensures v.Int? ==> ParseInt(r) == Some(v.i)
    ensures v == List([]) ==> r == "[]"
    ensures v == Dict(map[]) ==> r == "{}"
    ensures v.Real? || (v.List? && v.items != []) || (v.Dict? && v.fields != map[]) ==> r == repr(v)
  {
    match v
    case Null => "None"
    case Bool(b) => if b then "True" else "False"
    case Int(i) => IntToStringRoundTrip(i); IntToString(i)
    case Str(t) => t
    case List(xs) => if xs == [] then "[]" else repr(v)
    case Dict(m) => if m == map[] then "{}" else repr(v)
    case Real(_) => repr(v)
  }

  predicate IsCup(item: Record) {
    Get(item, "competition_type") == Str("domestic_cup") || Get(item, "competition_type") == Str("domestic_super_cup")
  }

  /** `seasonize_entrypoin_href`: the URL an entrypoint is requested at for
      the season, by entity type. The href is spelled into the URL by the
      f-string whatever it holds, so only a missing `type` or `href` key
      fails. The cup rewrite applies to the whole URL, base URL included. */
  function Seasonize(item: Record, baseUrl: string, season: string, repr: Value -> string): (r: Result<string>)
    ensures "type" !in item ==> r == Err(KeyError("type"))
    ensures "type" in item && "href" !in item ==> r == Err(KeyError("href"))
    ensures r.Ok? <==> "type" in item && "href" in item
    ensures r.Ok? ==> var h := Render(item["href"], repr);
      && (item["type"] == Str("club") ==> r.value == baseUrl + h + "/saison_id/" + season)
      && (item["type"] == Str("competition") && Get(item, "competition_type") == Str("first_tier") ==>
            r.value == baseUrl + h + "/plus/0?saison_id=" + season)
      && (item["type"] == Str("competition") && IsCup(item) ==>
            r.value == ReplaceAll(baseUrl + h + "?saison_id=" + season, "wettbewerb", "pokalwettbewerb"))
      && (item["type"] == Str("competition") && Get(item, "competition_type") != Str("first_tier") && !IsCup(item) ==>
            r.value == baseUrl + h + "?saison_id=" + season)
      && (item["type"] != Str("club") && item["type"] != Str("competition") ==> r.value == baseUrl + h)
  {
    var t :- Index(item, "type");
    var v :- Index(item, "href");
    var h := Render(v, repr);
    if t == Str("club") then Ok(baseUrl + h + "/saison_id/" + season)
    else if t == Str("competition") then
      if Get(item, "competition_type") == Str("first_tier") then Ok(baseUrl + h + "/plus/0?saison_id=" + season)
      else if IsCup(item) then Ok(ReplaceAll(baseUrl + h + "?saison_id=" + season, "wettbewerb", "pokalwettbewerb"))
      else Ok(baseUrl + h + "?saison_id=" + season)
    else Ok(baseUrl + h)
  }

  /** A club is requested at the base URL, its href as `str()` spells it,
      and its season segment. */
  lemma ClubSeasonized(item: Record, baseUrl: string, season: string, repr: Value -> string)
    requires "type" in item && item["type"] == Str("club") && "href" in item
    ensures Seasonize(item, baseUrl, season, repr) == Ok(baseUrl + Render(item["href"], repr) + "/saison_id/" + season)
  {
  }

  /** A club whose href is None is still requested: at the base URL, then
      `None`, then its season segment. */
  lemma NoneHrefSeasonized(item: Record, baseUrl: string, season: string, repr: Value -> string)
    requires "type" in item && item["type"] == Str("club")
    requires "href" in item && item["href"] == Null
    ensures Seasonize(item, baseUrl, season, repr) == Ok(baseUrl + "None/saison_id/" + season)
  {
    ClubSeasonized(item, baseUrl, season, repr);
    assert baseUrl + "None" + "/saison_id/" + season == baseUrl + "None/saison_id/" + season;
  }

  /** With a base URL in which no `wettbewerb` starts, the cup rewrite keeps
      the base URL and rewrites only the href and the season query. */
  lemma CupKeepsBaseUrl(item: Record, baseUrl: string, season: string, repr: Value -> string)
    requires Seasonize(item, baseUrl, season, repr).Ok?
    requires item["type"] == Str("competition") && IsCup(item)
    requires forall i :: 0 <= i < |baseUrl| ==>
      !OccursAt(baseUrl + (Render(item["href"], repr) + "?saison_id=" + season), "wettbewerb", i)
    ensures Seasonize(item, baseUrl, season, repr).value ==
      baseUrl + ReplaceAll(Render(item["href"], repr) + "?saison_id=" + season, "wettbewerb", "pokalwettbewerb")
  {
    var tail := Render(item["href"], repr) + "?saison_id=" + season;
    assert baseUrl + Render(item["href"], repr) + "?saison_id=" + season == baseUrl + tail;
    ReplaceAllPrefix(baseUrl, tail, "wettbewerb", "pokalwettbewerb");
  }

  /** A club's seasonised URL loses exactly its season again under the
      `/saison_id/<digits>` removal, when the base URL and href hold no such
      segment of their own. */
  lemma ClubSeasonRemoved(item: Record, baseUrl: string, season: string, repr: Value -> string)
    requires Seasonize(item, baseUrl, season, repr).Ok? && item["type"] == Str("club")
    requires IsDecimal(season)
    requires forall i :: 0 <= i < |baseUrl + Render(item["href"], repr)| ==>
      !SaisonAt(baseUrl + Render(item["href"], repr) + ("/saison_id/" + season), i)
    ensures RemoveSaison(Seasonize(item, baseUrl, season, repr).value) == baseUrl + Render(item["href"], repr)
  {
    ClubSeasonized(item, baseUrl, season, repr);
    SeasonRemovedFrom(baseUrl + Render(item["href"], repr), season);
  }

  /** A `/saison_id/<digits>` tail is all that the removal takes from a
      text holding no such segment of its own. */
  lemma SeasonRemovedFrom(a: string, season: string)
    requires IsDecimal(season)
    requires forall i :: 0 <= i < |a| ==> !SaisonAt(a + ("/saison_id/" + season), i)
    ensures RemoveSaison(a + "/saison_id/" + season) == a
  {
    var b := "/saison_id/" + season;
    assert a + "/saison_id/" + season == a + b;
    RemoveSaisonPrefix(a, b);
    assert b == "/saison_id/" + season + "";
    RemoveSaisonSegment(season, "");
    assert a + "" == a;
  }

  /** An entrypoint with its `seasoned_href` set. */
  function WithSeasonedHref(item: Record, url: string): (r: Record)
    ensures r.Keys == item.Keys + {"seasoned_href"}
    ensures r["seasoned_href"] == Str(url)
    ensures forall k :: k in item && k != "seasoned_href" ==> r[k] == item[k]
  {
    item["seasoned_href" := Str(url)]
  }

  /** The index of the first entrypoint whose URL cannot be built, or the
      number of entrypoints when all can. */
  function FirstUnbuilt(items: seq<Record>, url: Record -> Result<string>): (k: nat)
    ensures k <= |items|
    ensures forall i :: 0 <= i < k ==> url(items[i]).Ok?
    ensures k < |items| ==> url(items[k]).Err?
  {
    if items == [] then 0
    else if url(items[0]).Err? then 0
    else 1 + FirstUnbuilt(items[1..], url)
  }

  /** The loop of `start_requests` over the entrypoints, given how the URL
      of one is built: each gains its `seasoned_href` in place and is
      requested at that URL with itself as `parent`; the first that fails
      raises, with the earlier ones already updated. */
  method SeasonEntrypoints(entrypoints: seq<Record>, url: Record -> Result<string>)
    returns (items: seq<Record>, r: Result<seq<Request>>)
    ensures var k := FirstUnbuilt(entrypoints, url);
      && |items| == |entrypoints|
      && (forall i :: 0 <= i < k ==> items[i] == WithSeasonedHref(entrypoints[i], url(entrypoints[i]).value))
      && (forall i :: k <= i < |items| ==> items[i] == entrypoints[i])
      && (r.Ok? <==> k == |items|)
      && (r.Err? ==> r.error == url(entrypoints[k]).error)
    ensures r.Ok? ==> |r.value| == |items| && forall i :: 0 <= i < |r.value| ==>
      r.value[i] == Request(url(entrypoints[i]).value, map["parent" := Dict(items[i])])
  {
    items := entrypoints;
    ghost var k := FirstUnbuilt(items, url);
    var requests: seq<Request> := [];
    var i := 0;
    while i < |items|
      invariant 0 <= i <= |items| == |entrypoints|
      invariant i <= k
      invariant forall j :: 0 <= j < i ==> items[j] == WithSeasonedHref(entrypoints[j], url(entrypoints[j]).value)
      invariant forall j :: i <= j < |items| ==> items[j] == entrypoints[j]
      invariant |requests| == i
      invariant forall j :: 0 <= j < i ==> requests[j] == Request(url(entrypoints[j]).value, map["parent" := Dict(items[j])])
    {
      var u := url(items[i]);
      if u.Err? {
        return items, Err(u.error);
      }
      items := items[i := WithSeasonedHref(items[i], u.value)];
      requests := requests + [Request(u.value, map["parent" := Dict(items[i])])];
      i := i + 1;
    }
    r := Ok(requests);
  }

  class BaseSpider {
    var baseUrl: string
    var gzipCompressed: bool
    var season: string
    var entrypoints: seq<Record>

    /** `__init__`, given the parents list once loaded (from the parents
        file, standard input or `scrape_parents`). */
    constructor (baseUrlArg: Option<string>, parents: Option<string>, loaded: seq<Record>, seasonArg: Option<string>)
      ensures baseUrl == (if baseUrlArg.Some? then baseUrlArg.value else DefaultBaseUrl)
      ensures gzipCompressed == GzipFlag(parents)
      ensures season == SeasonText(seasonArg)
      ensures |entrypoints| == |loaded|
      ensures forall i :: 0 <= i < |loaded| ==> entrypoints[i] == StripParent(loaded[i])
    {
      baseUrl := if baseUrlArg.Some? then baseUrlArg.value else DefaultBaseUrl;
      gzipCompressed := GzipFlag(parents);
      var items := loaded;
      var i := 0;
      while i < |items|
        invariant 0 <= i <= |items| == |loaded|
        invariant forall j :: 0 <= j < i ==> items[j] == StripParent(loaded[j])
        invariant forall j :: i <= j < |items| ==> items[j] == loaded[j]
      {
        if Get(items[i], "parent") != Null {
          items := items[i := items[i] - {"parent"}];
        }
        i := i + 1;
      }
      season := SeasonText(seasonArg);
      entrypoints := items;
    }

    /** `start_requests`: every entrypoint gains its `seasoned_href`, in
        order, and is requested at that URL with itself as `parent`. The
        list is built before it is returned, so a failing entrypoint raises
        with the earlier ones already updated. */
    method StartRequests(repr: Value -> string) returns (r: Result<seq<Request>>)
      modifies this
      ensures baseUrl == old(baseUrl) && season == old(season) && gzipCompressed == old(gzipCompressed)
      ensures var b, sn := baseUrl, season;
        var k := FirstUnbuilt(old(entrypoints), item => Seasonize(item, b, sn, repr));
        && |entrypoints| == |old(entrypoints)|
        && (forall i :: 0 <= i < k ==>
              entrypoints[i] == WithSeasonedHref(old(entrypoints)[i], Seasonize(old(entrypoints)[i], baseUrl, season, repr).value))
        && (forall i :: k <= i < |entrypoints| ==> entrypoints[i] == old(entrypoints)[i])
        && (r.Ok? <==> k == |entrypoints|)
        && (r.Err? ==> r.error == Seasonize(old(entrypoints)[k], baseUrl, season, repr).error)
      ensures r.Ok? ==> |r.value| == |entrypoints| && forall i :: 0 <= i < |r.value| ==>
        r.value[i] == Request(Seasonize(old(entrypoints)[i], baseUrl, season, repr).value, map["parent" := Dict(entrypoints[i])])
      ensures r.Ok? <==> forall i :: 0 <= i < |entrypoints| ==> "type" in old(entrypoints)[i] && "href" in old(entrypoints)[i]
    {
      var b, sn := baseUrl, season;
      var items, res := SeasonEntrypoints(entrypoints, item => Seasonize(item, b, sn, repr));
      entrypoints := items;
      r := res;
    }
  }
}
