/**
 * The players spider: the club URLs it starts from, cleaned of their
 * season segments and seasonised again; the player links of a club page;
 * and the player record assembled from a profile page. The profile texts
 * and the birth-date splitting are shared with the players_from_file
 * spider.
 */
module Players {
  import opened Values
  import opened Strings
  import opened Patterns
  import opened Urls
  import opened Common
  import opened Generators

  // ---------------------------------------------------------------------
  // start_requests
  // ---------------------------------------------------------------------

  /** `re.sub(r'/saison_id/\d+', '', item.get('href', ''))`: a missing href
      is the empty text; a href that is not a string raises TypeError. */
  function CleanHref(item: Record): Result<string> {
    if "href" !in item then Ok(RemoveSaison(""))
    else if item["href"].Str? then Ok(RemoveSaison(item["href"].s))
    else Err(TypeError)
  }

  /** An entrypoint whose href cannot be cleaned. */
  predicate BadHref(item: Record) { CleanHref(item).Err? }

  /** The URL a cleaned club href is requested at. */
  function SeasonedUrl(baseUrl: string, cleaned: string, season: string): string {
    baseUrl + cleaned + "/saison_id/" + season
  }

  /** An entrypoint after the loop body: its href replaced by the cleaned
      one and its `seasoned_href` set; every other key is kept. */
  function Cleaned(item: Record, baseUrl: string, season: string): (r: Record)
    requires !BadHref(item)
    ensures r.Keys == item.Keys + {"href", "seasoned_href"}
    ensures r["href"] == Str(CleanHref(item).value)
    ensures r["seasoned_href"] == Str(SeasonedUrl(baseUrl, CleanHref(item).value, season))
    ensures forall k :: k in item && k != "href" && k != "seasoned_href" ==> r[k] == item[k]
  {
    var c := CleanHref(item).value;
    item["href" := Str(c)]["seasoned_href" := Str(SeasonedUrl(baseUrl, c, season))]
  }

  /** `start_requests` of the players spider: every entrypoint, in order, has
      its href cleaned and its `seasoned_href` set, and is requested at that
      URL with itself as `parent`. The requests are built once the loop is
      over, so an entrypoint whose href is not a string raises with the
      earlier ones already updated and no request made. */
  method StartRequests(spider: BaseSpider) returns (r: Result<seq<Request>>)
    modifies spider
    ensures spider.baseUrl == old(spider.baseUrl) && spider.season == old(spider.season)
    ensures spider.gzipCompressed == old(spider.gzipCompressed)
    ensures var k := FirstWhere(old(spider.entrypoints), BadHref, 0);
      && |spider.entrypoints| == |old(spider.entrypoints)|
      && (forall i :: 0 <= i < k ==>
            spider.entrypoints[i] == Cleaned(old(spider.entrypoints)[i], spider.baseUrl, spider.season))
      && (forall i :: k <= i < |spider.entrypoints| ==> spider.entrypoints[i] == old(spider.entrypoints)[i])
      && (r.Ok? <==> k == |spider.entrypoints|)
    ensures r.Err? ==> r.error == TypeError
    ensures r.Ok? ==> |r.value| == |spider.entrypoints|
    ensures r.Ok? ==> forall i :: 0 <= i < |r.value| ==>
      && spider.entrypoints[i]["seasoned_href"].Str?
      && r.value[i] == Request(spider.entrypoints[i]["seasoned_href"].s, map["parent" := Dict(spider.entrypoints[i])])
  {
    var items, ok := CleanEntrypoints(spider.entrypoints, spider.baseUrl, spider.season);
    spider.entrypoints := items;
    if !ok {
      return Err(TypeError);
    }
    var requests := SeasonedRequests(items);
    r := Ok(requests);
  }

  /** The loop of `start_requests` over the entrypoints: each one is
      updated in turn until one whose href is not a string, which stops the
      loop with the later ones untouched. */
  method CleanEntrypoints(items: seq<Record>, baseUrl: string, season: string) returns (out: seq<Record>, ok: bool)
    ensures var k := FirstWhere(items, BadHref, 0);
      && |out| == |items|
      && (forall i :: 0 <= i < k ==> out[i] == Cleaned(items[i], baseUrl, season))
      && (forall i :: k <= i < |out| ==> out[i] == items[i])
      && (ok <==> k == |items|)
  {
    out := items;
    var i := 0;
    while i < |out|
      invariant 0 <= i <= |out| == |items|
      invariant FirstWhere(items, BadHref, 0) == FirstWhere(items, BadHref, i)
      invariant forall j :: 0 <= j < i ==> out[j] == Cleaned(items[j], baseUrl, season)
      invariant forall j :: i <= j < |out| ==> out[j] == items[j]
    {
      var cleaned := CleanHref(out[i]);
      if cleaned.Err? {
        return out, false;
      }
      out := out[i := out[i]["href" := Str(cleaned.value)]
                          ["seasoned_href" := Str(SeasonedUrl(baseUrl, cleaned.value, season))]];
      i := i + 1;
    }
    ok := true;
  }

  /** The returned list: one request per updated entrypoint, at its
      `seasoned_href`, with the entrypoint as `parent`. */
  method SeasonedRequests(items: seq<Record>) returns (requests: seq<Request>)
    requires forall i :: 0 <= i < |items| ==> "seasoned_href" in items[i] && items[i]["seasoned_href"].Str?
    ensures |requests| == |items|
    ensures forall i :: 0 <= i < |items| ==>
      requests[i] == Request(items[i]["seasoned_href"].s, map["parent" := Dict(items[i])])
  {
    requests := [];
    for i := 0 to |items|
      invariant |requests| == i
      invariant forall j :: 0 <= j < i ==>
        requests[j] == Request(items[j]["seasoned_href"].s, map["parent" := Dict(items[j])])
    {
      requests := requests + [Request(items[i]["seasoned_href"].s, map["parent" := Dict(items[i])])];
    }
  }

  /** Cleaning the requested URL again gives back the base URL and the
      cleaned href when neither holds a season segment of its own: the
      season appended is the only one in the URL. */
  lemma SeasonedUrlCleans(baseUrl: string, cleaned: string, season: string)
    requires IsDecimal(season)
    requires forall i :: 0 <= i < |baseUrl + cleaned| ==> !SaisonAt(SeasonedUrl(baseUrl, cleaned, season), i)
    ensures RemoveSaison(SeasonedUrl(baseUrl, cleaned, season)) == baseUrl + cleaned
  {
    var a := baseUrl + cleaned;
    var b := "/saison_id/" + season;
    assert SeasonedUrl(baseUrl, cleaned, season) == a + b;
    RemoveSaisonPrefix(a, b);
    assert b == "/saison_id/" + season + "";
    RemoveSaisonSegment(season, "");
    assert a + "" == a;
  }

  /** Starting again from the updated entrypoints changes nothing when the
      cleaned href holds no season segment: the cleaning is idempotent on
      such entrypoints. It is not idempotent on every href (see
      RemoveSaisonNotIdempotent). */
  lemma CleanedAgain(item: Record, baseUrl: string, season: string)
    requires !BadHref(item)
    requires forall i :: 0 <= i < |CleanHref(item).value| ==> !SaisonAt(CleanHref(item).value, i)
    ensures !BadHref(Cleaned(item, baseUrl, season))
    ensures Cleaned(Cleaned(item, baseUrl, season), baseUrl, season) == Cleaned(item, baseUrl, season)
  {
    var once := Cleaned(item, baseUrl, season);
    RemoveSaisonNoMatch(CleanHref(item).value);
    assert CleanHref(once) == CleanHref(item);
  }

  // ---------------------------------------------------------------------
  // parse: the player links of a club page
  // ---------------------------------------------------------------------

  /** The callback context of a player request. */
  function PlayerBase(href: string, parent: Value): (r: Record)
    ensures r.Keys == {"type", "href", "parent"}
    ensures r["type"] == Str("player") && r["href"] == Str(href) && r["parent"] == parent
  {
    map["type" := Str("player"), "href" := Str(href), "parent" := parent]
  }

  /** `parse`: the page must have exactly one responsive table, otherwise
      the assertion fails before anything is yielded; then one request per
      player link of that table, in order, with no deduplication. */
  method Parse(tableCount: nat, hrefs: seq<string>, parent: Value) returns (r: Result<seq<Request>>)
    ensures r.Err? <==> tableCount != 1
    ensures r.Err? ==> r.error == AssertionError
    ensures r.Ok? ==> |r.value| == |hrefs|
    ensures r.Ok? ==> forall i :: 0 <= i < |hrefs| ==>
      r.value[i] == Request(hrefs[i], map["base" := Dict(PlayerBase(hrefs[i], parent))])
  {
    if tableCount != 1 {
      return Err(AssertionError);
    }
    var requests: seq<Request> := [];
    for i := 0 to |hrefs|
      invariant |requests| == i
      invariant forall j :: 0 <= j < i ==>
        requests[j] == Request(hrefs[j], map["base" := Dict(PlayerBase(hrefs[j], parent))])
    {
      requests := requests + [Request(hrefs[i], map["base" := Dict(PlayerBase(hrefs[i], parent))])];
    }
    r := Ok(requests);
  }

  // ---------------------------------------------------------------------
  // The birth-date text: "<date> (<age>)"
  // ---------------------------------------------------------------------

  /** `t.split(" (")[0]`. */
  function BeforeParen(t: string): string {
    Split(t, " (")[0]
  }

  /** The date part is the text before the first ` (`, or all of it when
      there is none. */
  lemma BeforeParenSpec(t: string)
    ensures BeforeParen(t) <= t
    ensures !Contains(BeforeParen(t), " (")
    ensures Contains(t, " (") ==> OccursAt(t, " (", |BeforeParen(t)|)
    ensures !Contains(t, " (") ==> BeforeParen(t) == t
  {
    SplitHead(t, " (");
    FindSpec(t, " (");
    var d := BeforeParen(t);
    if Contains(d, " (") {
      var j :| 0 <= j <= |d| - 2 && OccursAt(d, " (", j);
      assert t[j..j + 2] == d[j..j + 2];
      assert OccursAt(t, " (", j);
    }
  }

  /** `t.split('(')[-1].split(')')[0]`. */
  function AgeText(t: string): string {
    var pieces := Split(t, "(");
    Split(pieces[|pieces| - 1], ")")[0]
  }

  /** The last piece of `t.split('(')` is the text after the last `(`, or
      all of `t` when there is none. */
  lemma LastPieceSpec(t: string)
    ensures var pieces := Split(t, "(");
      var j := |t| - |pieces[|pieces| - 1]|;
      && 0 <= j <= |t|
      && t[j..] == pieces[|pieces| - 1]
      && '(' !in t[j..]
      && (j == 0 <==> '(' !in t)
      && (j > 0 ==> t[j - 1] == '(')
  {
    SplitLast(t, '(');
    SplitTail(t, "(");
    ContainsChar(t, '(');
  }

  /** The first piece of `s.split(')')` is the text before the first `)`. */
  lemma HeadPieceSpec(s: string)
    ensures var a := Split(s, ")")[0];
      && a <= s
      && ')' !in a
      && (|a| == |s| || s[|a|] == ')')
  {
    SplitHead(s, ")");
    FindChar(s, ')');
  }

  /** The age part starts right after the last `(` (at the start of the
      text when there is none) and runs up to the next `)` or the end. */
  lemma AgeTextSpec(t: string)
    ensures exists j :: AgeAt(t, AgeText(t), j)
  {
    var pieces := Split(t, "(");
    var last := pieces[|pieces| - 1];
    LastPieceSpec(t);
    HeadPieceSpec(last);
    var j := |t| - |last|;
    var a := Split(last, ")")[0];
    AgeAtOf(t, last, a);
    assert AgeText(t) == a;
    assert AgeAt(t, AgeText(t), j);
  }

  /** `a` starts at `j`, right after the last `(` of `t` (at the start
      when there is none), and runs up to the next `)` or the end. */
  predicate AgeAt(t: string, a: string, j: int) {
    && 0 <= j <= |t| - |a|
    && (j == 0 <==> '(' !in t)
    && (j > 0 ==> t[j - 1] == '(')
    && '(' !in t[j..]
    && t[j..j + |a|] == a
    && ')' !in a
    && (j + |a| == |t| || t[j + |a|] == ')')
  }

  /** The head of the last piece, up to its first `)`, is the age part. */
  lemma AgeAtOf(t: string, last: string, a: string)
    requires |last| <= |t| && t[|t| - |last|..] == last
    requires '(' !in t[|t| - |last|..]
    requires |t| == |last| <==> '(' !in t
    requires |t| > |last| ==> t[|t| - |last| - 1] == '('
    requires a <= last && ')' !in a && (|a| == |last| || last[|a|] == ')')
    ensures AgeAt(t, a, |t| - |last|)
  {
    var j := |t| - |last|;
    assert t[j..j + |a|] == a;
    assert j + |a| < |t| ==> t[j + |a|] == last[|a|];
  }

  /** The birth-date text as the site writes it, `<date> (<age>)`, splits
      back into its date and its age, when the date holds no ` (` and the
      age no parenthesis. */
  lemma DateAndAgeOf(date: string, age: string)
    requires !Contains(date, " (")
    requires '(' !in age && ')' !in age
    ensures BeforeParen(date + " (" + age + ")") == date
    ensures AgeText(date + " (" + age + ")") == age
  {
    var t := date + " (" + age + ")";
    assert t == date + (" (" + age + ")");
    BeforeParenOf(date, " (" + age + ")");
    assert t == (date + " ") + "(" + age + ")";
    AgeTextOf(date + " ", age);
  }

  /** The date part of `date + rest`, where `rest` starts with ` (`. */
  lemma BeforeParenOf(date: string, rest: string)
    requires !Contains(date, " (")
    requires |rest| >= 2 && rest[0] == ' ' && rest[1] == '('
    ensures BeforeParen(date + rest) == date
  {
    var t := date + rest;
    var n := |date|;
    BeforeParenSpec(t);
    var d := BeforeParen(t);
    assert OccursAt(t, " (", n);
    assert t[n] == ' ' && t[n + 1] == '(';
    assert OccursAt(t, " (", |d|);
    assert t[|d|] == t[|d|..|d| + 2][0] == ' ';
    assert t[|d| + 1] == t[|d|..|d| + 2][1] == '(';
    // the first ` (` of `t` is neither inside `date` nor after `n`
    OccursInPrefix(date, rest, " (", |d|);
    assert d + t[|d|..] == t;
    OccursInPrefix(d, t[|d|..], " (", n);
    assert |d| == n;
    assert d == t[..n] == date;
  }

  /** The age part of `pre + "(" + age + ")"`. */
  lemma AgeTextOf(pre: string, age: string)
    requires '(' !in age && ')' !in age
    ensures AgeText(pre + "(" + age + ")") == age
  {
    var t := pre + "(" + age + ")";
    var n := |pre|;
    assert t[n] == '(';
    assert forall i :: n + 1 <= i < n + 1 + |age| ==> t[i] == age[i - n - 1];
    assert t[|t| - 1] == ')';
    AgeTextAt(t, n, age);
  }

  /** The age part of a text holding `(`, then `age`, then a closing `)`
      at its end. */
  lemma AgeTextAt(t: string, n: nat, age: string)
    requires '(' !in age && ')' !in age
    requires n + |age| + 2 == |t| && t[n] == '(' && t[|t| - 1] == ')'
    requires forall i :: n + 1 <= i < n + 1 + |age| ==> t[i] == age[i - n - 1]
    ensures AgeText(t) == age
  {
    AgeTextSpec(t);
    var a := AgeText(t);
    var j :| AgeAt(t, a, j);
    assert j == n + 1;
    assert |a| == |age|;
    assert a == t[j..j + |age|] == age;
  }

  // ---------------------------------------------------------------------
  // parse_details: the player record
  // ---------------------------------------------------------------------

  /** The texts of a player profile page that both player spiders read the
      same way, as the selectors return them (None when missing). */
  datatype Profile = Profile(
    nameTexts: seq<string>, lastName: Option<string>, number: Option<string>,
    nameInHomeCountry: Option<string>, birthDate: Option<string>,
    birthCountry: Option<string>, birthCity: Option<string>, height: Option<string>,
    citizenship: Option<string>, position: Option<string>, agentHref: Option<string>,
    imageUrl: Option<string>, foot: Option<string>, joined: Option<string>,
    contractExpires: Option<string>, lastExtension: Option<string>, outfitter: Option<string>,
    highestMarketValue: Option<string>)

  /** What else the players spider reads from a profile page. The social
      media node is None when the page has none, else the href of each of
      its links; the market value history is what the graph script gives. */
  datatype PlayerPage = PlayerPage(
    profile: Profile, agentName: Option<string>, clubHref: Option<string>,
    marketValueText: Option<string>, marketValueLink: Option<string>,
    socialMedia: Option<seq<Option<string>>>, marketValueHistory: Value)

  const PersonKeys: set<string> := {
    "name_in_home_country", "place_of_birth", "height", "citizenship", "last_name", "number", "position"
  }

  const CareerKeys: set<string> := {
    "image_url", "foot", "joined", "contract_expires", "day_of_last_contract_extension", "outfitter",
    "highest_market_value"
  }

  /** The person attributes both spiders set the same way. */
  function PersonFields(p: Profile): (r: Record)
    ensures r.Keys == PersonKeys
    ensures r["last_name"] == OptStr(SafeStrip(p.lastName)) && r["number"] == OptStr(SafeStrip(p.number))
    ensures r["position"] == OptStr(SafeStrip(p.position))
  {
    map[
      "name_in_home_country" := OptStr(p.nameInHomeCountry),
      "place_of_birth" := BirthPlace(p),
      "height" := OptStr(p.height),
      "citizenship" := OptStr(p.citizenship),
      "last_name" := OptStr(SafeStrip(p.lastName)),
      "number" := OptStr(SafeStrip(p.number)),
      "position" := OptStr(SafeStrip(p.position))
    ]
  }

  /** The place of birth: a dictionary of the country and the city. */
  function BirthPlace(p: Profile): Value {
    Dict(map["country" := OptStr(p.birthCountry), "city" := OptStr(p.birthCity)])
  }

  /** The career attributes both spiders set the same way. */
  function CareerFields(p: Profile): (r: Record)
    ensures r.Keys == CareerKeys
    ensures r["contract_expires"] == OptStr(SafeStrip(p.contractExpires))
    ensures r["highest_market_value"] == OptStr(SafeStrip(p.highestMarketValue))
  {
    map[
      "image_url" := OptStr(p.imageUrl),
      "foot" := OptStr(p.foot),
      "joined" := OptStr(p.joined),
      "contract_expires" := OptStr(SafeStrip(p.contractExpires)),
      "day_of_last_contract_extension" := OptStr(p.lastExtension),
      "outfitter" := OptStr(p.outfitter),
      "highest_market_value" := OptStr(SafeStrip(p.highestMarketValue))
    ]
  }

  /** The fourteen attributes both spiders share. */
  function ProfileFields(p: Profile): (r: Record)
    ensures r.Keys == PersonKeys + CareerKeys
  {
    Merge(PersonFields(p), CareerFields(p))
  }

  /** `text if text else link`, both safely stripped: the div text when it
      is not blank, else the link text. Either way the value is stripped. */
  function CurrentMarketValue(text: Option<string>, link: Option<string>): (r: Option<string>)
    ensures text.Some? && Strip(text.value) != [] ==> r == Some(Strip(text.value))
    ensures text.None? || Strip(text.value) == [] ==> r == SafeStrip(link)
    ensures r.Some? ==> IsStripped(r.value)
  {
    SafeStripIdempotent(text);
    SafeStripIdempotent(link);
    var t := SafeStrip(text);
    if t.Some? && t.value != [] then t else SafeStrip(link)
  }

  /** The social media hrefs: an empty list when the page has no such
      node. */
  function SocialMedia(node: Option<seq<Option<string>>>): (v: Value)
    ensures node.None? ==> v == List([])
    ensures node.Some? ==> v.List? && |v.items| == |node.value|
    ensures node.Some? ==> forall i :: 0 <= i < |node.value| ==> v.items[i] == OptStr(node.value[i])
  {
    if node.None? then List([])
    else List(seq(|node.value|, i requires 0 <= i < |node.value| => OptStr(node.value[i])))
  }

  const OtherKeys: set<string> := {"name", "player_agent", "current_club", "market_value_history"}

  /** The attributes the players spider copies from the page as found. */
  function OtherFields(page: PlayerPage): (r: Record)
    ensures r.Keys == OtherKeys
  {
    map[
      "name" := OptStr(SafeStrip(Some(Join(page.profile.nameTexts, "")))),
      "player_agent" := Dict(map["href" := OptStr(page.profile.agentHref), "name" := OptStr(page.agentName)]),
      "current_club" := Dict(map["href" := OptStr(page.clubHref)]),
      "market_value_history" := page.marketValueHistory
    ]
  }

  const DerivedKeys: set<string> := {"date_of_birth", "age", "current_market_value", "social_media", "code"}

  /** The attributes the players spider derives from the page, as computed. */
  datatype Derived = Derived(dateOfBirth: Value, age: Value, marketValue: Value, socialMedia: Value, code: Value)

  /** What the players spider derives, for a birth-date text that was
      found. */
  function Derive(page: PlayerPage, birth: string, code: string): (d: Derived)
  {
    var t := Strip(birth);
    Derived(Str(BeforeParen(t)), Str(AgeText(t)),
      OptStr(CurrentMarketValue(page.marketValueText, page.marketValueLink)),
      SocialMedia(page.socialMedia), Str(code))
  }

  function DerivedFields(d: Derived): (r: Record)
    ensures r.Keys == DerivedKeys
    ensures r["date_of_birth"] == d.dateOfBirth && r["age"] == d.age
    ensures r["current_market_value"] == d.marketValue && r["social_media"] == d.socialMedia
    ensures r["code"] == d.code
  {
    map[
      "date_of_birth" := d.dateOfBirth,
      "age" := d.age,
      "current_market_value" := d.marketValue,
      "social_media" := d.socialMedia,
      "code" := d.code
    ]
  }

  const DetailKeys: set<string> := OtherKeys + DerivedKeys

  const AttributeKeys: set<string> := PersonKeys + CareerKeys + DetailKeys

  /** All the attributes of a profile page. */
  function Attributes(page: PlayerPage, d: Derived): (r: Record)
    ensures r.Keys == AttributeKeys
  {
    Merge(Merge(ProfileFields(page.profile), OtherFields(page)), DerivedFields(d))
  }

  /** `parse_details`: a page without a birth date raises AttributeError;
      then the code is the decoded first path segment of the base href. The
      record is the base with the page attributes laid over it. */
  method ParseDetails(page: PlayerPage, base: Record, unquote: string -> string) returns (r: Result<Record>)
    ensures page.profile.birthDate.None? ==> r == Err(AttributeError)
    ensures page.profile.birthDate.Some? && HrefOf(base).Err? ==> r == Err(HrefOf(base).error)
    ensures page.profile.birthDate.Some? && HrefOf(base).Ok? ==>
      (PathCode(HrefOf(base).value, unquote).Err? ==> r == Err(PathCode(HrefOf(base).value, unquote).error))
    ensures r.Ok? <==>
      page.profile.birthDate.Some? && HrefOf(base).Ok? && PathCode(HrefOf(base).value, unquote).Ok?
    ensures r.Ok? ==>
      r.value == Merge(base, Attributes(page, Derive(page, page.profile.birthDate.value, PathCode(HrefOf(base).value, unquote).value)))
  {
    var birth := page.profile.birthDate;
    if birth.None? {
      return Err(AttributeError);
    }
    var href := HrefOf(base);
    if href.Err? {
      return Err(href.error);
    }
    var code := PathCode(href.value, unquote);
    if code.Err? {
      return Err(code.error);
    }
    r := Ok(Merge(base, Attributes(page, Derive(page, birth.value, code.value))));
  }

  /** The emitted player record: every base key the page does not set
      survives, and the birth date, age, market value, social media and
      code are those of the page. */
  lemma PlayerRecord(page: PlayerPage, base: Record, birth: string, code: string)
    ensures var rec := Merge(base, Attributes(page, Derive(page, birth, code)));
      && rec.Keys == base.Keys + AttributeKeys
      && (forall k :: k in base && k !in AttributeKeys ==> rec[k] == base[k])
      && rec["date_of_birth"] == Str(BeforeParen(Strip(birth)))
      && rec["age"] == Str(AgeText(Strip(birth)))
      && rec["current_market_value"] == OptStr(CurrentMarketValue(page.marketValueText, page.marketValueLink))
      && rec["social_media"] == SocialMedia(page.socialMedia)
      && rec["code"] == Str(code)
  {
    var attrs := Attributes(page, Derive(page, birth, code));
    var d := Derive(page, birth, code);
    var f := DerivedFields(d);
    assert "date_of_birth" in DerivedKeys && "age" in DerivedKeys && "code" in DerivedKeys;
    assert "current_market_value" in DerivedKeys && "social_media" in DerivedKeys;
  }
}
