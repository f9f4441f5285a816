/**
 * The clubs-by-URL spider: competition entrypoints given as codes or hrefs,
 * the competition URL it requests (the participants page of a cup, the
 * `/plus/` listing of a league), one roster request per distinct club of
 * the competition page, and the club record with its players table.
 */
module ClubsByUrl {
  import opened Values
  import opened Strings
  import opened Patterns
  import opened Urls
  import opened Common
  import opened Clubs
  import opened Generators

  // ---------------------------------------------------------------------
  // Hrefs
  // ---------------------------------------------------------------------

  predicate IsAbsolute(href: string) {
    StartsWith(href, "http://") || StartsWith(href, "https://")
  }

  /** `_normalize_href`: an empty href is kept; an absolute URL becomes its
      path; trailing `/` are dropped. Only an absolute URL with an
      unmatched bracket in its host fails (ValueError from `urlparse`). */
  function NormalizeHref(href: string): (r: Result<string>)
    ensures href == [] ==> r == Ok([])
    ensures r.Err? <==> IsAbsolute(href) && UrlParse(href).Err?
    ensures r.Err? ==> r.error == UrlParse(href).error
    ensures r.Ok? ==> r.value == [] || r.value[|r.value| - 1] != '/'
  {
    if href == [] then Ok(href)
    else if IsAbsolute(href) then
      var u :- UrlParse(href);
      Ok(RStripChar(u.path, '/'))
    else Ok(RStripChar(href, '/'))
  }

  /** An absolute URL normalises to its path, rooted, less its trailing
      slashes. */
  lemma NormalizeHrefAbsolute(href: string)
    requires IsAbsolute(href) && UrlParse(href).Ok?
    ensures var r := NormalizeHref(href); var p := UrlParse(href).value.path;
      && r.Ok?
      && (r.value == [] || r.value[0] == '/')
      && |r.value| <= |p| && r.value == p[..|r.value|]
      && (forall i :: |r.value| <= i < |p| ==> p[i] == '/')
  {
    HttpPathRooted(href);
  }

  /** A relative href normalises to itself less its trailing slashes. */
  lemma NormalizeHrefRelative(href: string)
    requires !IsAbsolute(href)
    ensures var r := NormalizeHref(href);
      && r.Ok?
      && |r.value| <= |href| && r.value == href[..|r.value|]
      && (forall i :: |r.value| <= i < |href| ==> href[i] == '/')
  {
  }

  /** Normalising twice is normalising once. */
  lemma NormalizeHrefIdempotent(href: string)
    requires NormalizeHref(href).Ok?
    ensures NormalizeHref(NormalizeHref(href).value) == NormalizeHref(href)
  {
    var r := NormalizeHref(href).value;
    if IsAbsolute(href) {
      NormalizeHrefAbsolute(href);
      assert !IsAbsolute(r) by {
        assert r == [] || r[0] == '/';
        assert "http://"[0] == 'h' && "https://"[0] == 'h';
      }
    } else {
      NormalizeHrefRelative(href);
      PrefixNotAbsolute(href, r);
    }
    Normalized(r);
  }

  lemma PrefixNotAbsolute(href: string, r: string)
    requires !IsAbsolute(href) && |r| <= |href| && r == href[..|r|]
    ensures !IsAbsolute(r)
  {
    if |r| >= 7 {
      assert r[..7] == href[..7];
    }
    if |r| >= 8 {
      assert r[..8] == href[..8];
    }
  }

  /** A relative href without trailing `/` is already normal. */
  lemma Normalized(r: string)
    requires !IsAbsolute(r) && (r == [] || r[|r| - 1] != '/')
    ensures NormalizeHref(r) == Ok(r)
  {
  }

  /** The competition path segment of a code for the spider's kind. */
  function CodeSegment(kind: string): string {
    if kind == "cup" then "pokalwettbewerb" else "wettbewerb"
  }

  /** `_hrefs_from_codes`: the start page of each non-empty code, in order
      (HrefsFromCodesSpec). */
  function HrefsFromCodes(kind: string, codes: seq<string>): (r: seq<string>)
    ensures |r| <= |codes|
    ensures forall i :: 0 <= i < |r| ==> r[i] != []
  {
    if codes == [] then []
    else (if codes[0] != [] then [StartPage(kind, codes[0])] else []) + HrefsFromCodes(kind, codes[1..])
  }

  /** The start page of one code. */
  function StartPage(kind: string, c: string): string {
    "/startseite/" + CodeSegment(kind) + "/" + c
  }

  /** Every non-empty code gives its start page, every href comes from a
      non-empty code, and without empty codes there is one href per code,
      in order. */
  lemma HrefsFromCodesSpec(kind: string, codes: seq<string>)
    ensures var r := HrefsFromCodes(kind, codes);
      && (forall c :: c in codes && c != [] ==> StartPage(kind, c) in r)
      && (forall h :: h in r ==> exists c :: c in codes && c != [] && h == StartPage(kind, c))
      && ((forall i :: 0 <= i < |codes| ==> codes[i] != []) ==>
            |r| == |codes| && forall i :: 0 <= i < |r| ==> r[i] == StartPage(kind, codes[i]))
  {
    HrefsFromCodesComplete(kind, codes);
    HrefsFromCodesSound(kind, codes);
    if forall i :: 0 <= i < |codes| ==> codes[i] != [] {
      HrefsFromCodesExact(kind, codes);
    }
  }

  lemma {:induction false} HrefsFromCodesComplete(kind: string, codes: seq<string>)
    ensures forall c :: c in codes && c != [] ==> StartPage(kind, c) in HrefsFromCodes(kind, codes)
  {
    if codes != [] {
      HrefsFromCodesComplete(kind, codes[1..]);
      var r := HrefsFromCodes(kind, codes);
      var rest := HrefsFromCodes(kind, codes[1..]);
      var h := if codes[0] != [] then [StartPage(kind, codes[0])] else [];
      assert r == h + rest;
      forall c | c in codes && c != []
        ensures StartPage(kind, c) in r
      {
        if c != codes[0] {
          assert c in codes[1..];
          assert StartPage(kind, c) in rest;
        }
      }
    }
  }

  lemma {:induction false} HrefsFromCodesSound(kind: string, codes: seq<string>)
    ensures forall h :: h in HrefsFromCodes(kind, codes) ==> exists c :: c in codes && c != [] && h == StartPage(kind, c)
  {
    if codes != [] {
      HrefsFromCodesSound(kind, codes[1..]);
      var r := HrefsFromCodes(kind, codes);
      var rest := HrefsFromCodes(kind, codes[1..]);
      var h0 := if codes[0] != [] then [StartPage(kind, codes[0])] else [];
      assert r == h0 + rest;
      forall h | h in r
        ensures exists c :: c in codes && c != [] && h == StartPage(kind, c)
      {
        if h in rest {
          var c :| c in codes[1..] && c != [] && h == StartPage(kind, c);
          assert c in codes;
        } else {
          assert codes[0] in codes;
        }
      }
    }
  }

  lemma {:induction false} HrefsFromCodesExact(kind: string, codes: seq<string>)
    requires forall i :: 0 <= i < |codes| ==> codes[i] != []
    ensures var r := HrefsFromCodes(kind, codes);
      |r| == |codes| && forall i :: 0 <= i < |r| ==> r[i] == StartPage(kind, codes[i])
  {
    if codes != [] {
      HrefsFromCodesExact(kind, codes[1..]);
      var rest := HrefsFromCodes(kind, codes[1..]);
      assert HrefsFromCodes(kind, codes) == [StartPage(kind, codes[0])] + rest;
    }
  }

  /** No href comes only from empty codes. */
  lemma HrefsFromCodesEmpty(kind: string, codes: seq<string>)
    ensures HrefsFromCodes(kind, codes) == [] <==> forall i :: 0 <= i < |codes| ==> codes[i] == []
  {
    var fromCodes := HrefsFromCodes(kind, codes);
    HrefsFromCodesSpec(kind, codes);
    if fromCodes == [] {
      forall i | 0 <= i < |codes|
        ensures codes[i] in codes && (codes[i] != [] ==> StartPage(kind, codes[i]) in fromCodes)
      {
      }
    } else {
      assert fromCodes[0] in fromCodes;
      var c :| c in codes && c != [] && fromCodes[0] == StartPage(kind, c);
      var i :| 0 <= i < |codes| && codes[i] == c;
    }
  }

  /** The hrefs of two lists of codes follow each other: the order of the
      codes is kept. */
  lemma {:induction false} HrefsFromCodesAppend(kind: string, a: seq<string>, b: seq<string>)
    ensures HrefsFromCodes(kind, a + b) == HrefsFromCodes(kind, a) + HrefsFromCodes(kind, b)
    decreases |a|
  {
    if a == [] {
      assert a + b == b;
    } else {
      var ab := a + b;
      assert ab[0] == a[0] && ab[1..] == a[1..] + b;
      HrefsFromCodesAppend(kind, a[1..], b);
    }
  }

  /** The input hrefs normalised one by one; the first that fails ends the
      list comprehension with its error. */
  function NormalizeAll(hrefs: seq<string>): (r: Result<seq<string>>)
    ensures r.Ok? <==> forall i :: 0 <= i < |hrefs| ==> NormalizeHref(hrefs[i]).Ok?
    ensures r.Ok? ==> |r.value| == |hrefs| && forall i :: 0 <= i < |hrefs| ==> NormalizeHref(hrefs[i]) == Ok(r.value[i])
    ensures r.Err? ==> exists i :: 0 <= i < |hrefs| && NormalizeHref(hrefs[i]) == Err(r.error)
  {
    MapAllSpec(hrefs, NormalizeHref);
    var r := MapAll(hrefs, NormalizeHref);
    if r.Err? then
      var k := FirstWhere(hrefs, x => NormalizeHref(x).Err?, 0);
      assert NormalizeHref(hrefs[k]) == Err(r.error);
      r
    else
      r
  }

  /** The non-empty strings of a list, in order. */
  function NonEmpty(hs: seq<string>): (r: seq<string>)
    ensures forall h :: h in r <==> h in hs && h != []
    ensures |r| <= |hs|
    ensures r == [] <==> forall i :: 0 <= i < |hs| ==> hs[i] == []
  {
    if hs == [] then []
    else
      assert hs[0] == [] ==> forall i :: 0 < i < |hs| ==> hs[i] == hs[1..][i - 1];
      (if hs[0] != [] then [hs[0]] else []) + NonEmpty(hs[1..])
  }

  /** Filtering a list whose head part is all non-empty keeps that part. */
  lemma {:induction false} NonEmptyAppend(a: seq<string>, b: seq<string>)
    requires forall i :: 0 <= i < |a| ==> a[i] != []
    ensures NonEmpty(a + b) == a + NonEmpty(b)
    decreases |a|
  {
    if a == [] {
      assert a + b == b;
    } else {
      assert (a + b)[1..] == a[1..] + b;
      NonEmptyAppend(a[1..], b);
      assert a == [a[0]] + a[1..];
    }
  }

  function CompetitionEntry(href: string): (r: Record)
    ensures r.Keys == {"type", "href"} && r["type"] == Str("competition") && r["href"] == Str(href)
  {
    map["type" := Str("competition"), "href" := Str(href)]
  }

  const NoEntryMessage := "Please provide either 'codes' or 'hrefs' to clubs_by_url spider"

  /** `scrape_parents`: one competition entrypoint per non-empty href
      (ScrapeParentsEntries). */
  function ScrapeParents(kind: string, codes: seq<string>, hrefs: seq<string>): (r: Result<seq<Record>>)
    ensures NormalizeAll(hrefs).Err? ==> r == Err(NormalizeAll(hrefs).error)
    ensures r.Ok? ==> forall i :: 0 <= i < |r.value| ==> "type" in r.value[i] && r.value[i]["type"] == Str("competition")
  {
    var normalized :- NormalizeAll(hrefs);
    var entry := NonEmpty(HrefsFromCodes(kind, codes) + normalized);
    if entry == [] then Err(Exception(NoEntryMessage))
    else Ok(CompetitionEntries(entry))
  }

  /** With every input href normalised, `scrape_parents` raises exactly
      when no code and no normalised href is non-empty. */
  lemma ScrapeParentsRaises(kind: string, codes: seq<string>, hrefs: seq<string>)
    requires NormalizeAll(hrefs).Ok?
    ensures var n := NormalizeAll(hrefs).value;
      ScrapeParents(kind, codes, hrefs) == Err(Exception(NoEntryMessage))
      <==> (forall i :: 0 <= i < |codes| ==> codes[i] == []) && (forall i :: 0 <= i < |n| ==> n[i] == [])
  {
    var n := NormalizeAll(hrefs).value;
    var fromCodes := HrefsFromCodes(kind, codes);
    NonEmptyAppend(fromCodes, n);
    var entry := fromCodes + NonEmpty(n);
    assert ScrapeParents(kind, codes, hrefs) == if entry == [] then Err(Exception(NoEntryMessage)) else Ok(CompetitionEntries(entry));
    HrefsFromCodesEmpty(kind, codes);
  }

  /** With every input href normalised, the entrypoints are the
      code-derived hrefs first, then the non-empty normalised hrefs, none of
      them empty. */
  lemma ScrapeParentsEntries(kind: string, codes: seq<string>, hrefs: seq<string>)
    requires NormalizeAll(hrefs).Ok?
    requires ScrapeParents(kind, codes, hrefs).Ok?
    ensures var entry := HrefsFromCodes(kind, codes) + NonEmpty(NormalizeAll(hrefs).value);
      && ScrapeParents(kind, codes, hrefs).value == CompetitionEntries(entry)
      && forall i :: 0 <= i < |entry| ==> entry[i] != []
  {
    var n := NormalizeAll(hrefs).value;
    var fromCodes := HrefsFromCodes(kind, codes);
    NonEmptyAppend(fromCodes, n);
    var entry := fromCodes + NonEmpty(n);
    assert ScrapeParents(kind, codes, hrefs) == if entry == [] then Err(Exception(NoEntryMessage)) else Ok(CompetitionEntries(entry));
    forall i | 0 <= i < |entry| ensures entry[i] != [] {
      if i >= |fromCodes| {
        assert entry[i] == NonEmpty(n)[i - |fromCodes|];
        assert entry[i] in NonEmpty(n);
      }
    }
  }

  /** One competition entrypoint per href, in order. */
  function CompetitionEntries(hs: seq<string>): (r: seq<Record>)
    ensures |r| == |hs| && forall i :: 0 <= i < |hs| ==> r[i] == CompetitionEntry(hs[i])
  {
    seq(|hs|, i requires 0 <= i < |hs| => CompetitionEntry(hs[i]))
  }

  /** The comma-separated input list: each piece stripped; a falsy input
      gives no pieces. */
  function InputList(s: Option<string>): (r: seq<string>)
    ensures s.None? || s.value == [] ==> r == []
    ensures s.Some? && s.value != [] ==>
      && |r| == |Split(s.value, ",")|
      && forall i :: 0 <= i < |r| ==> r[i] == Strip(Split(s.value, ",")[i])
  {
    if s.Some? && s.value != [] then
      var parts := Split(s.value, ",");
      seq(|parts|, i requires 0 <= i < |parts| => Strip(parts[i]))
    else []
  }

  /** The competition kind: `cup` unless given, stripped and lower-cased. */
  function KindOf(kind: Option<string>): string {
    if kind.Some? && kind.value != [] then Lower(Strip(kind.value)) else "cup"
  }

  // ---------------------------------------------------------------------
  // Competition URL
  // ---------------------------------------------------------------------

  predicate IsCupPath(kind: string, path: string) {
    kind == "cup" || Contains(path, "/pokalwettbewerb/")
  }

  /** The participants-page rewrite of a cup path: a path already at
      `/teilnehmer/` is kept; otherwise the first of `/startseite/`,
      `/plus/`, `/pokalwettbewerb/` that occurs is turned into a
      participants segment. */
  function CupRewrite(path: string): (r: string)
    ensures Contains(path, "/teilnehmer/") ==> r == path
    ensures !Contains(path, "/startseite/") && !Contains(path, "/plus/") && !Contains(path, "/pokalwettbewerb/") ==> r == path
  {
    if Contains(path, "/teilnehmer/") then path
    else if Contains(path, "/startseite/") then ReplaceAll(path, "/startseite/", "/teilnehmer/")
    else if Contains(path, "/plus/") then ReplaceAll(path, "/plus/", "/teilnehmer/")
    else if Contains(path, "/pokalwettbewerb/") && !Contains(path, "/teilnehmer/pokalwettbewerb/") then
      ReplaceAll(path, "/pokalwettbewerb/", "/teilnehmer/pokalwettbewerb/")
    else path
  }

  /** A cup path naming any of the four segments ends up at the
      participants page. */
  lemma CupRewriteParticipants(path: string)
    requires || Contains(path, "/teilnehmer/") || Contains(path, "/startseite/")
             || Contains(path, "/plus/") || Contains(path, "/pokalwettbewerb/")
    ensures Contains(CupRewrite(path), "/teilnehmer/")
  {
    var r := CupRewrite(path);
    if Contains(path, "/teilnehmer/") {
    } else if Contains(path, "/startseite/") {
      ReplaceAllIntroduces(path, "/startseite/", "/teilnehmer/");
    } else if Contains(path, "/plus/") {
      ReplaceAllIntroduces(path, "/plus/", "/teilnehmer/");
    } else if !Contains(path, "/teilnehmer/pokalwettbewerb/") {
      ReplaceAllIntroduces(path, "/pokalwettbewerb/", "/teilnehmer/pokalwettbewerb/");
      CupParticipantsSegment(r);
    } else {
      CupParticipantsSegment(path);
    }
  }

  lemma CupParticipantsSegment(s: string)
    requires Contains(s, "/teilnehmer/pokalwettbewerb/")
    ensures Contains(s, "/teilnehmer/")
  {
    assert "/teilnehmer/" + "pokalwettbewerb/" == "/teilnehmer/pokalwettbewerb/";
    ContainsPrefix(s, "/teilnehmer/", "pokalwettbewerb/");
  }

  /** `if self.season:` — no season, or season 0, leaves the URL alone. */
  /** `int(season) if season else None`: no season, or an empty one, is
      None; any other text must spell an integer, else ValueError. */
  function SeasonArgument(season: Option<string>): (r: Result<Option<int>>)
    ensures season.None? || season.value == [] ==> r == Ok(None)
    ensures season.Some? && season.value != [] ==> (r.Ok? <==> ParseInt(season.value).Some?)
    ensures season.Some? && season.value != [] && r.Ok? ==> r.value == ParseInt(season.value)
    ensures r.Err? ==> season.Some? && r.error == ValueError(season.value)
  {
    if season.None? || season.value == [] then Ok(None)
    else
      match ParseInt(season.value)
      case None => Err(ValueError(season.value))
      case Some(n) => Ok(Some(n))
  }

  /** A season given as the decimal spelling of an integer is that
      integer. */
  lemma SeasonArgumentOf(n: int)
    ensures SeasonArgument(Some(IntToString(n))) == Ok(Some(n))
  {
    IntToStringRoundTrip(n);
  }

  predicate HasSeason(season: Option<int>) { season.Some? && season.value != 0 }

  /** The `/saison_id/<season>` segment appended to a cup path. */
  function SeasonSegment(season: int): string {
    "/saison_id/" + IntToString(season)
  }

  /** The path requested for a normalised competition path: the
      participants path of a cup (with the season, when one is set, as its
      trailing `/saison_id/` segment after the trailing slashes are dropped)
      or the `/plus/` listing of a league. */
  function CompetitionPath(kind: string, season: Option<int>, path: string): (r: string)
    ensures !IsCupPath(kind, path) ==> Contains(r, "/plus/") && (Contains(path, "/plus/") ==> r == path)
    ensures !IsCupPath(kind, path) && !Contains(path, "/plus/") ==> r == RStripChar(path, '/') + "/plus/"
    ensures IsCupPath(kind, path) && !HasSeason(season) ==> r == CupRewrite(path)
    ensures IsCupPath(kind, path) && HasSeason(season) ==>
      r == RStripChar(RemoveSaison(CupRewrite(path)), '/') + SeasonSegment(season.value)
    ensures IsCupPath(kind, path) && HasSeason(season) ==>
      var seg := SeasonSegment(season.value);
      && EndsWith(r, seg)
      && var head := r[..|r| - |seg|];
      && (head == [] || head[|head| - 1] != '/')
      && |head| <= |CupRewrite(path)|
  {
    if IsCupPath(kind, path) then
      var p := CupRewrite(path);
      if HasSeason(season) then
        var head := RStripChar(RemoveSaison(p), '/');
        var seg := SeasonSegment(season.value);
        assert (head + seg)[..|head + seg| - |seg|] == head;
        assert (head + seg)[|head + seg| - |seg|..] == seg;
        head + seg
      else p
    else if Contains(path, "/plus/") then path
    else
      PlusAppended(RStripChar(path, '/'));
      RStripChar(path, '/') + "/plus/"
  }

  /** With a positive season, a cup's participants path carries exactly one
      `/saison_id/<digits>` segment, the season's, at its end, provided no
      segment of the rewritten path follows a character of `/saison_id`
      (otherwise a single removal pass can leave one, as
      `RemoveSaisonNotIdempotent` shows). */
  lemma CupSeasonOnce(kind: string, season: Option<int>, path: string)
    requires IsCupPath(kind, path) && season.Some? && season.value > 0
    requires SaisonGuarded(CupRewrite(path))
    ensures var r := CompetitionPath(kind, season, path);
      var head := RStripChar(RemoveSaison(CupRewrite(path)), '/');
      && r == head + "/saison_id/" + NatToString(season.value)
      && SaisonAt(r, |head|)
      && DigitsAfter(r, "/saison_id/", |head|) == NatToString(season.value)
      && forall i :: 0 <= i < |r| && i != |head| ==> !SaisonAt(r, i)
  {
    var d := NatToString(season.value);
    var head := RStripChar(RemoveSaison(CupRewrite(path)), '/');
    assert CompetitionPath(kind, season, path) == head + "/saison_id/" + d by {
      assert SeasonSegment(season.value) == "/saison_id/" + d;
      assert head + ("/saison_id/" + d) == head + "/saison_id/" + d;
    }
    SeasonAppendedOnce(CupRewrite(path), d);
    assert DigitsAfter(head + "/saison_id/" + d, "/saison_id/", |head|) == d by {
      assert head + "/saison_id/" + d == head + "/saison_id/" + d + [];
      LitDigitsOf(head, "/saison_id/", d, []);
    }
  }

  /** `_build_competition_url` as a value: the base URL followed by the
      competition path of the normalised href. */
  function CompetitionUrl(baseUrl: string, kind: string, season: Option<int>, href: string): (r: Result<string>)
    ensures r.Err? <==> NormalizeHref(href).Err?
    ensures r.Err? ==> r.error == NormalizeHref(href).error
    ensures r.Ok? ==>
      && StartsWith(r.value, baseUrl)
      && r.value[|baseUrl|..] == CompetitionPath(kind, season, NormalizeHref(href).value)
  {
    var p :- NormalizeHref(href);
    var tail := CompetitionPath(kind, season, p);
    assert (baseUrl + tail)[..|baseUrl|] == baseUrl;
    assert (baseUrl + tail)[|baseUrl|..] == tail;
    Ok(baseUrl + tail)
  }

  /** The participants rewrite of a cup path, one replacement at most. */
  method RewriteCupPath(path: string) returns (p: string)
    ensures p == CupRewrite(path)
  {
    p := path;
    if !Contains(p, "/teilnehmer/") {
      if Contains(p, "/startseite/") {
        p := ReplaceAll(p, "/startseite/", "/teilnehmer/");
      } else if Contains(p, "/plus/") {
        p := ReplaceAll(p, "/plus/", "/teilnehmer/");
      } else if Contains(p, "/pokalwettbewerb/") && !Contains(p, "/teilnehmer/pokalwettbewerb/") {
        p := ReplaceAll(p, "/pokalwettbewerb/", "/teilnehmer/pokalwettbewerb/");
      }
    }
  }

  lemma PlusAppended(s: string)
    ensures Contains(s + "/plus/", "/plus/")
  {
    assert OccursAt(s + "/plus/", "/plus/", |s|);
  }

  // ---------------------------------------------------------------------
  // Competition page: club links
  // ---------------------------------------------------------------------

  /** What a competition page offers as club links: the links of the items
      table, the start-page links found in the club tooltips, and the club
      ids of the grid view keys. */
  datatype LinkSources = LinkSources(table: seq<string>, tooltip: seq<string>, gridIds: seq<string>)

  /** The club links used: the table links, else the tooltip links, else a
      placeholder start-page href per grid id. */
  function ClubLinks(src: LinkSources): (r: seq<string>)
    ensures src.table != [] ==> r == src.table
    ensures src.table == [] && src.tooltip != [] ==> r == src.tooltip
    ensures src.table == [] && src.tooltip == [] ==>
      |r| == |src.gridIds| && forall i :: 0 <= i < |r| ==> r[i] == "/dummy-slug/startseite/verein/" + src.gridIds[i]
  {
    if src.table != [] then src.table
    else if src.tooltip != [] then src.tooltip
    else seq(|src.gridIds|, i requires 0 <= i < |src.gridIds| => "/dummy-slug/startseite/verein/" + src.gridIds[i])
  }

  /** Each link normalised on its own. */
  function NormalizeEach(links: seq<string>): (r: seq<Result<string>>)
    ensures |r| == |links| && forall i :: 0 <= i < |links| ==> r[i] == NormalizeHref(links[i])
  {
    seq(|links|, i requires 0 <= i < |links| => NormalizeHref(links[i]))
  }

  /** A club href worth a request: non-empty, not seen before, holding a
      club id. */
  predicate Requestable(h: string, seen: set<string>) {
    h != [] && h !in seen && ClubId(h).Some?
  }

  /** The deduplication loop of `parse` over the normalised links, given
      the hrefs seen before: empty and already seen hrefs skipped, hrefs
      without a club id remembered but not requested; the first link that
      could not be normalised ends the generator with its error. */
  function Dedup(hs: seq<Result<string>>, seen: set<string>): (r: Yielded<string>)
    ensures forall i :: 0 <= i < |r.items| ==> Requestable(r.items[i], seen)
    ensures |r.items| <= |hs|
    decreases |hs|
  {
    if hs == [] then Yielded([], None)
    else
      match hs[0]
      case Err(e) => Yielded([], Some(e))
      case Ok(h) =>
        var rest :=
          if h == [] || h in seen then Dedup(hs[1..], seen)
          else
            var after := Dedup(hs[1..], seen + {h});
            if ClubId(h).None? then after
            else Yielded([h] + after.items, after.failure);
        assert forall k :: 1 <= k < |hs| ==> hs[k] == hs[1..][k - 1];
        rest
  }

  /** The deduplication from link `i` on, one link unfolded. */
  lemma DedupAt(hs: seq<Result<string>>, i: nat, seen: set<string>)
    requires i < |hs|
    ensures Dedup(hs[i..], seen) ==
      if hs[i].Err? then Yielded([], Some(hs[i].error))
      else
        var h := hs[i].value;
        if h == [] || h in seen then Dedup(hs[i + 1..], seen)
        else if ClubId(h).None? then Dedup(hs[i + 1..], seen + {h})
        else Yielded([h] + Dedup(hs[i + 1..], seen + {h}).items, Dedup(hs[i + 1..], seen + {h}).failure)
  {
    assert hs[i..][0] == hs[i] && hs[i..][1..] == hs[i + 1..];
  }

  /** The club hrefs requested from the links of a competition page. */
  function ClubHrefs(links: seq<string>): Yielded<string> {
    Dedup(NormalizeEach(links), {})
  }

  predicate Distinct(s: seq<string>) {
    forall i, j :: 0 <= i < j < |s| ==> s[i] != s[j]
  }

  /** No club is requested twice. */
  lemma {:induction false} DedupDistinct(hs: seq<Result<string>>, seen: set<string>)
    ensures Distinct(Dedup(hs, seen).items)
    decreases |hs|
  {
    if hs != [] && hs[0].Ok? {
      var h := hs[0].value;
      if h == [] || h in seen {
        DedupDistinct(hs[1..], seen);
      } else {
        var rest := Dedup(hs[1..], seen + {h}).items;
        DedupDistinct(hs[1..], seen + {h});
        if ClubId(h).None? {
          assert Dedup(hs, seen).items == rest;
        } else {
          assert forall i :: 0 <= i < |rest| ==> rest[i] != h by {
            forall i | 0 <= i < |rest| ensures rest[i] != h {
              assert Requestable(rest[i], seen + {h});
            }
          }
          DistinctCons(h, rest);
          assert Dedup(hs, seen).items == [h] + rest;
        }
      }
    }
  }

  /** An href put in front of distinct hrefs that differ from it keeps them
      distinct. */
  lemma DistinctCons(h: string, rest: seq<string>)
    requires Distinct(rest) && forall i :: 0 <= i < |rest| ==> rest[i] != h
    ensures Distinct([h] + rest)
  {
    var r := [h] + rest;
    forall i, j | 0 <= i < j < |r| ensures r[i] != r[j] {
      assert r[j] == rest[j - 1];
      if i > 0 {
        assert r[i] == rest[i - 1];
      }
    }
  }

  /** Every new, non-empty href with a club id is requested, unless an
      earlier link ended the generator. */
  lemma {:induction false} DedupComplete(hs: seq<Result<string>>, seen: set<string>, k: nat)
    requires k < |hs| && Dedup(hs, seen).failure.None?
    ensures hs[k].Ok?
    ensures Requestable(hs[k].value, seen) ==> hs[k].value in Dedup(hs, seen).items
    decreases |hs|
  {
    var h := hs[0].value;
    var seen' := if h == [] || h in seen then seen else seen + {h};
    var items := Dedup(hs, seen).items;
    var rest := Dedup(hs[1..], seen');
    assert Dedup(hs, seen).failure == rest.failure;
    assert items == rest.items || items == [h] + rest.items;
    if k == 0 {
      assert Requestable(h, seen) ==> items == [h] + rest.items;
    } else {
      assert hs[1..][k - 1] == hs[k];
      DedupComplete(hs[1..], seen', k - 1);
      var hk := hs[k].value;
      if Requestable(hk, seen) && hk != h {
        assert Requestable(hk, seen');
      }
      if Requestable(hk, seen) && hk == h {
        assert items == [h] + rest.items;
      }
    }
  }

  /** The slug-less or slugged roster path of a club href. */
  function RosterPath(href: string): string
    requires ClubId(href).Some?
  {
    var id := ClubId(href).value;
    var slug := Slug(href);
    var tail := "/kader/verein/" + id + "/plus/1";
    if slug.Some? && slug.value != [] then "/" + slug.value + tail else tail
  }

  /** The roster path ends with the club id's roster tail, and starts with
      the slug when the href has a non-empty one. */
  lemma RosterPathSpec(href: string)
    requires ClubId(href).Some?
    ensures EndsWith(RosterPath(href), "/kader/verein/" + ClubId(href).value + "/plus/1")
    ensures Slug(href).Some? && Slug(href).value != [] ==>
      StartsWith(RosterPath(href), "/" + Slug(href).value + "/kader/")
    ensures Slug(href).None? ==> RosterPath(href) == "/kader/verein/" + ClubId(href).value + "/plus/1"
  {
    var r := RosterPath(href);
    var tail := "/kader/verein/" + ClubId(href).value + "/plus/1";
    var slug := Slug(href);
    if slug.Some? && slug.value != [] {
      assert r[|r| - |tail|..] == tail;
      assert r[..|slug.value| + 8] == "/" + slug.value + "/kader/";
    }
  }

  /** A club start page `/<slug>/startseite/verein/<id>` is followed to
      `/<slug>/kader/verein/<id>/plus/1`. */
  lemma RosterPathOfStartPage(g: string, d: string, t: string)
    requires SlugShape("/" + g + StartseiteVerein + d + t, g, d, t)
    ensures var h := "/" + g + StartseiteVerein + d + t;
      ClubId(h) == Some(d) && RosterPath(h) == "/" + g + "/kader/verein/" + d + "/plus/1"
  {
    var p := "/" + g + "/startseite";
    var h := "/" + g + StartseiteVerein + d + t;
    SlugOf(h, g, d, t);
    StartPageClubId(g, d, t);
    assert "/" + g + ("/kader/verein/" + d + "/plus/1") == "/" + g + "/kader/verein/" + d + "/plus/1";
  }

  lemma StartPageClubId(g: string, d: string, t: string)
    requires SlugShape("/" + g + StartseiteVerein + d + t, g, d, t)
    ensures ClubId("/" + g + StartseiteVerein + d + t) == Some(d)
  {
    var p := "/" + g + "/startseite";
    var h := "/" + g + StartseiteVerein + d + t;
    assert h == p + "/verein/" + d + t;
    forall i | 0 <= i < |p| ensures !VereinAt(p + "/verein/" + d + t, i) {
      NoVereinInSlugHead(g, d, t, i);
    }
    ClubIdOf(p, d, t);
  }

  lemma NoVereinInSlugHead(g: string, d: string, t: string, i: int)
    requires g != [] && '/' !in g
    requires 0 <= i < |g| + 12
    ensures !VereinAt("/" + g + StartseiteVerein + d + t, i)
  {
    var h := "/" + g + StartseiteVerein + d + t;
    assert forall j :: 1 <= j <= |g| ==> h[j] == g[j - 1];
    assert forall j :: |g| + 1 <= j < |g| + 20 ==> h[j] == StartseiteVerein[j - |g| - 1];
    NoVereinBefore(h, g, i);
  }

  /** `/verein/` does not start within `/<slug>/startseite` when the slug
      has no slash. */
  lemma NoVereinBefore(h: string, g: string, i: int)
    requires g != [] && '/' !in g
    requires |h| >= |g| + 20
    requires forall j :: 1 <= j <= |g| ==> h[j] == g[j - 1]
    requires forall j :: |g| + 1 <= j < |g| + 20 ==> h[j] == StartseiteVerein[j - |g| - 1]
    requires 0 <= i < |g| + 12
    ensures !VereinAt(h, i)
  {
    if i == 0 {
      if |g| >= 7 {
        assert h[7] == g[6] != '/';
      } else if |g| == 6 {
        assert h[8] == 's';
      } else {
        assert h[|g| + 1] == '/' != "/verein/"[|g| + 1];
      }
    } else if i <= |g| {
      assert h[i] == g[i - 1] != '/';
    } else if i == |g| + 1 {
      assert h[i + 1] == 's';
    } else {
      assert h[i] == StartseiteVerein[i - |g| - 1] != '/';
    }
  }

  /** The request for a club href: its roster page, with the href as the
      callback base. */
  function ClubRequest(href: string, baseUrl: string): (r: Request)
    requires ClubId(href).Some?
    ensures r.url == baseUrl + RosterPath(href)
    ensures r.context.Keys == {"type", "href"} && r.context["type"] == Str("club") && r.context["href"] == Str(href)
  {
    Request(baseUrl + RosterPath(href), map["type" := Str("club"), "href" := Str(href)])
  }

  // ---------------------------------------------------------------------
  // Club page: players table
  // ---------------------------------------------------------------------

  /** One row of the players table as the selectors return it: the
      profile link, the number of cells, and the texts of its cells (the
      last eight read from the end of the row). */
  datatype PlayerRow = PlayerRow(
    link: Option<string>, cellCount: nat,
    number: Option<string>, name: Option<string>, position: Option<string>,
    dobAge: Option<string>, nationalities: seq<Option<string>>,
    height: Option<string>, foot: Option<string>, joined: Option<string>,
    signedFromHref: Option<string>, signedFromName: Option<string>,
    contractExpires: Option<string>, marketValue: Option<string>)

  /** The player id of a row: None when the row has no profile link, has
      fewer than ten cells, or its link holds no `/spieler/<digits>`. */
  function RowId(row: PlayerRow): Option<nat> {
    if row.link.None? || row.link.value == [] || row.cellCount < 10 then None
    else
      match PlayerId(row.link.value)
      case None => None
      case Some(d) => Some(DigitsValue(d))
  }

  /** The player id of each row. */
  function RowIds(rows: seq<PlayerRow>): (r: seq<Option<nat>>)
    ensures |r| == |rows| && forall i :: 0 <= i < |rows| ==> r[i] == RowId(rows[i])
  {
    seq(|rows|, i requires 0 <= i < |rows| => RowId(rows[i]))
  }

  /** The indices of the rows kept, from row `i` on, given the ids seen
      before: rows with an id not seen yet, each id kept once. */
  function KeptRows(ids: seq<Option<nat>>, i: nat, seen: set<nat>): (r: seq<nat>)
    requires i <= |ids|
    ensures forall n :: 0 <= n < |r| ==> i <= r[n] < |ids| && ids[r[n]].Some? && ids[r[n]].value !in seen
    ensures forall n, m :: 0 <= n < m < |r| ==> r[n] < r[m]
    decreases |ids| - i
  {
    if i == |ids| then []
    else if ids[i].None? || ids[i].value in seen then KeptRows(ids, i + 1, seen)
    else [i] + KeptRows(ids, i + 1, seen + {ids[i].value})
  }

  /** The rows at `r` have pairwise different ids. */
  predicate DistinctIds(ids: seq<Option<nat>>, r: seq<nat>)
    requires forall n :: 0 <= n < |r| ==> r[n] < |ids|
  {
    forall n, m :: 0 <= n < m < |r| ==> ids[r[n]] != ids[r[m]]
  }

  /** No player id is kept twice. */
  lemma {:induction false} KeptRowsDistinct(ids: seq<Option<nat>>, i: nat, seen: set<nat>)
    requires i <= |ids|
    ensures DistinctIds(ids, KeptRows(ids, i, seen))
    decreases |ids| - i
  {
    if i < |ids| {
      if ids[i].None? || ids[i].value in seen {
        assert KeptRows(ids, i, seen) == KeptRows(ids, i + 1, seen);
        KeptRowsDistinct(ids, i + 1, seen);
      } else {
        var rest := KeptRows(ids, i + 1, seen + {ids[i].value});
        KeptRowsDistinct(ids, i + 1, seen + {ids[i].value});
        var r := [i] + rest;
        assert KeptRows(ids, i, seen) == r;
        forall n, m | 0 <= n < m < |r| ensures ids[r[n]] != ids[r[m]] {
          assert r[m] == rest[m - 1];
          assert ids[rest[m - 1]].Some? && ids[rest[m - 1]].value !in seen + {ids[i].value};
          if n > 0 {
            assert r[n] == rest[n - 1];
          }
        }
      }
    }
  }

  /** The ids of the readable rows before row `i`. */
  function SeenBefore(ids: seq<Option<nat>>, i: nat): set<nat>
    requires i <= |ids|
  {
    set k | 0 <= k < i && ids[k].Some? :: ids[k].value
  }

  /** The first readable row of each player id is kept, and no other row:
      a row is kept exactly when it is readable and no earlier row has its
      id. */
  lemma {:induction false} KeptRowsFirst(ids: seq<Option<nat>>, i: nat, j: nat)
    requires i <= |ids|
    ensures j in KeptRows(ids, i, SeenBefore(ids, i)) <==>
      i <= j < |ids| && ids[j].Some? && forall k :: 0 <= k < j ==> ids[k] != ids[j]
    decreases |ids| - i
  {
    if i < |ids| {
      var seen := SeenBefore(ids, i);
      var next := SeenBefore(ids, i + 1);
      SeenBeforeNext(ids, i);
      var later := KeptRows(ids, i + 1, next);
      var isNew := ids[i].Some? && ids[i].value !in seen;
      assert KeptRows(ids, i, seen) == (if isNew then [i] else []) + later by {
        if !isNew {
          assert next == seen;
        } else {
          assert next == seen + {ids[i].value};
        }
      }
      KeptRowsFirst(ids, i + 1, j);
      if j == i {
        assert i !in later;
        if ids[i].Some? {
          SeenBeforeHas(ids, i, ids[i].value);
        }
      } else {
        assert j in KeptRows(ids, i, seen) <==> j in later;
      }
    }
  }

  /** An id is among those seen before row `i` exactly when an earlier row
      has it. */
  lemma SeenBeforeHas(ids: seq<Option<nat>>, i: nat, id: nat)
    requires i <= |ids|
    ensures id in SeenBefore(ids, i) <==> exists k :: 0 <= k < i && ids[k] == Some(id)
  {
    if id in SeenBefore(ids, i) {
      var k :| 0 <= k < i && ids[k].Some? && ids[k].value == id;
    }
  }

  lemma SeenBeforeNext(ids: seq<Option<nat>>, i: nat)
    requires i < |ids|
    ensures SeenBefore(ids, i + 1) == SeenBefore(ids, i) + (if ids[i].Some? then {ids[i].value} else {})
  {
  }

  /** The nationality titles kept: each safely stripped, the empty ones
      left out, in order. */
  function NationalityParts(titles: seq<Option<string>>): seq<string>
  {
    Outputs(titles, TitlePart)
  }

  /** What one title contributes: its stripped text, unless that is
      missing or empty. */
  function TitlePart(title: Option<string>): (r: Result<Option<string>>)
    ensures r.Ok?
    ensures r.value.Some? ==> r.value.value != [] && IsStripped(r.value.value)
    ensures title.Some? && Strip(title.value) != [] ==> r == Ok(Some(Strip(title.value)))
  {
    var t := SafeStrip(title);
    Ok(if t.Some? && t.value != [] then Some(t.value) else None)
  }

  /** Every part kept is a non-empty stripped title. */
  lemma NationalityPartsKept(titles: seq<Option<string>>)
    ensures forall n :: 0 <= n < |NationalityParts(titles)| ==>
      NationalityParts(titles)[n] != [] && IsStripped(NationalityParts(titles)[n])
  {
    CollectSpec(titles, TitlePart);
    forall n | 0 <= n < |NationalityParts(titles)|
      ensures NationalityParts(titles)[n] != [] && IsStripped(NationalityParts(titles)[n])
    {
      CollectSound(titles, TitlePart, n);
    }
  }

  /** When no title is missing or blank, the parts are all the titles,
      stripped, in order. */
  lemma NationalityPartsAll(titles: seq<Option<string>>)
    requires forall n :: 0 <= n < |titles| ==> titles[n].Some? && Strip(titles[n].value) != []
    ensures |NationalityParts(titles)| == |titles|
    ensures forall n :: 0 <= n < |titles| ==> NationalityParts(titles)[n] == Strip(titles[n].value)
  {
    CollectSpec(titles, TitlePart);
    CollectEach(titles, TitlePart);
  }

  /** Joining non-empty parts gives an empty text only for no parts. */
  lemma {:induction false} JoinNonEmpty(parts: seq<string>, sep: string)
    requires forall n :: 0 <= n < |parts| ==> parts[n] != []
    ensures Join(parts, sep) == [] <==> parts == []
    decreases |parts|
  {
    if |parts| > 1 {
      JoinNonEmpty(parts[1..], sep);
    }
  }

  /** The nationalities joined with `, `, None when no title is left. */
  function Nationality(titles: seq<Option<string>>): (v: Value)
    ensures v == Null <==> NationalityParts(titles) == []
    ensures v != Null ==> v == Str(Join(NationalityParts(titles), ", "))
  {
    var parts := NationalityParts(titles);
    NationalityPartsKept(titles);
    JoinNonEmpty(parts, ", ");
    var joined := Join(parts, ", ");
    if joined == [] then Null else Str(joined)
  }

  /** The shirt number: None for a missing, empty or `-` number. */
  function NumberValue(number: Option<string>): (v: Value)
    ensures v == Null <==> number.None? || Strip(number.value) == [] || Strip(number.value) == "-"
    ensures v != Null ==> v == Str(Strip(number.value))
  {
    var n := SafeStrip(number);
    if n.Some? && n.value != [] && n.value != "-" then Str(n.value)
    else
      assert n.Some? && n.value == [] ==> number.value == [] || Strip(number.value) == [];
      Null
  }

  /** A text with no `c` up to `k`. */
  lemma NoCharBefore(s: string, c: char, k: int)
    requires 0 <= k <= |s|
    requires forall j :: 0 <= j < k ==> !OccursAt(s, [c], j)
    ensures c !in s[..k]
  {
    forall j | 0 <= j < k ensures s[j] != c {
      assert !OccursAt(s, [c], j);
      assert s[j..j + 1] == [s[j]];
    }
  }

  /** Date of birth and age from the `date (age)` cell: the stripped text
      before the first `(`, and the integer after it with trailing `)`
      removed when that is all digits. An empty cell gives neither. */
  function DobAge(text: Option<string>): (r: (Value, Value))
    ensures text.None? || Strip(text.value) == [] ==> r == (Null, Null)
    ensures r.0 == Null ==> r.1 == Null
    ensures r.0 != Null ==> r.0.Str? && IsStripped(r.0.s) && '(' !in r.0.s
    ensures r.1 != Null ==> r.1.Int? && r.1.i >= 0
  {
    var da := SafeStrip(text);
    if da.Some? && da.value != [] then
      var (dob, rest) := Partition(da.value, "(");
      DateHasNoParen(da.value);
      var digits := RStripChar(rest, ')');
      (Str(Strip(dob)), if IsDecimal(digits) then Int(DigitsValue(digits)) else Null)
    else (Null, Null)
  }

  /** The stripped text before the first `(` holds no `(`. */
  lemma DateHasNoParen(s: string)
    ensures '(' !in Strip(Partition(s, "(").0)
  {
    var dob := Partition(s, "(").0;
    assert '(' !in dob by {
      FindSpec(s, "(");
      if Find(s, "(") >= 0 {
        NoCharBefore(s, '(', Find(s, "("));
      } else {
        NoCharBefore(s, '(', |s|);
      }
    }
    StripKeepsOut(dob, '(');
  }

  /** `date (age)` gives the stripped date and the age. */
  lemma DobAgeOf(date: string, age: string)
    requires '(' !in date && IsStripped(date) && date != [] && IsDecimal(age)
    ensures DobAge(Some(date + " (" + age + ")")) == (Str(date), Int(DigitsValue(age)))
  {
    var s := date + " (" + age + ")";
    assert s[0] == date[0] && s[|s| - 1] == ')';
    DobAgeOfStripped(s);
    PartitionDobAge(date, age);
    StripOfPaddedRightSpace(date);
    assert RStripChar(age + ")", ')') == age by {
      assert IsDigit(age[|age| - 1]);
      RStripCharOne(age, ')');
    }
  }

  /** A stripped non-empty cell is split at its first parenthesis. */
  lemma DobAgeOfStripped(s: string)
    requires s != [] && IsStripped(s)
    ensures DobAge(Some(s)).0 == Str(Strip(Partition(s, "(").0))
    ensures DobAge(Some(s)).1 ==
      if IsDecimal(RStripChar(Partition(s, "(").1, ')'))
      then Int(DigitsValue(RStripChar(Partition(s, "(").1, ')'))) else Null
  {
    StripStripped(s);
    assert SafeStrip(Some(s)) == Some(s);
  }

  /** The cell splits at the parenthesis that follows the date. */
  lemma PartitionDobAge(date: string, age: string)
    requires '(' !in date
    ensures Partition(date + " (" + age + ")", "(") == (date + " ", age + ")")
  {
    var s := date + " (" + age + ")";
    assert s[|date| + 1..|date| + 2] == "(";
    assert OccursAt(s, "(", |date| + 1);
    FindSpec(s, "(");
    forall j | 0 <= j < |date| + 1 ensures !OccursAt(s, "(", j) {
      assert s[j..j + 1] == [s[j]];
      if j < |date| { assert s[j] == date[j]; }
    }
    assert Find(s, "(") == |date| + 1;
    assert s[..|date| + 1] == date + " ";
    assert s[|date| + 2..] == age + ")";
  }

  lemma StripOfPaddedRightSpace(date: string)
    requires date != [] && IsStripped(date)
    ensures Strip(date + " ") == date
  {
    StripOfPadded([], date, " ");
    assert [] + date + " " == date + " ";
  }

  /** A player row's fields. */
  datatype PlayerStub = PlayerStub(
    playerId: nat, href: string, number: Value, name: Value, position: Value,
    dateOfBirth: Value, age: Value, nationality: Value, height: Value, foot: Value,
    joined: Value, signedFromHref: Value, signedFromName: Value,
    contractExpires: Value, marketValue: Value)

  const PlayerIdentityKeys: set<string> := {
    "player_id", "href", "number", "name", "position", "date_of_birth", "age", "nationality"
  }

  const PlayerCareerKeys: set<string> := {
    "height", "foot", "joined", "signed_from_href", "signed_from_name", "contract_expires", "market_value"
  }

  const PlayerKeys: set<string> := PlayerCareerKeys + PlayerIdentityKeys

  /** The player dictionary, one key per field. */
  function PlayerFields(p: PlayerStub): (r: Record)
    ensures r.Keys == PlayerKeys
    ensures r["player_id"] == Int(p.playerId) && r["href"] == Str(p.href)
    ensures r["number"] == p.number && r["date_of_birth"] == p.dateOfBirth && r["age"] == p.age
    ensures r["nationality"] == p.nationality
  {
    Merge(PlayerCareerFields(p), PlayerIdentityFields(p))
  }

  /** The player's id, link, shirt number, name, position, birth date, age
      and nationality. */
  function PlayerIdentityFields(p: PlayerStub): (r: Record)
    ensures r.Keys == PlayerIdentityKeys
    ensures r["player_id"] == Int(p.playerId) && r["href"] == Str(p.href)
    ensures r["number"] == p.number && r["date_of_birth"] == p.dateOfBirth && r["age"] == p.age
    ensures r["nationality"] == p.nationality
  {
    map[
      "player_id" := Int(p.playerId),
      "href" := Str(p.href),
      "number" := p.number,
      "name" := p.name,
      "position" := p.position,
      "date_of_birth" := p.dateOfBirth,
      "age" := p.age,
      "nationality" := p.nationality
    ]
  }

  /** The player's height, foot, transfer and contract fields and market
      value. */
  function PlayerCareerFields(p: PlayerStub): (r: Record)
    ensures r.Keys == PlayerCareerKeys
  {
    map[
      "height" := p.height,
      "foot" := p.foot,
      "joined" := p.joined,
      "signed_from_href" := p.signedFromHref,
      "signed_from_name" := p.signedFromName,
      "contract_expires" := p.contractExpires,
      "market_value" := p.marketValue
    ]
  }

  /** `parse_player_row` for a kept row with id `pid`. */
  function PlayerOf(row: PlayerRow, pid: nat): (p: PlayerStub)
    requires row.link.Some?
  {
    var (dob, age) := DobAge(row.dobAge);
    PlayerStub(
      pid, row.link.value, NumberValue(row.number), OptStr(SafeStrip(row.name)),
      OptStr(SafeStrip(row.position)), dob, age, Nationality(row.nationalities),
      OptStr(SafeStrip(row.height)), OptStr(SafeStrip(row.foot)), OptStr(SafeStrip(row.joined)),
      OptStr(row.signedFromHref), OptStr(SafeStrip(row.signedFromName)),
      OptStr(SafeStrip(row.contractExpires)), OptStr(SafeStrip(row.marketValue)))
  }

  /** What `parse_player_row` reads from each cell of a kept row. */
  lemma PlayerOfSpec(row: PlayerRow, pid: nat)
    requires row.link.Some?
    ensures var p := PlayerOf(row, pid);
      && p.playerId == pid && p.href == row.link.value
      && p.number == NumberValue(row.number)
      && (p.dateOfBirth, p.age) == DobAge(row.dobAge)
      && p.nationality == Nationality(row.nationalities)
      && p.name == OptStr(SafeStrip(row.name)) && p.marketValue == OptStr(SafeStrip(row.marketValue))
      && p.signedFromHref == OptStr(row.signedFromHref)
  {
  }

  /** The player dictionaries, in order. */
  function PlayerValues(players: seq<PlayerStub>): (r: seq<Value>)
    ensures |r| == |players| && forall n :: 0 <= n < |players| ==> r[n] == Dict(PlayerFields(players[n]))
  {
    seq(|players|, n requires 0 <= n < |players| => Dict(PlayerFields(players[n])))
  }

  /** The players of the kept rows, in row order. */
  function Players(rows: seq<PlayerRow>, kept: seq<nat>): (r: seq<PlayerStub>)
    requires forall n :: 0 <= n < |kept| ==> kept[n] < |rows| && RowId(rows[kept[n]]).Some?
    ensures |r| == |kept|
  {
    if kept == [] then []
    else
      assert forall n :: 0 <= n < |kept| - 1 ==> kept[1..][n] == kept[n + 1];
      [PlayerOf(rows[kept[0]], RowId(rows[kept[0]]).value)] + Players(rows, kept[1..])
  }

  /** A kept row in front adds its player in front. */
  lemma PlayersCons(rows: seq<PlayerRow>, i: nat, kept: seq<nat>)
    requires forall n :: 0 <= n < |kept| ==> kept[n] < |rows| && RowId(rows[kept[n]]).Some?
    requires i < |rows| && RowId(rows[i]).Some?
    ensures Players(rows, [i] + kept) == [PlayerOf(rows[i], RowId(rows[i]).value)] + Players(rows, kept)
  {
    assert ([i] + kept)[1..] == kept;
  }

  /** The players of the rows kept from row `i` on, given the ids seen
      before it. */
  function KeptPlayers(rows: seq<PlayerRow>, i: nat, seen: set<nat>): (r: seq<PlayerStub>)
    requires i <= |rows|
  {
    var ids := RowIds(rows);
    var kept := KeptRows(ids, i, seen);
    assert forall n :: 0 <= n < |kept| ==> ids[kept[n]] == RowId(rows[kept[n]]);
    Players(rows, kept)
  }

  /** One row of the players loop: a readable row with a new id adds its
      player and its id; any other row adds nothing. */
  lemma KeptPlayersStep(rows: seq<PlayerRow>, i: nat, seen: set<nat>)
    requires i < |rows|
    ensures var pid := RowId(rows[i]);
      KeptPlayers(rows, i, seen) ==
        if pid.Some? && pid.value !in seen
        then [PlayerOf(rows[i], pid.value)] + KeptPlayers(rows, i + 1, seen + {pid.value})
        else KeptPlayers(rows, i + 1, seen)
  {
    var ids := RowIds(rows);
    var pid := RowId(rows[i]);
    assert ids[i] == pid;
    if pid.Some? && pid.value !in seen {
      var later := KeptRows(ids, i + 1, seen + {pid.value});
      assert KeptRows(ids, i, seen) == [i] + later;
      assert forall n :: 0 <= n < |later| ==> ids[later[n]] == RowId(rows[later[n]]);
      PlayersCons(rows, i, later);
    } else {
      assert KeptRows(ids, i, seen) == KeptRows(ids, i + 1, seen);
    }
  }

  /** The players loop keeps its invariant over one row. */
  lemma KeptPlayersAdvance(rows: seq<PlayerRow>, i: nat, seen: set<nat>, players: seq<PlayerStub>)
    requires i < |rows| && KeptPlayers(rows, 0, {}) == players + KeptPlayers(rows, i, seen)
    ensures RowId(rows[i]).Some? && RowId(rows[i]).value !in seen ==>
      KeptPlayers(rows, 0, {}) ==
        (players + [PlayerOf(rows[i], RowId(rows[i]).value)]) + KeptPlayers(rows, i + 1, seen + {RowId(rows[i]).value})
    ensures !(RowId(rows[i]).Some? && RowId(rows[i]).value !in seen) ==>
      KeptPlayers(rows, 0, {}) == players + KeptPlayers(rows, i + 1, seen)
  {
    KeptPlayersStep(rows, i, seen);
    var pid := RowId(rows[i]);
    if pid.Some? && pid.value !in seen {
      SnocThenRest(players, PlayerOf(rows[i], pid.value), KeptPlayers(rows, i + 1, seen + {pid.value}));
    }
  }

  /** The players list: each readable row whose id is new, in row order. */
  method ParsePlayers(rows: seq<PlayerRow>) returns (players: seq<PlayerStub>)
    ensures players == KeptPlayers(rows, 0, {})
  {
    players := [];
    var seen: set<nat> := {};
    var i := 0;
    while i < |rows|
      invariant 0 <= i <= |rows|
      invariant KeptPlayers(rows, 0, {}) == players + KeptPlayers(rows, i, seen)
    {
      var row := rows[i];
      var pid := RowId(row);
      KeptPlayersAdvance(rows, i, seen, players);
      if pid.Some? && pid.value !in seen {
        seen := seen + {pid.value};
        players := players + [PlayerOf(row, pid.value)];
      }
      i := i + 1;
    }
    assert KeptPlayers(rows, i, seen) == [];
  }

  // ---------------------------------------------------------------------
  // Club page: the club record
  // ---------------------------------------------------------------------

  /** Where the code comes from: the canonical link when there is one,
      else the base href (KeyError when the base has none). */
  function CodeHref(canonical: Option<string>, base: Record): (r: Result<string>)
    ensures canonical.Some? && canonical.value != [] ==> r == Ok(canonical.value)
    ensures canonical.None? || canonical.value == [] ==> r == HrefOf(base)
  {
    if canonical.Some? && canonical.value != [] then Ok(canonical.value) else HrefOf(base)
  }

  /** The club record: the base, the stripped page attributes over it, the
      players over both, and no `parent`. */
  function ClubItem(base: Record, attributes: Record, players: seq<Value>): (r: Record)
    ensures "parent" !in r
    ensures r.Keys == (base.Keys + attributes.Keys + {"players"}) - {"parent"}
    ensures r["players"] == List(players)
    ensures forall k :: k in attributes && k != "players" && k != "parent" ==> r[k] == attributes[k]
    ensures forall k :: k in base && k !in attributes && k != "players" && k != "parent" ==> r[k] == base[k]
  {
    Pop(Merge(Merge(base, attributes), map["players" := List(players)]), "parent")
  }

  /** The club code: the decoded first path segment of the canonical link
      when the page has one, else of the base href. */
  function ClubCode(canonical: Option<string>, base: Record, unquote: string -> string): (r: Result<string>)
    ensures canonical.Some? && canonical.value != [] ==> r == PathCode(canonical.value, unquote)
    ensures canonical.None? || canonical.value == [] ==>
      && (HrefOf(base).Err? ==> r == Err(HrefOf(base).error))
      && (HrefOf(base).Ok? ==> r == PathCode(HrefOf(base).value, unquote))
  {
    var href :- CodeHref(canonical, base);
    PathCode(href, unquote)
  }

  /** What `parse_details` gives: the error of the club code, or the club
      record with stripped attributes and the players of the kept rows. */
  function ClubDetails(page: ClubPage, canonical: Option<string>, rows: seq<PlayerRow>, base: Record,
                       unquote: string -> string): Result<Record>
  {
    var code :- ClubCode(canonical, base, unquote);
    Ok(ClubRecord(page, base, code, PlayerValues(KeptPlayers(rows, 0, {}))))
  }

  /** The club record of a page with its code: the stripped page
      attributes over the base, and the players. */
  function ClubRecord(page: ClubPage, base: Record, code: string, players: seq<Value>): Record {
    ClubItem(base, StripAll(Fields(PageAttributes(page, code))), players)
  }

  /** `parse_details` of the clubs-by-URL spider. */
  method ParseDetails(page: ClubPage, canonical: Option<string>, rows: seq<PlayerRow>, base: Record,
                      unquote: string -> string) returns (r: Result<Record>)
    ensures ClubCode(canonical, base, unquote).Err? ==> r == Err(ClubCode(canonical, base, unquote).error)
    ensures r == ClubDetails(page, canonical, rows, base, unquote)
  {
    var code := ClubCode(canonical, base, unquote);
    if code.Err? {
      return Err(code.error);
    }
    var attributes := Fields(PageAttributes(page, code.value));
    attributes := StripStrings(attributes);
    var players := ParsePlayers(rows);
    r := Ok(ClubItem(base, attributes, PlayerValues(players)));
  }

  /** The club record keeps every attribute as given, and the players. */
  lemma ClubItemKeeps(base: Record, attrs: Record, players: seq<Value>)
    requires attrs.Keys == AttributeKeys
    ensures "parent" !in ClubItem(base, attrs, players)
    ensures "players" in ClubItem(base, attrs, players) && ClubItem(base, attrs, players)["players"] == List(players)
    ensures forall k :: k in AttributeKeys ==>
      k in ClubItem(base, attrs, players) && ClubItem(base, attrs, players)[k] == attrs[k]
  {
    assert "players" !in AttributeKeys && "parent" !in AttributeKeys;
    ClubItemOver(base, attrs, players);
  }

  /** Attributes named neither `players` nor `parent` keep their values in
      the club record. */
  lemma ClubItemOver(base: Record, attrs: Record, players: seq<Value>)
    requires "players" !in attrs && "parent" !in attrs
    ensures forall k :: k in attrs ==> k in ClubItem(base, attrs, players) && ClubItem(base, attrs, players)[k] == attrs[k]
  {
  }

  /** The emitted club record has no `parent`, every attribute string in it
      is stripped, its code is the stripped decoded segment, and its
      players are the parsed ones. */
  lemma ClubItemStripped(page: ClubPage, base: Record, code: string, players: seq<Value>)
    ensures StrippedClubRecord(ClubRecord(page, base, code, players), code, players)
  {
    var fields := Fields(PageAttributes(page, code));
    assert fields.Keys == AttributeKeys && fields["code"] == Str(code);
    StrippedItemOf(base, fields, code, players);
  }

  /** The club record built over stripped attributes is a stripped club
      record. */
  lemma StrippedItemOf(base: Record, fields: Record, code: string, players: seq<Value>)
    requires fields.Keys == AttributeKeys && fields["code"] == Str(code)
    ensures StrippedClubRecord(ClubItem(base, StripAll(fields), players), code, players)
  {
    var attrs := StripAll(fields);
    assert AllStripped(attrs) by {
      StripAllStrips(fields);
    }
    assert attrs["code"] == Str(Strip(code));
    ClubItemKeeps(base, attrs, players);
    StrippedRecordOf(ClubItem(base, attrs, players), attrs, code, players);
  }

  /** A record holding stripped attributes, `players` and no `parent`. */
  lemma StrippedRecordOf(rec: Record, attrs: Record, code: string, players: seq<Value>)
    requires AllStripped(attrs) && attrs.Keys == AttributeKeys && attrs["code"] == Str(Strip(code))
    requires "parent" !in rec && "players" in rec && rec["players"] == List(players)
    requires forall k :: k in AttributeKeys ==> k in rec && rec[k] == attrs[k]
    ensures StrippedClubRecord(rec, code, players)
  {
  }

  /** `rec` has no `parent`, every attribute string in it is stripped, its
      code is the stripped `code`, and its players are `players`. */
  predicate StrippedClubRecord(rec: Record, code: string, players: seq<Value>) {
    && "parent" !in rec
    && (forall k :: k in AttributeKeys ==> k in rec && (rec[k].Str? ==> IsStripped(rec[k].s)))
    && "code" in rec && rec["code"] == Str(Strip(code))
    && "players" in rec && rec["players"] == List(players)
  }

  /** The URL of an entrypoint, by what its href holds: KeyError without
      one; text is normalised and rewritten; any other truthy value has no
      `startswith` (AttributeError). A falsy href that is not text is kept
      as the path: the `in` tests on None, False, 0 and 0.0 raise
      TypeError, while an empty list or dictionary passes them, then has no
      `rstrip` on the league branch (AttributeError) and on the cup branch
      is spelled after the base URL, its season rewrite failing inside the
      `try` and being skipped. */
  function EntryUrl(baseUrl: string, kind: string, season: Option<int>, item: Record): (r: Result<string>)
    ensures "href" !in item ==> r == Err(KeyError("href"))
    ensures "href" in item && item["href"].Str? ==> r == CompetitionUrl(baseUrl, kind, season, item["href"].s)
    ensures "href" in item && !item["href"].Str? && Truthy(item["href"]) ==> r == Err(AttributeError)
    ensures "href" in item && item["href"] in {Null, Bool(false), Int(0), Real(0.0)} ==> r == Err(TypeError)
    ensures "href" in item && item["href"] == List([]) ==>
      r == (if kind == "cup" then Ok(baseUrl + "[]") else Err(AttributeError))
    ensures "href" in item && item["href"] == Dict(map[]) ==>
      r == (if kind == "cup" then Ok(baseUrl + "{}") else Err(AttributeError))
  {
    var v :- Index(item, "href");
    if v.Str? then CompetitionUrl(baseUrl, kind, season, v.s)
    else if Truthy(v) then Err(AttributeError)
    else if v.List? || v.Dict? then
      if kind == "cup" then Ok(baseUrl + (if v.List? then "[]" else "{}")) else Err(AttributeError)
    else Err(TypeError)
  }

  /** Only a text href, or an empty list or dictionary on a cup, gives a
      URL. */
  lemma EntryUrlBuilt(baseUrl: string, kind: string, season: Option<int>, item: Record)
    requires EntryUrl(baseUrl, kind, season, item).Ok?
    ensures "href" in item
    ensures item["href"].Str? || (kind == "cup" && item["href"] in {List([]), Dict(map[])})
  {
  }

  // ---------------------------------------------------------------------
  // The spider
  // ---------------------------------------------------------------------

  class ClubsByUrlSpider {
    var baseUrl: string
    var kind: string
    var season: Option<int>
    var inputCodes: seq<string>
    var inputHrefs: seq<string>
    var entrypoints: seq<Record>

    /** `__init__` once its own inputs are read and the base spider's
        initialisation has run. The base URL and the entrypoints are what
        the base leaves; the season is the parsed argument, unless the base
        assigns one of its own (`baseSeason`). */
    constructor (codes: Option<string>, hrefs: Option<string>, kindArg: Option<string>, parsedSeason: Option<int>,
                 baseUrlAfterBase: string, baseSeason: Option<Option<int>>, entrypointsAfterBase: seq<Record>)
      ensures inputCodes == InputList(codes) && inputHrefs == InputList(hrefs)
      ensures kind == KindOf(kindArg)
      ensures season == (if baseSeason.Some? then baseSeason.value else parsedSeason)
      ensures baseUrl == baseUrlAfterBase && entrypoints == entrypointsAfterBase
    {
      inputCodes := InputList(codes);
      inputHrefs := InputList(hrefs);
      kind := KindOf(kindArg);
      season := parsedSeason;
      baseUrl := baseUrlAfterBase;
      entrypoints := entrypointsAfterBase;
      if baseSeason.Some? {
        season := baseSeason.value;
      }
    }

    /** `__init__` from its arguments: a season that does not spell an
        integer raises ValueError before the base spider is initialised;
        otherwise the spider is built as the constructor builds it. */
    static method New(codes: Option<string>, hrefs: Option<string>, kindArg: Option<string>, seasonArg: Option<string>,
                      baseUrlAfterBase: string, baseSeason: Option<Option<int>>, entrypointsAfterBase: seq<Record>)
      returns (r: Result<ClubsByUrlSpider>)
      ensures r.Err? <==> SeasonArgument(seasonArg).Err?
      ensures r.Err? ==> r.error == SeasonArgument(seasonArg).error
      ensures r.Ok? ==>
        && fresh(r.value)
        && r.value.inputCodes == InputList(codes) && r.value.inputHrefs == InputList(hrefs)
        && r.value.kind == KindOf(kindArg)
        && r.value.season == (if baseSeason.Some? then baseSeason.value else SeasonArgument(seasonArg).value)
        && r.value.baseUrl == baseUrlAfterBase && r.value.entrypoints == entrypointsAfterBase
    {
      var parsed := SeasonArgument(seasonArg);
      if parsed.Err? {
        return Err(parsed.error);
      }
      var spider := new ClubsByUrlSpider(codes, hrefs, kindArg, parsed.value, baseUrlAfterBase, baseSeason,
                                         entrypointsAfterBase);
      r := Ok(spider);
    }

    /** `_build_competition_url`: the normalised href, its path rewritten,
        after the base URL. */
    method BuildCompetitionUrl(href: string) returns (r: Result<string>)
      ensures r == CompetitionUrl(baseUrl, kind, season, href)
    {
      var normalized := NormalizeHref(href);
      if normalized.Err? {
        return Err(normalized.error);
      }
      var path := RewritePath(normalized.value);
      r := Ok(baseUrl + path);
    }

    /** The path rewrite of `_build_competition_url`, step by step. */
    method RewritePath(normalized: string) returns (path: string)
      ensures path == CompetitionPath(kind, season, normalized)
    {
      path := normalized;
      if kind == "cup" || Contains(path, "/pokalwettbewerb/") {
        path := RewriteCupPath(path);
        if season.Some? && season.value != 0 {
          path := RStripChar(RemoveSaison(path), '/');
          path := path + SeasonSegment(season.value);
        }
      } else if !Contains(path, "/plus/") {
        path := RStripChar(path, '/') + "/plus/";
      }
    }

    /** `start_requests`: the entrypoints updated in place by the loop,
        each URL built as `_build_competition_url` builds it. */
    method StartRequests() returns (r: Result<seq<Request>>)
      modifies this
      ensures baseUrl == old(baseUrl) && kind == old(kind) && season == old(season)
      ensures inputCodes == old(inputCodes) && inputHrefs == old(inputHrefs)
      ensures var b, kd, sn := baseUrl, kind, season;
        var k := FirstUnbuilt(old(entrypoints), item => EntryUrl(b, kd, sn, item));
        && |entrypoints| == |old(entrypoints)|
        && (forall i :: 0 <= i < k ==>
              entrypoints[i] == WithSeasonedHref(old(entrypoints)[i], EntryUrl(baseUrl, kind, season, old(entrypoints)[i]).value))
        && (forall i :: k <= i < |entrypoints| ==> entrypoints[i] == old(entrypoints)[i])
        && (r.Ok? <==> k == |entrypoints|)
        && (r.Err? ==> r.error == EntryUrl(baseUrl, kind, season, old(entrypoints)[k]).error)
      ensures r.Ok? ==> |r.value| == |entrypoints| && forall i :: 0 <= i < |r.value| ==>
        r.value[i] == Request(EntryUrl(baseUrl, kind, season, old(entrypoints)[i]).value, map["parent" := Dict(entrypoints[i])])
    {
      var b, kd, sn := baseUrl, kind, season;
      var items, res := SeasonEntrypoints(entrypoints, item => EntryUrl(b, kd, sn, item));
      entrypoints := items;
      r := res;
    }

    /** `parse` of a competition page: one roster request per distinct
        normalised club href that holds a club id, in link order. */
    method Parse(src: LinkSources) returns (out: Yielded<Request>)
      ensures var spec := ClubHrefs(ClubLinks(src));
        && out.failure == spec.failure
        && |out.items| == |spec.items|
        && forall i :: 0 <= i < |out.items| ==> out.items[i] == ClubRequest(spec.items[i], baseUrl)
    {
      var links := ClubLinks(src);
      out := DedupRequests(NormalizeEach(links), baseUrl);
    }
  }

  /** The roster requests of club hrefs that hold a club id, in order. */
  function RequestsFor(hrefs: seq<string>, baseUrl: string): (r: seq<Request>)
    requires forall n :: 0 <= n < |hrefs| ==> ClubId(hrefs[n]).Some?
    ensures |r| == |hrefs| && forall n :: 0 <= n < |hrefs| ==> r[n] == ClubRequest(hrefs[n], baseUrl)
  {
    seq(|hrefs|, n requires 0 <= n < |hrefs| => ClubRequest(hrefs[n], baseUrl))
  }

  /** Requesting one more club href appends its request. */
  lemma RequestsForSnoc(hrefs: seq<string>, h: string, baseUrl: string)
    requires forall n :: 0 <= n < |hrefs| ==> ClubId(hrefs[n]).Some?
    requires ClubId(h).Some?
    ensures forall n :: 0 <= n < |hrefs + [h]| ==> ClubId((hrefs + [h])[n]).Some?
    ensures RequestsFor(hrefs + [h], baseUrl) == RequestsFor(hrefs, baseUrl) + [ClubRequest(h, baseUrl)]
  {
    assert forall n :: 0 <= n < |hrefs| ==> (hrefs + [h])[n] == hrefs[n];
  }

  /** The state of the dedup loop before link `i`: the hrefs requested so
      far followed by what the remaining links give is what all links
      give. */
  predicate DedupSoFar(hs: seq<Result<string>>, i: nat, seen: set<string>, hrefs: seq<string>)
    requires i <= |hs|
  {
    Dedup(hs, {}) == Yielded(hrefs + Dedup(hs[i..], seen).items, Dedup(hs[i..], seen).failure)
  }

  /** One link of the dedup loop keeps its state. */
  lemma DedupStep(hs: seq<Result<string>>, i: nat, seen: set<string>, hrefs: seq<string>)
    requires i < |hs| && DedupSoFar(hs, i, seen, hrefs)
    ensures hs[i].Err? ==> Dedup(hs, {}) == Yielded(hrefs, Some(hs[i].error))
    ensures hs[i].Ok? ==>
      var h := hs[i].value;
      if h == [] || h in seen then DedupSoFar(hs, i + 1, seen, hrefs)
      else if ClubId(h).None? then DedupSoFar(hs, i + 1, seen + {h}, hrefs)
      else DedupSoFar(hs, i + 1, seen + {h}, hrefs + [h])
  {
    DedupAt(hs, i, seen);
    var here := Dedup(hs[i..], seen);
    if hs[i].Ok? {
      var h := hs[i].value;
      if h != [] && h !in seen && ClubId(h).Some? {
        var after := Dedup(hs[i + 1..], seen + {h});
        assert here.items == [h] + after.items && here.failure == after.failure;
        assert hrefs + ([h] + after.items) == (hrefs + [h]) + after.items;
      }
    } else {
      assert here.items == [];
      assert hrefs + [] == hrefs;
    }
  }

  /** The loop of `parse` over the links, each already normalised: a
      normalisation error stops it, empty and seen hrefs are skipped, and
      each new href that holds a club id gives a roster request. */
  method DedupRequests(hs: seq<Result<string>>, baseUrl: string) returns (out: Yielded<Request>)
    ensures var spec := Dedup(hs, {});
      && out.failure == spec.failure
      && |out.items| == |spec.items|
      && forall i :: 0 <= i < |out.items| ==> out.items[i] == ClubRequest(spec.items[i], baseUrl)
  {
    var seen: set<string> := {};
    var requests: seq<Request> := [];
    ghost var hrefs: seq<string> := [];
    var i := 0;
    assert hs[0..] == hs;
    while i < |hs|
      invariant 0 <= i <= |hs|
      invariant DedupSoFar(hs, i, seen, hrefs)
      invariant forall n :: 0 <= n < |hrefs| ==> ClubId(hrefs[n]).Some?
      invariant requests == RequestsFor(hrefs, baseUrl)
    {
      DedupStep(hs, i, seen, hrefs);
      var normalized := hs[i];
      if normalized.Err? {
        return Yielded(requests, Some(normalized.error));
      }
      var href := normalized.value;
      if href != [] && href !in seen {
        seen := seen + {href};
        if ClubId(href).Some? {
          RequestsForSnoc(hrefs, href, baseUrl);
          requests := requests + [ClubRequest(href, baseUrl)];
          hrefs := hrefs + [href];
        }
      }
      i := i + 1;
    }
    assert hs[i..] == [];
    assert hrefs + [] == hrefs;
    out := Yielded(requests, None);
  }
}
