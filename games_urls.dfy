/**
 * The games_urls spider: the fixtures page reached from a competition page,
 * and one game record per fixtures row, built without visiting the game.
 * The games spider follows the same footer link and reads the game date the
 * same way; it uses the definitions here.
 */
module GamesUrls {
  import opened Values
  import opened Strings
  import opened Patterns
  import opened Common
  import opened Generators

  // ---------------------------------------------------------------------
  // Competition page: the fixtures link
  // ---------------------------------------------------------------------

  /** A `div.footer-links` block: the first text of its link (None when
      there is none) and the link's href. */
  datatype FooterLink = FooterLink(text: Option<string>, href: Option<string>)

  predicate IsFixturesText(t: string) { t == "All fixtures & results" || t == "All games" }

  /** Whether the footer loop ends at this block: its text is missing, so
      `.strip()` raises, or it names the fixtures page. */
  predicate StopsAt(f: FooterLink) {
    f.text.None? || IsFixturesText(Strip(f.text.value))
  }

  /** The first block at or after `i` where the footer loop ends, or the
      number of blocks when it runs to the end. */
  function FirstStop(footers: seq<FooterLink>, i: nat): (k: nat)
    requires i <= |footers|
    ensures i <= k <= |footers|
    ensures forall j :: i <= j < k ==> !StopsAt(footers[j])
    ensures k < |footers| ==> StopsAt(footers[k])
    decreases |footers| - i
  {
    if i == |footers| then i
    else if StopsAt(footers[i]) then i
    else FirstStop(footers, i + 1)
  }

  /** The callback keywords of the fixtures request: `base` holds the parent. */
  function FixturesContext(parent: Value): (r: Record)
    ensures r.Keys == {"base"}
    ensures r["base"].Dict? && r["base"].fields.Keys == {"parent"}
    ensures r["base"].fields["parent"] == parent
  {
    map["base" := Dict(map["parent" := parent])]
  }

  /** Following a link without a href: `response.follow(None)` raises. */
  const NoUrl := ValueError("url can't be None")

  /** `parse`: the request for the first footer block whose text names the
      fixtures page, None when no block does; a block without link text met
      before it raises AttributeError. */
  method Parse(footers: seq<FooterLink>, parent: Value) returns (r: Result<Option<Request>>)
    ensures var k := FirstStop(footers, 0);
      && (k == |footers| ==> r == Ok(None))
      && (k < |footers| && footers[k].text.None? ==> r == Err(AttributeError))
      && (k < |footers| && footers[k].text.Some? && footers[k].href.None? ==> r == Err(NoUrl))
      && (k < |footers| && footers[k].text.Some? && footers[k].href.Some? ==>
            r == Ok(Some(Request(footers[k].href.value, FixturesContext(parent)))))
  {
    var i := 0;
    while i < |footers|
      invariant 0 <= i <= |footers|
      invariant FirstStop(footers, 0) == FirstStop(footers, i)
    {
      var footer := footers[i];
      if footer.text.None? {
        return Err(AttributeError);
      }
      var text := Strip(footer.text.value);
      if IsFixturesText(text) {
        if footer.href.None? {
          return Err(NoUrl);
        }
        return Ok(Some(Request(footer.href.value, FixturesContext(parent))));
      }
      i := i + 1;
    }
    return Ok(None);
  }

  // ---------------------------------------------------------------------
  // Fixtures page: one item per game row
  // ---------------------------------------------------------------------

  /** The link of a team cell: its title and its href. */
  datatype TeamLink = TeamLink(title: Option<string>, href: Option<string>)

  /** A fixtures table row that holds a game link, as the spider reads it:
      the game link's href and text, the href and text of the first
      `/datum/` link, the kick-off cell text, and the home and away team
      links (None when the cell has no link). */
  datatype GameRow = GameRow(
    href: Option<string>,
    resultText: Option<string>,
    dateHref: Option<string>,
    dateText: Option<string>,
    kickoff: Option<string>,
    home: Option<TeamLink>,
    away: Option<TeamLink>)

  /** Rows whose game link has no href (or an empty one) are skipped. */
  predicate HasHref(row: GameRow) { row.href.Some? && row.href.value != [] }

  /** The last `/`-separated piece of a href. */
  function LastSegment(href: string): (r: string)
    ensures '/' !in r && EndsWith(href, r)
  {
    SplitLast(href, '/');
    Split(href, "/")[|Split(href, "/")| - 1]
  }

  /** `int(href.split('/')[-1])`: ValueError when the last piece is not a
      number. */
  function GameId(href: string): (r: Result<int>)
    ensures r.Ok? <==> ParseInt(LastSegment(href)).Some?
    ensures r.Ok? ==> r.value == ParseInt(LastSegment(href)).value
  {
    var seg := LastSegment(href);
    match ParseInt(seg)
    case None => Err(ValueError(seg))
    case Some(n) => Ok(n)
  }

  /** A game link `<path>/<digits>` has the number of its digits as id. */
  lemma GameIdOfPath(path: string, digits: string)
    requires IsDecimal(digits)
    ensures GameId(path + "/" + digits) == Ok(DigitsValue(digits))
  {
    var s := path + "/" + digits;
    var last := LastSegment(s);
    SplitLast(s, '/');
    assert s[|path|] == '/';
    assert s[|s| - |digits|..] == digits;
    assert last == s[|s| - |digits|..];
    ParseIntDecimal(digits);
  }

  /** `/datum/<YYYY-MM-DD>` in the date link's href, None when the href is
      missing, empty or has no such date. */
  function DateIso(dateHref: Option<string>): (r: Option<string>)
    ensures dateHref.None? ==> r.None?
    ensures r.Some? ==> IsIsoDate(r.value) && Contains(dateHref.value, "/datum/" + r.value)
  {
    if dateHref.Some? && dateHref.value != [] then DatumIso(dateHref.value) else None
  }

  /** The texts a not-yet-played game shows instead of a score. */
  predicate IsPlaceholder(t: string) { t == "-:-" || t == "" || t == "vs" }

  /** The game link's text, stripped, with the placeholders read as None. */
  function GameResult(text: Option<string>): (r: Option<string>)
  {
    var s := SafeStrip(text);
    if s.Some? && IsPlaceholder(s.value) then None else s
  }

  /** A result is there exactly when the stripped text is not a
      placeholder, and it is that stripped text. */
  lemma GameResultSpec(text: Option<string>)
    ensures GameResult(text).None? <==> text.None? || IsPlaceholder(Strip(text.value))
    ensures GameResult(text).Some? ==>
      && GameResult(text).value == Strip(text.value)
      && IsStripped(GameResult(text).value)
      && !IsPlaceholder(GameResult(text).value)
  {
    if text.Some? {
      var s := Strip(text.value);
      assert SafeStrip(text) == Some(s);
      assert GameResult(text) == if IsPlaceholder(s) then None else Some(s);
    }
  }

  /** A team object needs both a non-empty title and a non-empty href. */
  predicate IsCompleteLink(link: Option<TeamLink>) {
    && link.Some?
    && link.value.title.Some? && link.value.title.value != []
    && link.value.href.Some? && link.value.href.value != []
  }

  /** The club object of a team cell, or null. */
  function TeamClub(link: Option<TeamLink>): (v: Value)
    ensures v != Null <==> IsCompleteLink(link)
    ensures v != Null ==>
      && v.Dict? && v.fields.Keys == {"type", "name", "href"}
      && v.fields["type"] == Str("club")
      && v.fields["name"] == Str(link.value.title.value)
      && v.fields["href"] == Str(link.value.href.value)
  {
    if IsCompleteLink(link) then
      Dict(map["type" := Str("club"), "name" := Str(link.value.title.value), "href" := Str(link.value.href.value)])
    else Null
  }

  /** One game item of the fixtures page. */
  datatype GameUrlItem = GameUrlItem(
    href: string,
    seasonedHref: string,
    gameId: int,
    dateIso: Option<string>,
    dateDisplay: Option<string>,
    kickoffTime: Option<string>,
    homeClub: Value,
    awayClub: Value,
    result: Option<string>,
    parent: Value)

  const GameUrlKeys: set<string> := {
    "type", "href", "seasoned_href", "game_id", "date_iso", "date_display",
    "kickoff_time", "home_club", "away_club", "result", "parent"
  }

  /** The item as the dictionary the spider yields. */
  function GameUrlFields(g: GameUrlItem): (r: Record)
    ensures r.Keys == GameUrlKeys
    ensures r["type"] == Str("game")
    ensures r["href"] == Str(g.href) && r["seasoned_href"] == Str(g.seasonedHref)
    ensures r["game_id"] == Int(g.gameId) && r["parent"] == g.parent
  {
    map[
      "type" := Str("game"),
      "href" := Str(g.href),
      "seasoned_href" := Str(g.seasonedHref),
      "game_id" := Int(g.gameId),
      "date_iso" := OptStr(g.dateIso),
      "date_display" := OptStr(g.dateDisplay),
      "kickoff_time" := OptStr(g.kickoffTime),
      "home_club" := g.homeClub,
      "away_club" := g.awayClub,
      "result" := OptStr(g.result),
      "parent" := g.parent]
  }

  /** What one row gives: nothing when it has no href; otherwise its item,
      or the exception raised while building it (a non-numeric game id, then
      a `base` without `parent`). */
  function RowItem(row: GameRow, baseUrl: string, base: Record): (r: Result<Option<GameUrlItem>>)
    ensures r == Ok(None) <==> !HasHref(row)
    ensures r.Err? ==> HasHref(row) && (GameId(row.href.value).Err? || "parent" !in base)
    ensures r.Ok? && r.value.Some? ==>
      && r.value.value.href == row.href.value
      && r.value.value.seasonedHref == baseUrl + row.href.value
      && GameId(row.href.value) == Ok(r.value.value.gameId)
      && "parent" in base && r.value.value.parent == base["parent"]
  {
    if !HasHref(row) then Ok(None)
    else
      var href := row.href.value;
      var id :- GameId(href);
      var parent :- Index(base, "parent");
      Ok(Some(GameUrlItem(
        href, baseUrl + href, id,
        DateIso(row.dateHref), SafeStrip(row.dateText), SafeStrip(row.kickoff),
        TeamClub(row.home), TeamClub(row.away),
        GameResult(row.resultText), parent)))
  }

  /** The items `extract_game_urls` yields, in row order, up to the first
      row that raises. */
  function GameItems(rows: seq<GameRow>, baseUrl: string, base: Record): (r: Yielded<GameUrlItem>)
    ensures |r.items| <= |rows|
  {
    Collect(rows, row => RowItem(row, baseUrl, base))
  }

  /** Every item comes from a row with a href and a numeric game id, and
      carries that href, the base URL followed by it as its seasoned href,
      and the parent it was given. */
  lemma GameItemsShape(rows: seq<GameRow>, baseUrl: string, base: Record, k: nat)
    requires k < |GameItems(rows, baseUrl, base).items|
    ensures var item := GameItems(rows, baseUrl, base).items[k];
      && item.href != []
      && item.seasonedHref == baseUrl + item.href
      && "parent" in base && item.parent == base["parent"]
      && exists i :: 0 <= i < |rows| && HasHref(rows[i]) && rows[i].href.value == item.href
           && GameId(item.href) == Ok(item.gameId)
  {
    CollectSound(rows, row => RowItem(row, baseUrl, base), k);
  }

  /** The hrefs of the rows that are not skipped, in order. */
  function LinkedHrefs(rows: seq<GameRow>): (r: seq<string>)
  {
    if rows == [] then []
    else (if HasHref(rows[0]) then [rows[0].href.value] else []) + LinkedHrefs(rows[1..])
  }

  function ItemHrefs(items: seq<GameUrlItem>): (r: seq<string>)
    ensures |r| == |items|
    ensures forall i :: 0 <= i < |r| ==> r[i] == items[i].href
  {
    seq(|items|, i requires 0 <= i < |items| => items[i].href)
  }

  /** Without exceptions, one item per row with a href, in row order. */
  lemma OutputHrefs(rows: seq<GameRow>, baseUrl: string, base: Record)
    requires !Raises(rows, row => RowItem(row, baseUrl, base))
    ensures ItemHrefs(Outputs(rows, row => RowItem(row, baseUrl, base))) == LinkedHrefs(rows)
  {
    OutputHrefsOf(rows, row => RowItem(row, baseUrl, base));
  }

  /** The induction behind OutputHrefs, for any step that yields exactly
      for the rows with a href and yields an item carrying that href. */
  lemma {:induction false} OutputHrefsOf(rows: seq<GameRow>, step: GameRow -> Result<Option<GameUrlItem>>)
    requires !Raises(rows, step)
    requires forall row :: step(row).Ok? ==>
      && (step(row).value.Some? <==> HasHref(row))
      && (step(row).value.Some? ==> step(row).value.value.href == row.href.value)
    ensures ItemHrefs(Outputs(rows, step)) == LinkedHrefs(rows)
  {
    if rows != [] {
      RaisesCons(rows, step);
      OutputHrefsOf(rows[1..], step);
      var rest := Outputs(rows[1..], step);
      if HasHref(rows[0]) {
        assert ItemHrefs([step(rows[0]).value.value] + rest) == [rows[0].href.value] + ItemHrefs(rest);
      }
    }
  }

  /** The generator stops early exactly when some row raises (a row with a
      href whose id is not a number, or a `base` without `parent`); when
      nothing raises it yields one item per row with a href, in row order. */
  lemma GameItemsComplete(rows: seq<GameRow>, baseUrl: string, base: Record)
    ensures GameItems(rows, baseUrl, base).failure.Some? <==>
      exists i :: 0 <= i < |rows| && HasHref(rows[i])
        && (GameId(rows[i].href.value).Err? || "parent" !in base)
    ensures GameItems(rows, baseUrl, base).failure.None? ==>
      ItemHrefs(GameItems(rows, baseUrl, base).items) == LinkedHrefs(rows)
  {
    var step := row => RowItem(row, baseUrl, base);
    CollectSpec(rows, step);
    if !Raises(rows, step) {
      OutputHrefs(rows, baseUrl, base);
    }
  }

  /** `extract_game_urls`: the rows in order, skipping those without a
      href, until one raises. */
  method ExtractGameUrls(rows: seq<GameRow>, baseUrl: string, base: Record) returns (out: Yielded<GameUrlItem>)
    ensures out == GameItems(rows, baseUrl, base)
  {
    out := CollectLoop(rows, row => RowItem(row, baseUrl, base));
  }
}
