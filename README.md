# transfermarkt-scraper spiders in Dafny

This project models the parsing core of the `tfmkt` Scrapy spiders. The spiders crawl
Transfermarkt and turn its pages into JSON-lines records. Each record is chained to
the record that led to it through a `parent` key. The model covers every spider:

- `competitions`: the domestic-league box of a country page. Its tier and link rows
  are read in pairs, and cups are skipped.
- `clubs`: the teams table of a competition page and the attribute block of a club
  page.
- `clubs_by_url`: starts from club or competition URLs. It rewrites competition URLs
  for a season, deduplicates club links, and parses the squad table and the club
  details.
- `games_urls` and `games`: the fixtures page, and the game page's header, events,
  line-ups, managers and kickoff time.
- `games_by_url`: saves each parent and restores it onto the entrypoints.
- `players` and `players_from_file`: the squad page and the player profile. The
  profile yields birth and death dates, age, status and market value.
- The shared `common.BaseSpider`: parent-file handling, seasoned start requests and
  `safe_strip`.

Page data that Scrapy selectors would return enters the model as input records of
optional strings. A `scrapy.Request` is modelled as the URL it targets together with
the `base` record it carries. Python dictionaries are `map<string, Value>` over a
JSON-like `Value` type. Python exceptions are `Err` results. A generator that can
raise midway returns `Yielded(items, failure)`: the items produced before the
failure, and the failure itself.

Supporting modules:

- `Values`: values, records, results and exceptions.
- `Strings`: `strip`, `split`, `find`, `replace`, `lower`, integer printing and
  parsing.
- `Patterns`: the regular expressions the spiders use.
- `Urls`: the part of `urlparse` the spiders read.
- `TextPatterns`: the date, age and market-value text forms.
- `Generators`: the generic loops, with their specification functions.

Step-by-step code is modelled as methods with loop invariants, proved against those
functions. The classes whose fields the spiders update in place are
`Common.BaseSpider`, `ClubsByUrl.ClubsByUrlSpider` and `GamesByUrl.GamesByUrlSpider`.

`GamesSpider.parse` (tfmkt/spiders/games.py:9-39) has the same text as
`GamesUrlsSpider.parse` (tfmkt/spiders/games_urls.py:38-61). `GamesUrls.Parse` models
both.

## Model

| member | source | states |
|---|---|---|
| Common.SafeStrip | tfmkt/spiders/common.py:106-110 | None stays None and "" stays ""; any other word comes back stripped |
| Common.SafeStripIdempotent | tfmkt/spiders/common.py:106-110 | what `safe_strip` returns is stripped, and applying it twice gives the same result as once |
| Common.GzipFlag | tfmkt/spiders/common.py:26-34 | the parents file counts as gzip exactly when a path is given and its last `.`-separated part is `gz` |
| Common.GzipOfSuffix | tfmkt/spiders/common.py:26-34 | a path ending in `.gz` counts as gzip; a path with no `.` other than `gz` itself does not |
| Common.SeasonText | tfmkt/spiders/common.py:52-56 | a non-empty season is kept; a missing or empty one becomes 2025 |
| Common.StripParent | tfmkt/spiders/common.py:47-50 | afterwards `parent` reads as None; every other key and its value is kept, and nothing is added |
| Common.ScrapeParents | tfmkt/spiders/common.py:60-64 | without `SCRAPY_CHECK` backfilling raises; with it the result is the empty list |
| Common.HrefOf | tfmkt/spiders/clubs.py:110 | `base["href"]` as `urlparse(...).path.split("/")` takes it: KeyError when missing, the text when it is text; another truthy value raises AttributeError (no `decode`), a falsy one TypeError (an empty bytes path refuses `split("/")`) |
| Common.Render | tfmkt/spiders/common.py:93-102 | what an f-string writes for a value: text as is, `None`, `True`/`False`, an integer's spelling that `int()` reads back, `[]` and `{}`; floats and non-empty lists and dictionaries as their repr |
| Common.Seasonize | tfmkt/spiders/common.py:80-104 | a missing `type` or `href` raises KeyError, and nothing else fails: the href is written into the URL whatever it holds. The URL, by type: club adds `/saison_id/<season>`; first-tier competition adds `/plus/0?saison_id=`; domestic cup or super cup gets `?saison_id=` with every `wettbewerb` of the whole URL replaced; other competitions get `?saison_id=`; any other type gets base URL plus href |
| Common.ClubSeasonized | tfmkt/spiders/common.py:92-93 | a club is requested at base URL + the written href + `/saison_id/<season>` |
| Common.NoneHrefSeasonized | tfmkt/spiders/common.py:92-93 | a club whose href is None is requested at base URL + `None/saison_id/<season>` |
| Common.CupKeepsBaseUrl | tfmkt/spiders/common.py:97-98 | when no `wettbewerb` starts inside the base URL, the cup rewrite leaves the base URL as it is and rewrites only href and query |
| Common.ClubSeasonRemoved | tfmkt/spiders/common.py:92-93 | removing `/saison_id/<digits>` from a club's seasoned URL gives back base URL plus href, when neither holds such a segment itself |
| Common.SeasonRemovedFrom | tfmkt/spiders/common.py:92-93 | a `/saison_id/<digits>` tail is all the removal takes from a text that holds no such segment itself |
| Common.WithSeasonedHref | tfmkt/spiders/common.py:73 | the item gains `seasoned_href` and keeps every other key and value |
| Common.FirstUnbuilt | tfmkt/spiders/common.py:72-74 | every entrypoint before the returned index has a URL; the one at the index (if any) raises |
| Common.SeasonEntrypoints | tfmkt/spiders/common.py:66-78 | the entrypoints before the first failing one gain `seasoned_href` in place; the rest are untouched; the call fails exactly when one fails, with that one's error; otherwise request i is at URL i with entrypoint i as `parent` |
| Common.BaseSpider.constructor | tfmkt/spiders/common.py:20-58 | default base URL, gzip flag from the parents path, default season 2025; entrypoint i is loaded parent i with a non-None `parent` key removed |
| Common.BaseSpider.StartRequests | tfmkt/spiders/common.py:66-78 | base URL, season and gzip flag are unchanged; each entrypoint gains its seasoned URL in place, in order, up to the first that raises; the requests pair each URL with its entrypoint; it succeeds exactly when every entrypoint has `type` and `href` |
| Clubs.ExtractTeamHref | tfmkt/spiders/clubs.py:23-28 | a row with fewer than two cells gives None; otherwise the link of the second cell |
| Clubs.RowHrefs | tfmkt/spiders/clubs.py:36-39 | only non-empty links are kept, at most one per row |
| Clubs.ClubBase | tfmkt/spiders/clubs.py:45-51 | the callback context holds exactly `type` = club, the href as linked (season kept) and the parent |
| Clubs.ClubRequests | tfmkt/spiders/clubs.py:35-53 | one request per href |
| Clubs.ClubRequestsEach | tfmkt/spiders/clubs.py:45-53 | request i follows href i, with that href's club base as context |
| Clubs.ClubRequestsAppend | tfmkt/spiders/clubs.py:35-53 | the requests of two href lists, one after the other, are the requests of the joined list |
| Clubs.Parse | tfmkt/spiders/clubs.py:30-53 | the callback yields exactly the requests of the team hrefs, in table order then row order |
| Clubs.TableRequestsSnoc | tfmkt/spiders/clubs.py:35-36 | one more table appends the requests of its own team hrefs, if it is a teams table |
| Clubs.RowRequests | tfmkt/spiders/clubs.py:36-53 | the inner loop yields the requests of the table's non-empty team links, in row order |
| Clubs.RowRequestsSnoc | tfmkt/spiders/clubs.py:37-53 | one more row appends one request exactly when its team link is non-empty |
| Clubs.TeamHrefsAppend | tfmkt/spiders/clubs.py:31-36 | the hrefs of two table lists, one after the other, are the hrefs of the joined list |
| Clubs.RowHrefsAppend | tfmkt/spiders/clubs.py:36-39 | the same for rows |
| Clubs.TeamHrefsComplete | tfmkt/spiders/clubs.py:18-39 | a href is requested exactly when it is non-empty and is the team link of some row of some teams table |
| Clubs.RowHrefsComplete | tfmkt/spiders/clubs.py:36-39 | a href comes from a table's rows exactly when it is non-empty and is the team link of one of them |
| Clubs.Fields | tfmkt/spiders/clubs.py:64-113 | the attribute dictionary has exactly the twelve attribute keys, each holding its own attribute |
| Clubs.RowPair | tfmkt/spiders/clubs.py:78-100 | without a Foreigners/Stadium row both values are None; with one, each text is safely stripped |
| Clubs.PageAttributes | tfmkt/spiders/clubs.py:64-113 | each attribute is the page text it is read from: safely stripped where the spider calls `safe_strip`; the coach is None when missing or empty and stripped otherwise; the name is the legal name or else the headline; the code is the given one |
| Clubs.StripAll | tfmkt/spiders/clubs.py:115-117 | the whitespace pass keeps the keys |
| Clubs.StripAllStrips | tfmkt/spiders/clubs.py:115-117 | after the pass every string is stripped and non-strings are unchanged; a second pass changes nothing |
| Clubs.StripStrings | tfmkt/spiders/clubs.py:115-117 | the in-place key-by-key loop gives the same dictionary as the whole-dictionary pass |
| Clubs.PartlyStrippedStep | tfmkt/spiders/clubs.py:116-117 | one loop step strips the value of its own key and changes no other key |
| Clubs.ParseDetails | tfmkt/spiders/clubs.py:55-119 | a missing href raises KeyError, and so does a failing path split. Otherwise the record is the base with the stripped attributes laid over it: the keys are the base keys plus the attribute keys, and `code` is the stripped decoded first path segment |
| Clubs.ClubRecordStripped | tfmkt/spiders/clubs.py:115-119 | in the yielded record every attribute string is stripped, and base keys the page does not set keep their values |
| ClubsByUrl.NormalizeHref | tfmkt/spiders/clubs_by_url.py:91-105 | an empty href is kept. Normalising fails only for an absolute URL that `urlparse` rejects, with that error. A result is empty or does not end in `/` |
| ClubsByUrl.NormalizeHrefAbsolute | tfmkt/spiders/clubs_by_url.py:95-97 | an absolute URL becomes its parsed path (rooted) less only trailing slashes |
| ClubsByUrl.NormalizeHrefRelative | tfmkt/spiders/clubs_by_url.py:98-99 | a relative href becomes itself less only trailing slashes |
| ClubsByUrl.NormalizeHrefIdempotent | tfmkt/spiders/clubs_by_url.py:91-105 | normalising a normalised href changes nothing |
| ClubsByUrl.Normalized | tfmkt/spiders/clubs_by_url.py:98-99 | a relative href without a trailing slash is already normal |
| ClubsByUrl.HrefsFromCodes | tfmkt/spiders/clubs_by_url.py:107-117 | at most one href per code, none of them empty |
| ClubsByUrl.HrefsFromCodesSpec | tfmkt/spiders/clubs_by_url.py:108-109 | every non-empty code gives its `/startseite/<segment>/<code>` page; every href comes from a non-empty code; without empty codes there is one href per code, in order |
| ClubsByUrl.HrefsFromCodesEmpty | tfmkt/spiders/clubs_by_url.py:109 | no hrefs exactly when every code is empty |
| ClubsByUrl.HrefsFromCodesAppend | tfmkt/spiders/clubs_by_url.py:109 | the hrefs of two code lists follow each other in order |
| ClubsByUrl.NormalizeAll | tfmkt/spiders/clubs_by_url.py:121 | it succeeds exactly when every href normalises; then it has one normalised href per input href; otherwise its error is one href's error |
| ClubsByUrl.NonEmpty | tfmkt/spiders/clubs_by_url.py:122 | the filter keeps exactly the non-empty strings; it is empty exactly when every string is |
| ClubsByUrl.NonEmptyAppend | tfmkt/spiders/clubs_by_url.py:122 | a head part that is all non-empty passes the filter unchanged |
| ClubsByUrl.CompetitionEntry | tfmkt/spiders/clubs_by_url.py:136 | an entrypoint holds exactly `type` = competition and the href |
| ClubsByUrl.ScrapeParents | tfmkt/spiders/clubs_by_url.py:119-136 | a href that cannot be normalised raises its error; every entrypoint is of type competition |
| ClubsByUrl.ScrapeParentsRaises | tfmkt/spiders/clubs_by_url.py:122-125 | with every href normalised, the "provide codes or hrefs" exception is raised exactly when every code and every normalised href is empty |
| ClubsByUrl.ScrapeParentsEntries | tfmkt/spiders/clubs_by_url.py:120-136 | the entrypoints are the code hrefs first, then the non-empty normalised hrefs, in order, none of them empty |
| ClubsByUrl.InputList | tfmkt/spiders/clubs_by_url.py:42-43 | a missing or empty argument gives no pieces; otherwise one stripped piece per comma-separated part |
| ClubsByUrl.CupRewrite | tfmkt/spiders/clubs_by_url.py:148-155 | a path already at `/teilnehmer/` is kept, and so is one naming none of the rewritten segments |
| ClubsByUrl.CupRewriteParticipants | tfmkt/spiders/clubs_by_url.py:149-155 | a cup path naming any of `/teilnehmer/`, `/startseite/`, `/plus/` or `/pokalwettbewerb/` ends up at the participants page |
| ClubsByUrl.RewriteCupPath | tfmkt/spiders/clubs_by_url.py:148-155 | the step-by-step rewrite gives the participants path |
| ClubsByUrl.CompetitionPath | tfmkt/spiders/clubs_by_url.py:144-175 | a league path already holding `/plus/` is kept; any other league path loses its trailing slashes and gains `/plus/`. A cup path without a season is the participants path. With a season it is the participants path with every `/saison_id/<digits>` deleted, trailing slashes stripped, then `/saison_id/<season>`; that head is no longer than the participants path and has no trailing slash |
| ClubsByUrl.CupSeasonOnce | tfmkt/spiders/clubs_by_url.py:155-161 | for a positive season and a participants path whose segments do not overlap, the URL path holds exactly one `/saison_id/`, right after the head, and its digits spell the season |
| ClubsByUrl.CompetitionUrl | tfmkt/spiders/clubs_by_url.py:138-175 | it fails exactly when the href cannot be normalised, with that error; otherwise it is the base URL followed by the competition path of the normalised href |
| ClubsByUrl.EntryUrl | tfmkt/spiders/clubs_by_url.py:91-184 | an entrypoint without `href` raises KeyError; a text href gives its competition URL; another truthy href raises AttributeError (no `startswith`); None, False, 0 and 0.0 raise TypeError (the `in` tests); an empty list or dictionary is written after the base URL for a cup and raises AttributeError (no `rstrip`) for a league |
| ClubsByUrl.EntryUrlBuilt | tfmkt/spiders/clubs_by_url.py:138-175 | only a text href, or an empty list or dictionary on a cup, gives a URL |
| ClubsByUrl.ClubsByUrlSpider.constructor | tfmkt/spiders/clubs_by_url.py:25-47 | it keeps the stripped code and href lists and the stripped, lower-cased kind (`cup` by default). The season is the parsed argument unless the base spider assigns its own. The base URL and entrypoints are what the base spider leaves |
| ClubsByUrl.ClubsByUrlSpider.New | tfmkt/spiders/clubs_by_url.py:25-47 | the spider is built exactly when the season argument parses; otherwise `__init__` raises its ValueError before the base spider runs |
| ClubsByUrl.SeasonArgument | tfmkt/spiders/clubs_by_url.py:45 | no season or an empty one is None; other text must spell an integer, which is the season, else ValueError carrying the text |
| ClubsByUrl.SeasonArgumentOf | tfmkt/spiders/clubs_by_url.py:45 | the decimal spelling of an integer gives that integer back as season |
| ClubsByUrl.ClubsByUrlSpider.BuildCompetitionUrl | tfmkt/spiders/clubs_by_url.py:138-175 | the URL built step by step is the competition URL |
| ClubsByUrl.ClubsByUrlSpider.RewritePath | tfmkt/spiders/clubs_by_url.py:144-175 | the path rewritten step by step is the competition path |
| ClubsByUrl.ClubsByUrlSpider.StartRequests | tfmkt/spiders/clubs_by_url.py:181-200 | the entrypoints before the first that raises get their `seasoned_href`; the rest are unchanged. It succeeds exactly when none raises, giving one request per entrypoint with its URL and the updated entrypoint as parent |
| ClubsByUrl.ClubLinks | tfmkt/spiders/clubs_by_url.py:212-219 | the table links when there are any, else the tooltip links, else one `/dummy-slug/startseite/verein/<id>` per grid id |
| ClubsByUrl.Dedup | tfmkt/spiders/clubs_by_url.py:231-246 | every requested href is non-empty, not seen before and holds a club id; at most one per link |
| ClubsByUrl.DedupDistinct | tfmkt/spiders/clubs_by_url.py:231-236 | no club href is requested twice |
| ClubsByUrl.DedupComplete | tfmkt/spiders/clubs_by_url.py:231-246 | when no link fails to normalise, every new non-empty href with a club id is requested |
| ClubsByUrl.RosterPathSpec | tfmkt/spiders/clubs_by_url.py:248-252 | the roster path ends in `/kader/verein/<id>/plus/1`. It starts with the slug when the href has one; without a slug it is just that tail |
| ClubsByUrl.RosterPathOfStartPage | tfmkt/spiders/clubs_by_url.py:248-250 | a start page `/<slug>/startseite/verein/<id>` has that club id and the roster path `/<slug>/kader/verein/<id>/plus/1` |
| ClubsByUrl.ClubRequest | tfmkt/spiders/clubs_by_url.py:254-267 | the request goes to the base URL + roster path, with exactly `type` = club and the href as its base |
| ClubsByUrl.DedupRequests | tfmkt/spiders/clubs_by_url.py:231-267 | the loop yields one roster request per href of the deduplication, in order, and stops with the same error |
| ClubsByUrl.ClubsByUrlSpider.Parse | tfmkt/spiders/clubs_by_url.py:202-267 | the requests are those of the deduplicated club hrefs of the chosen links, in order |
| ClubsByUrl.KeptRows | tfmkt/spiders/clubs_by_url.py:362-378 | only rows with an id not seen before are kept, in increasing row order |
| ClubsByUrl.KeptRowsDistinct | tfmkt/spiders/clubs_by_url.py:376-378 | no player id is kept twice |
| ClubsByUrl.KeptRowsFirst | tfmkt/spiders/clubs_by_url.py:362-378 | a row is kept exactly when it is readable and no earlier row has its id |
| ClubsByUrl.TitlePart | tfmkt/spiders/clubs_by_url.py:401-405 | a title contributes its stripped text when that is non-empty, and nothing otherwise |
| ClubsByUrl.NationalityPartsKept | tfmkt/spiders/clubs_by_url.py:401-405 | every nationality part kept is non-empty and stripped |
| ClubsByUrl.NationalityPartsAll | tfmkt/spiders/clubs_by_url.py:401-405 | when no title is missing or blank, the parts are all the titles, stripped, in order |
| ClubsByUrl.Nationality | tfmkt/spiders/clubs_by_url.py:401-405 | None exactly when no part is left; otherwise the parts joined with `, ` |
| ClubsByUrl.NumberValue | tfmkt/spiders/clubs_by_url.py:380 | None exactly when the number is missing, empty or `-` after stripping; otherwise the stripped number |
| ClubsByUrl.DobAge | tfmkt/spiders/clubs_by_url.py:393-399 | an empty cell gives neither value; there is no age without a date. A date is stripped and holds no `(`; an age is a non-negative integer |
| ClubsByUrl.DobAgeOf | tfmkt/spiders/clubs_by_url.py:393-399 | `date (age)` gives exactly the date and the age |
| ClubsByUrl.PlayerFields | tfmkt/spiders/clubs_by_url.py:407-423 | the player dictionary has exactly the fifteen keys, with the id, link, number, birth date, age and nationality of the player |
| ClubsByUrl.PlayerOfSpec | tfmkt/spiders/clubs_by_url.py:380-423 | a kept row's player has its id and link, and reads the number, birth date and age, nationality, name, market value and signing link from the row |
| ClubsByUrl.ParsePlayers | tfmkt/spiders/clubs_by_url.py:360-429 | the loop gives the players of the kept rows, in row order |
| ClubsByUrl.CodeHref | tfmkt/spiders/clubs_by_url.py:344-348 | the canonical link when the page has one, else the base href (KeyError without one) |
| ClubsByUrl.ClubCode | tfmkt/spiders/clubs_by_url.py:343-348 | the code is the decoded first path segment of the canonical link, or of the base href, with the base's error when it has none |
| ClubsByUrl.ClubItem | tfmkt/spiders/clubs_by_url.py:442-454 | the record has the keys of the base, the attributes and `players`, minus `parent`. Attributes win over the base and the players list wins over both |
| ClubsByUrl.ClubItemKeeps | tfmkt/spiders/clubs_by_url.py:442-454 | every attribute keeps its value, the players are there and `parent` is not |
| ClubsByUrl.ClubItemStripped | tfmkt/spiders/clubs_by_url.py:354-357 | the emitted record has no `parent`. Every attribute string in it is stripped, its code is the stripped code and its players are the parsed ones |
| ClubsByUrl.ParseDetails | tfmkt/spiders/clubs_by_url.py:286-455 | a code that cannot be read ends the callback with its error; otherwise the record is the club record of the stripped attributes and the kept players |
| Competitions.BaseFields | tfmkt/spiders/competitions.py:45-57 | the `base` dictionary has exactly the nine keys, holding the parent, country id, name and code |
| Competitions.CountryBaseOf | tfmkt/spiders/competitions.py:23-56 | the base carries the parent, the id found in the flag URL, the flag title as name, and the last `/`-segment of the country link as code |
| Competitions.CountryRequest | tfmkt/spiders/competitions.py:43-59 | the request goes to base URL + `/wettbewerbe/national/wettbewerbe/` + id, and `base` is its only keyword argument |
| Competitions.CountryStep | tfmkt/spiders/competitions.py:22-59 | a row raises exactly when it has fewer than two cells or its first cell's inner table has fewer than two cells (IndexError, in that order), the country link has no href (AttributeError, next), or the flag has no `src` (TypeError, last); it is skipped exactly when the flag URL has no `<digits>.png` |
| Competitions.Parse | tfmkt/spiders/competitions.py:10-59 | the callback yields the country requests in row order and stops at the first row that raises; at most one request per row |
| Competitions.CountryRequestShape | tfmkt/spiders/competitions.py:38-59 | every request comes from a row whose flag URL holds `<id>.png` with decimal `id`, goes to that id's national page, and carries that row's base |
| Competitions.CountryFailure | tfmkt/spiders/competitions.py:22-40 | the callback stops early exactly when some row is short of outer or inner cells, lacks the country href or lacks the flag `src`; the requests yielded are a prefix of those of all requestable rows |
| Competitions.CountryCodeOf | tfmkt/spiders/competitions.py:25-30 | a country link `<path>/<code>`, where `code` has no `/`, gives `code` |
| Competitions.CountryRequestOf | tfmkt/spiders/competitions.py:38-59 | a flag URL `<prefix><digits>.png` with no earlier match is requested at the national page of those digits |
| Competitions.FindDomesticBox | tfmkt/spiders/competitions.py:76-81 | the search loop with `break` stops at the first box whose stripped headline is `Domestic leagues & cups`, or runs past the end when there is none |
| Competitions.TierName | tfmkt/spiders/competitions.py:94 | the tier text, or "" when it is missing or empty |
| Competitions.CompetitionRecord | tfmkt/spiders/competitions.py:105-110 | the record has the base keys plus `type`, `competition_type` and `href`; the last two come from the tier and link; `type` is the base's own when it has one, else `competition` |
| Competitions.PairStepSpec | tfmkt/spiders/competitions.py:93-110 | a pair raises (IndexError) exactly when its tier is not a cup, a link row follows, and that row has fewer than two inner cells; a record comes only from a non-cup tier whose link row's second cell has a link |
| Competitions.PairLoop | tfmkt/spiders/competitions.py:91-113 | the `idx += 2` loop yields what the generator specification gives over the pair indices 0, 2, 4, ... |
| Competitions.CompetitionsOf | tfmkt/spiders/competitions.py:72-113 | with no domestic box the callback yields nothing and does not raise |
| Competitions.ParseCompetitions | tfmkt/spiders/competitions.py:61-113 | finds the first domestic box; with none it yields nothing; a box without a table body raises IndexError; otherwise it runs the pair loop over the box's rows |
| Competitions.CompetitionsFromBox | tfmkt/spiders/competitions.py:76-88 | records come only from the first domestic box, and only when it has a table body |
| Competitions.PairRecordShape | tfmkt/spiders/competitions.py:91-113 | at most ceil(n/2) records. Each comes from a non-cup tier row at an even index whose link row's second inner cell has a link, and is that tier's record for that link |
| Competitions.PairFailure | tfmkt/spiders/competitions.py:91-113 | the pair loop stops early exactly when some non-cup tier row at an even index is followed by a link row with fewer than two inner cells; the records yielded are a prefix of those of all pairs |
| Competitions.PairRaisesOnShortRow | tfmkt/spiders/competitions.py:97-102 | a raising pair is a non-cup tier row followed by a short link row |
| Competitions.ShortRowRaises | tfmkt/spiders/competitions.py:97-102 | a non-cup tier row followed by a short link row makes the loop raise |
| Games.GameContext | tfmkt/spiders/games.py:57-62 | the keyword arguments hold only `base`, which holds exactly the parent and the game link's href |
| Games.GameRequestsSpec | tfmkt/spiders/games.py:53-64 | a non-empty link list without `parent` in `base` raises KeyError before anything is yielded. The callback finishes exactly when every link has a href, yielding one request per link, in order; request i follows href i with its game context |
| Games.ExtractGameUrls | tfmkt/spiders/games.py:41-64 | the loop yields what the generator specification of the links gives |
| Games.SpriteClock | tfmkt/spiders/games.py:80-90 | the clock is read exactly when the style is there, holds the two pixel offsets, and the clock text is there; the minute is the offsets mapped by the minute decoder, and the extra text is the stripped clock text |
| Games.ExtraMinute | tfmkt/spiders/games.py:91-94 | a text of at most one character gives no extra minute; a longer one gives `int()` of it, and ValueError exactly when `int()` fails |
| Games.StripEach | tfmkt/spiders/games.py:112 | each text is stripped, one per input |
| Games.Assist | tfmkt/spiders/games.py:118-120 | the assist is the second action link, and is present exactly when there are more than one |
| Games.EventOfSpec | tfmkt/spiders/games.py:73-122 | an event has the kind it was read for. A shoot-out kick has minute -1 and no extra minute; any other event's minute comes from the sprite offsets, and it has an extra minute exactly when the stripped clock text is longer than one character. A clock that cannot be read raises. The assist is present exactly when there are two or more action links |
| Games.EventsOfSpec | tfmkt/spiders/games.py:67-124 | the events of a kind are built exactly when no element raises, and then there is one per element, in page order; otherwise the exception is that of the first element that raises |
| Games.ExtractGameEvents | tfmkt/spiders/games.py:67-124 | the appending loop returns the events of the kind, or the first exception |
| Games.EventsOfKind | tfmkt/spiders/games.py:73-77 | every event read for a kind has that kind, and shoot-out kicks have minute -1 |
| Games.AllEventsOrdered | tfmkt/spiders/games.py:278-283 | the game events are goals, then substitutions, then cards, then shoot-out kicks; every kind is one of the four, and shoot-out kicks have minute -1 |
| Games.SegmentsOrdered | tfmkt/spiders/games.py:278-283 | joining four runs of goals, substitutions, cards and shoot-out kicks gives a list ordered by kind |
| Games.LineupEntry | tfmkt/spiders/games.py:139-146 | a starter is listed exactly when its stripped name and its href are both non-empty, with the stripped name |
| Games.BenchEntry | tfmkt/spiders/games.py:163-173 | a bench row never raises; a row without a player link gives nothing |
| Games.ExtractStartingLineup | tfmkt/spiders/games.py:126-148 | the loop keeps the listed starters in page order |
| Games.ExtractSubstitutes | tfmkt/spiders/games.py:150-175 | the loop keeps the listed bench players in row order |
| Games.LineupSpec | tfmkt/spiders/games.py:126-175 | building a line-up never raises; it keeps exactly the entries with a name and a href, in order; every player has a non-empty stripped name and a non-empty href |
| Games.LineupsOf | tfmkt/spiders/games.py:288-302 | with fewer than two line-up boxes all four line-ups are empty; otherwise the home line-ups are the starters and bench of the first box and the away line-ups those of the second, each well formed |
| Games.Indexed | tfmkt/spiders/games.py:200-204 | `x[0]` of an empty selection raises IndexError; otherwise it is the first element |
| Games.BaseGameId | tfmkt/spiders/games.py:189 | KeyError without a href, AttributeError when the href is not text; otherwise `int()` of the last `/`-segment |
| Games.TextElements | tfmkt/spiders/games.py:206-209 | only texts that are not blank once stripped are kept |
| Games.Matchday | tfmkt/spiders/games.py:211 | IndexError exactly when no text is kept |
| Games.MatchdaySpec | tfmkt/spiders/games.py:211 | the matchday starts the first stripped text and holds no double space; a double space follows it when the text has one, and otherwise it is the whole text |
| Games.KickoffSpec | tfmkt/spiders/games.py:224-233 | no kick-off time exactly when no text holds a time; otherwise it is the time in a text with no time before it |
| Games.FindKickoff | tfmkt/spiders/games.py:224-233 | the loop with `break` stops at the first text holding a time |
| Games.Attendance | tfmkt/spiders/games.py:240-241 | there is an attendance exactly when the text is there and not blank |
| Games.AttendanceOf | tfmkt/spiders/games.py:240-241 | `Attendance: <digits>` gives the digits |
| Games.DigitsHaveNoLabel | tfmkt/spiders/games.py:241 | a digit string never holds the label |
| Games.ReplaceAllPrefixLabel | tfmkt/spiders/games.py:241 | removing the label from label + count leaves the count when the count holds no label itself |
| Games.RefereeOf | tfmkt/spiders/games.py:244-253 | there is a referee exactly when the link is there and its stripped title is non-empty; the referee is that title and href |
| Games.Halftime | tfmkt/spiders/games.py:261-269 | no half-time score without texts; otherwise the score is the first match in the stripped joined text, found exactly when it holds one, and has the shape `<digits>:<digits>` |
| Games.Managers | tfmkt/spiders/games.py:272-276 | managers are set exactly when there are two manager rows: the first is the home manager and the second the away manager, each with its stripped name and href |
| Games.ParseGameFields | tfmkt/spiders/games.py:177-302 | the loops give the game value; a bad base href raises first; the id, events, line-ups and managers are those of their specifications |
| Games.ListOf | tfmkt/spiders/games.py:327-331 | one value per element |
| Games.HeaderFields | tfmkt/spiders/games.py:304-323 | the scalar fields have exactly their keys; `type` is `game` and `game_id` is the id |
| Games.DetailFields | tfmkt/spiders/games.py:324-331 | the venue, referee, events and line-up fields have exactly their keys |
| Games.GameFields | tfmkt/spiders/games.py:304-332 | the game fields have exactly the twenty game keys; `type` is `game` and `game_id` is the id |
| Games.WithManagers | tfmkt/spiders/games.py:334-344 | without managers the dictionary is unchanged; with them it gains `home_manager` and `away_manager` and keeps everything else |
| Games.GameRecordSpec | tfmkt/spiders/games.py:304-346 | the record is a game with its id. The game keys override `base`, and base keys outside them survive. The manager entries are present exactly when there are two manager rows |
| Games.ParseGame | tfmkt/spiders/games.py:177-346 | yields the game record, or raises the first exception in source order; the record's `game_id` is the id in the base href and its `type` is `game` |
| GamesUrls.FirstStop | tfmkt/spiders/games_urls.py:53-61 | the footer loop runs past every block before the returned index, and ends at that block if there is one |
| GamesUrls.FixturesContext | tfmkt/spiders/games_urls.py:46-50 | the keyword arguments hold only `base`, which holds only the parent |
| GamesUrls.Parse | tfmkt/spiders/games_urls.py:38-61 | the loop ends at the first footer block that has no link text (AttributeError from `.strip()` on None) or whose stripped text names the fixtures page. A fixtures block without a href raises; one with a href is followed with the fixtures context; with no such block the result is None |
| GamesUrls.LastSegment | tfmkt/spiders/games_urls.py:86 | the last `/`-separated piece ends the href and holds no `/` |
| GamesUrls.GameId | tfmkt/spiders/games_urls.py:86 | the id is `int()` of the last piece; ValueError exactly when that is not a number |
| GamesUrls.GameIdOfPath | tfmkt/spiders/games_urls.py:85-86 | `<path>/<digits>` has the digits' value as id |
| GamesUrls.DateIso | tfmkt/spiders/games_urls.py:89-94 | no href gives no date; a date found has the `YYYY-MM-DD` shape and follows `/datum/` in the href |
| GamesUrls.GameResultSpec | tfmkt/spiders/games_urls.py:133-136 | no result exactly when the text is missing or strips to `-:-`, "" or `vs`; otherwise the result is the stripped text, which is not a placeholder |
| GamesUrls.TeamClub | tfmkt/spiders/games_urls.py:107-130 | the club object is null exactly when the link, its title or its href is missing or empty; otherwise it holds exactly `type` = club, the title as name, and the href |
| GamesUrls.GameUrlFields | tfmkt/spiders/games_urls.py:142-154 | the yielded dictionary has exactly the eleven item keys: `type` is `game`, then the href, seasoned href, game id and parent of the item |
| GamesUrls.RowItem | tfmkt/spiders/games_urls.py:77-154 | a row is skipped exactly when its href is missing or empty. It raises only when the id is not a number or `base` has no parent. Otherwise it gives an item with the href, base URL + href as seasoned href, the parsed id and the parent |
| GamesUrls.GameItems | tfmkt/spiders/games_urls.py:77-154 | at most one item per row |
| GamesUrls.GameItemsShape | tfmkt/spiders/games_urls.py:77-154 | every item comes from a row with a href and a numeric id; it carries that href, the base URL + href and the given parent |
| GamesUrls.OutputHrefs | tfmkt/spiders/games_urls.py:77-83 | when no row raises, the item hrefs are the non-empty row hrefs, in row order |
| GamesUrls.OutputHrefsOf | tfmkt/spiders/games_urls.py:77-83 | the same for any row step that yields exactly for the rows with a href and keeps that href |
| GamesUrls.GameItemsComplete | tfmkt/spiders/games_urls.py:77-154 | the callback stops early exactly when some row with a href has a non-numeric id, or `base` has no parent; otherwise it yields one item per row with a href, in row order |
| GamesUrls.ExtractGameUrls | tfmkt/spiders/games_urls.py:63-154 | the loop yields what the generator specification of the rows gives |
| GamesByUrl.SavedHrefs | tfmkt/spiders/games_by_url.py:54-59 | an href is saved exactly when some input line has a truthy href and a truthy parent with that href |
| GamesByUrl.SavedLast | tfmkt/spiders/games_by_url.py:54-59 | the parent saved for an href is the one from the last such line that has that href |
| GamesByUrl.SaveParents | tfmkt/spiders/games_by_url.py:55-59 | the reading loop builds exactly the saved-parents map of the lines, in line order |
| GamesByUrl.Restore | tfmkt/spiders/games_by_url.py:72-75 | an entrypoint whose href has a saved parent gets that parent and keeps its other keys; any other entrypoint is unchanged |
| GamesByUrl.ParentRestored | tfmkt/spiders/games_by_url.py:68-75 | when the base spider loads the same lines and drops their parents, the restore undoes that: an entrypoint that was the last kept line with its href comes back exactly as read |
| GamesByUrl.NoParentAdded | tfmkt/spiders/games_by_url.py:72-75 | an entrypoint whose href no kept line has gets no parent back |
| GamesByUrl.GamesByUrlSpider.constructor | tfmkt/spiders/games_by_url.py:25-75 | the parents are saved only when a parents file is named or standard input is piped. The base URL is the one the base spider leaves; there is one entrypoint per entrypoint the base spider leaves, restored from the saved map |
| GamesByUrl.ByUrlBase | tfmkt/spiders/games_by_url.py:90-93 | the base has exactly `parent` (the request's parent, or an empty dictionary) and `href` (the request's href, or None) |
| GamesByUrl.GamesByUrlSpider.Parse | tfmkt/spiders/games_by_url.py:77-96 | the result is the games spider's parse of the page with that base. When the request has a string href, the game id of a parsed game is that href's id; without one the parse raises AttributeError |
| Players.Cleaned | tfmkt/spiders/players.py:19-23 | the entrypoint gets the cleaned href and `seasoned_href` = base URL + cleaned href + `/saison_id/<season>`; every other key is kept |
| Players.CleanEntrypoints | tfmkt/spiders/players.py:18-24 | the entrypoints before the first whose href is not a string are cleaned; that one and the later ones are unchanged; the loop completes exactly when there is none |
| Players.SeasonedRequests | tfmkt/spiders/players.py:26-29 | one request per entrypoint, in order, at its `seasoned_href`, with the entrypoint as `parent` |
| Players.StartRequests | tfmkt/spiders/players.py:11-29 | the spider's base URL, season and gzip flag are unchanged. The entrypoints are updated as the loop updates them. TypeError comes exactly when some href is not a string; otherwise there is one request per updated entrypoint |
| Players.SeasonedUrlCleans | tfmkt/spiders/players.py:20-23 | removing season segments from a requested URL gives back base URL + cleaned href when neither holds a season segment |
| Players.CleanedAgain | tfmkt/spiders/players.py:20-23 | starting again from an updated entrypoint whose cleaned href holds no season segment changes nothing |
| Players.PlayerBase | tfmkt/spiders/players.py:45-51 | the callback base holds exactly `type` = player, the href and the parent |
| Players.Parse | tfmkt/spiders/players.py:31-52 | AssertionError exactly when the page does not have exactly one responsive table; otherwise one request per player link, in order, with its base |
| Players.BeforeParenSpec | tfmkt/spiders/players.py:68 | the date part is the prefix of the text before the first ` (`, or all of it when there is none |
| Players.AgeTextSpec | tfmkt/spiders/players.py:73 | the age part starts right after the last `(` (or at the start) and runs up to the next `)` or the end |
| Players.DateAndAgeOf | tfmkt/spiders/players.py:68-73 | `<date> (<age>)` splits back into exactly that date and that age |
| Players.PersonFields | tfmkt/spiders/players.py:63-76 | the person attributes have exactly their seven keys; last name, number and position are safely stripped |
| Players.CareerFields | tfmkt/spiders/players.py:81-95 | the career attributes have exactly their seven keys; contract end and highest market value are safely stripped |
| Players.ProfileFields | tfmkt/spiders/players.py:63-95 | the shared attributes have exactly the person and career keys |
| Players.CurrentMarketValue | tfmkt/spiders/players.py:92-94 | the stripped div text when it is not blank, else the safely stripped link text; always stripped |
| Players.SocialMedia | tfmkt/spiders/players.py:98-102 | an empty list without the node; otherwise one href per link, in order |
| Players.OtherFields | tfmkt/spiders/players.py:61-105 | the copied attributes are exactly name, player agent, current club and market value history |
| Players.DerivedFields | tfmkt/spiders/players.py:68-108 | the derived attributes are exactly birth date, age, current market value, social media and code |
| Players.Attributes | tfmkt/spiders/players.py:58-108 | the attributes have exactly the twenty-three keys set by `parse_details` |
| Players.ParseDetails | tfmkt/spiders/players.py:54-110 | a page without a birth date raises AttributeError, then a base without href raises KeyError, then the code's error. It succeeds exactly when the birth date, the href and the code are all there, and the record is then the base with the page attributes laid over it |
| Players.PlayerRecord | tfmkt/spiders/players.py:108-110 | the record keeps every base key the page does not set. Birth date, age, market value, social media and code are those of the page |
| PlayersFromFile.DatePart | tfmkt/spiders/players_from_file.py:11-19 | no date exactly when the text is missing or empty |
| PlayersFromFile.DatePartSpec | tfmkt/spiders/players_from_file.py:14-18 | a date is the stripped text up to its first ` (`, a prefix of it holding no ` (` |
| PlayersFromFile.AgeOf | tfmkt/spiders/players_from_file.py:21-29 | an age exactly when the stripped text holds both `(` and `)`; then it is the text after the last `(` up to the next `)` |
| PlayersFromFile.FileDateAndAge | tfmkt/spiders/players_from_file.py:11-29 | `<date> (<age>)` gives back exactly that date and that age |
| PlayersFromFile.DateOfDeath | tfmkt/spiders/players_from_file.py:31-45 | the `Date of death:` text wins when it is non-empty; otherwise the `Died on:` text, cut the same way |
| PlayersFromFile.StatusText | tfmkt/spiders/players_from_file.py:93-125 | the status is one of `active`, `retired`, `deceased` |
| PlayersFromFile.StatusOf | tfmkt/spiders/players_from_file.py:93-116 | deceased exactly when a date of death is found or the club cell shows a placeholder. Retired exactly when neither holds and there is a retired link or text. Active otherwise |
| PlayersFromFile.ClassifyStatus | tfmkt/spiders/players_from_file.py:93-116 | the step-by-step status section gives that status and the date of death; a deceased player without a date shows the placeholder |
| PlayersFromFile.CurrentClub | tfmkt/spiders/players_from_file.py:118-124 | null exactly for a retired or deceased player; otherwise a dictionary holding only the club href |
| PlayersFromFile.StripIfFound | tfmkt/spiders/players_from_file.py:174-193 | None exactly when the text is missing or empty; otherwise the stripped text |
| PlayersFromFile.FileMarketValue | tfmkt/spiders/players_from_file.py:133-157 | no value when the meta description is missing or empty; otherwise the market value read from the stripped description |
| PlayersFromFile.OptReal | tfmkt/spiders/players_from_file.py:157 | a missing amount is null, a found one its number |
| PlayersFromFile.HeadFields | tfmkt/spiders/players_from_file.py:65-91 | the head attributes have exactly their keys, with `type` = player and the parent's href |
| PlayersFromFile.FileDerivedFields | tfmkt/spiders/players_from_file.py:74-171 | the derived attributes are exactly birth date, age, status, current club, market value and code |
| PlayersFromFile.Extras | tfmkt/spiders/players_from_file.py:95-167 | `date_of_death` is set exactly when a date was found, `social_media` exactly when the page has the cell, with one href per link |
| PlayersFromFile.Parse | tfmkt/spiders/players_from_file.py:47-195 | a malformed market value raises first, then a parent without href (KeyError), then the code's error. It succeeds exactly when the market value, the href and the code are all readable, and the record is then the layered attributes of the page |
| PlayersFromFile.FileRecordKeys | tfmkt/spiders/players_from_file.py:65-195 | the record has exactly the fixed keys plus the optional date of death and social media |
| PlayersFromFile.FileRecordHead | tfmkt/spiders/players_from_file.py:65-66 | the record has `type` = player and the parent's href, and no `parent` key |
| PlayersFromFile.FileRecordDerived | tfmkt/spiders/players_from_file.py:74-171 | the derived attributes reach the record unchanged |
| PlayersFromFile.FileRecordExtras | tfmkt/spiders/players_from_file.py:95-167 | the date of death is in the record exactly when found, the social media exactly when the cell exists |
| PlayersFromFile.FileRecordStatus | tfmkt/spiders/players_from_file.py:93-171 | the record holds the status text. There is no current club exactly for a retired or deceased player, and a date of death only for a deceased one. Code, market value and birth date are as read |
| PlayersFromFile.BirthAgrees | tfmkt/spiders/players_from_file.py:11-29 | this spider and the players spider read the same birth date from the same text, and the same age when both parentheses are there |
| Patterns.DigitRunEnd | tfmkt/spiders/clubs_by_url.py:270 | the greedy `\d+` run from `i` holds only digits and stops at the end or at a non-digit |
| Patterns.FirstAtSpec | tfmkt/spiders/clubs_by_url.py:270 | the leftmost search finds a match exactly when there is one, and no match lies before it |
| Patterns.ClubIdFound | tfmkt/spiders/clubs_by_url.py:269-271 | no club id exactly when `/verein/<digits>` matches nowhere; a found id is decimal and follows `/verein/` in the href |
| Patterns.ClubIdOf | tfmkt/spiders/clubs_by_url.py:269-271 | `<p>/verein/<d><q>`, with no match inside `p` and `q` not starting with a digit, has the club id `d` |
| Patterns.PlayerIdFound | tfmkt/spiders/clubs_by_url.py:371-374 | no player id exactly when `/spieler/<digits>` matches nowhere; a found id is decimal and follows `/spieler/` in the link |
| Patterns.PlayerIdOf | tfmkt/spiders/clubs_by_url.py:371-374 | `<p>/spieler/<d><q>` has the player id `d` |
| Patterns.DatumIso | tfmkt/spiders/games_urls.py:89-94 | no date exactly when `/datum/DDDD-DD-DD` matches nowhere; a found date has that shape and follows `/datum/` |
| Patterns.DatumIsoOf | tfmkt/spiders/games_urls.py:89-94 | `<p>/datum/<d><q>` gives the date `d` |
| Patterns.PngNumber | tfmkt/spiders/competitions.py:38-41 | no number exactly when `<digits>.png` (any case) matches nowhere; a found number is decimal and followed by `.` |
| Patterns.PngNumberOf | tfmkt/spiders/competitions.py:38-41 | a flag URL `<p><d>.png…` with no match inside `p` gives `d` |
| Patterns.SlugOf | tfmkt/spiders/clubs_by_url.py:273-280 | every href of the start-page shape `/<slug>/startseite/verein/<digits>[/…]` gives its slug |
| Patterns.SlugShapeOf | tfmkt/spiders/clubs_by_url.py:273-280 | whatever gives a slug has the start-page shape with that slug |
| Patterns.RemoveSaison | tfmkt/spiders/players.py:20 | deleting season segments never lengthens the text |
| Patterns.RemoveSaisonPrefix | tfmkt/spiders/players.py:20 | a prefix in which no match starts is kept |
| Patterns.RemoveSaisonNoMatch | tfmkt/spiders/players.py:20 | a text with no `/saison_id/<digits>` is left unchanged |
| Patterns.RemoveSaisonSegment | tfmkt/spiders/players.py:20 | a `/saison_id/<digits>` segment is deleted up to the end of its digit run |
| Patterns.RemoveSaisonNotIdempotent | tfmkt/spiders/players.py:20 | one pass does not always remove every segment: `/saison_id/saison_id/1/2` becomes `/saison_id/2`, which a second pass empties |
| Patterns.RemoveSaisonClean | tfmkt/spiders/clubs_by_url.py:160 | when no segment starts right after a letter of `/saison_id` (no overlapping segments), one pass leaves no `/saison_id/<digits>` at all |
| Patterns.SeasonAppendedOnce | tfmkt/spiders/clubs_by_url.py:160-161 | under the same condition, the cleaned, slash-stripped head followed by `/saison_id/<digits>` holds exactly one such segment, at the end of the head |
| Urls.NetlocEnd | tfmkt/spiders/clubs_by_url.py:96 | the netloc runs up to the first `/`, `?` or `#` |
| Urls.UrlParse | tfmkt/spiders/clubs_by_url.py:96 | `urlparse` cuts the cleaned URL; the only parse error modelled is the ValueError of an unmatched bracket in the netloc |
| Urls.LStripControl | tfmkt/spiders/clubs_by_url.py:96 | the leading C0 controls and spaces are dropped and nothing else: the rest is a suffix that starts with neither |
| Urls.RemoveUnsafe | tfmkt/spiders/clubs_by_url.py:96 | the result holds no tab, carriage return or line feed, is never longer, and is the text itself when it held none |
| Urls.CleanUrl | tfmkt/spiders/clubs_by_url.py:96 | the cleaned URL holds no tab, carriage return or line feed and does not start with a control or space; a URL already so is unchanged |
| Urls.CleanUrlIdempotent | tfmkt/spiders/clubs_by_url.py:96 | cleaning twice is cleaning once, so a URL and its cleaned form parse alike |
| Urls.RemoveUnsafeAppend | tfmkt/spiders/clubs_by_url.py:96 | removing tabs and line breaks distributes over concatenation |
| Urls.CleanKeepsPrefix | tfmkt/spiders/clubs_by_url.py:95-96 | a clean prefix such as `https://` survives cleaning, and only tabs and line breaks leave the rest |
| Urls.HttpPathRooted | tfmkt/spiders/clubs_by_url.py:95-97 | the path of an `http`/`https` URL is empty or starts with `/` |
| Urls.UrlParseRelative | tfmkt/spiders/clubs_by_url.py:346-348 | a site-relative href without query, fragment, params, tab or line break is all path |
| Urls.UrlParseAbsolute | tfmkt/spiders/clubs_by_url.py:95-97 | `<scheme>://<host><path>` without query, fragment, tab or line break parses to that scheme, host and path |
| Urls.PathCode | tfmkt/spiders/players.py:108 | the code fails with the parse error or, when the path has no `/`, with IndexError; otherwise it is the decoded first path segment |
| Urls.PathCodeRelative | tfmkt/spiders/players.py:108 | the code of `/<seg>/…` is the decoded `<seg>` |
| Strings.LStrip | tfmkt/spiders/common.py:106-110 | the left strip is a suffix of the text: it drops only whitespace and starts with a non-space |
| Strings.RStrip | tfmkt/spiders/common.py:106-110 | the right strip is a prefix of the text: it drops only whitespace and ends with a non-space |
| Strings.Strip | tfmkt/spiders/common.py:106-110 | a stripped text has no whitespace at either end and is no longer than the text |
| Strings.StripIsInfix | tfmkt/spiders/common.py:106-110 | the stripped text occurs in the text, with only whitespace dropped on either side |
| Strings.StripKeepsOut | tfmkt/spiders/clubs_by_url.py:396-397 | stripping adds no character the text did not hold |
| Strings.StripOfPadded | tfmkt/spiders/common.py:106-110 | a stripped text padded with whitespace strips back to itself |
| Strings.StripIdempotent | tfmkt/spiders/common.py:106-110 | stripping twice is stripping once |
| Strings.RStripChar | tfmkt/spiders/clubs_by_url.py:97-99 | `rstrip(c)` keeps a prefix, drops only `c`, and leaves no trailing `c` |
| Strings.RStripCharIdempotent | tfmkt/spiders/clubs_by_url.py:97-99 | stripping `c` twice is stripping it once |
| Strings.FindSpec | tfmkt/spiders/clubs_by_url.py:145-154 | `find` gives -1 exactly when the pattern does not occur; otherwise an occurrence with none before it |
| Strings.Split | tfmkt/spiders/games.py:211 | `split` gives at least one piece |
| Strings.JoinSplit | tfmkt/spiders/games.py:211 | joining the pieces of a split with its separator gives the text back |
| Strings.SplitHead | tfmkt/spiders/games.py:211 | the first piece is the text before the first separator, or all of it |
| Strings.SplitTail | tfmkt/spiders/clubs_by_url.py:346 | there are two pieces or more exactly when the separator occurs; the later pieces are the split of what follows the first separator |
| Strings.Partition | tfmkt/spiders/clubs_by_url.py:396 | without the separator: the text and ""; with it, the text is head + separator + tail, with the head before the first separator |
| Strings.ReplaceAllIsSplitJoin | tfmkt/spiders/games.py:241 | replacing every occurrence is splitting at the pattern and joining with the replacement |
| Strings.ReplaceAllAbsent | tfmkt/spiders/games.py:241 | replacing an absent pattern changes nothing |
| Strings.ReplaceAllPrefix | tfmkt/spiders/games.py:241 | a prefix in which no occurrence starts is kept |
| Strings.ReplaceAllIntroduces | tfmkt/spiders/clubs_by_url.py:150-155 | replacing a pattern that occurs leaves the replacement in the text |
| Strings.Lower | tfmkt/spiders/clubs_by_url.py:44 | lower-casing keeps the length and maps each character |
| Strings.NatToString | tfmkt/spiders/clubs_by_url.py:161 | a number is written in decimal, with a leading zero only for 0 |
| Strings.NatToStringValue | tfmkt/spiders/clubs_by_url.py:161 | the digits written for a number read back as that number |
| Strings.ParseIntDecimal | tfmkt/spiders/games_urls.py:86 | `int()` of decimal digits is their value |
| Strings.ParseIntSignedDecimal | tfmkt/spiders/games.py:84-86 | `int()` of a signed decimal is its value with the sign applied |
| Strings.IntToStringRoundTrip | tfmkt/spiders/clubs_by_url.py:161 | `int(str(i)) == i` for every integer |
| TextPatterns.TimeIn | tfmkt/spiders/games.py:228-232 | no time exactly when `\d{1,2}:\d{2}` matches nowhere |
| TextPatterns.TimeInSpec | tfmkt/spiders/games.py:228-232 | a time found is stripped, occurs in the text, starts with a clock time, and begins at the first position where one matches |
| TextPatterns.HalftimeScore | tfmkt/spiders/games.py:267-269 | no score exactly when `\(?\d+:\d+\)?` matches nowhere |
| TextPatterns.HalftimeScoreSpec | tfmkt/spiders/games.py:266-269 | a score found has the `<digits>:<digits>` shape, occurs in the text, and is the group of the first match |
| TextPatterns.HalftimeFirst | tfmkt/spiders/games.py:266-269 | when the first match is at k, the score is the `<digits>:<digits>` group of that match |
| TextPatterns.TimeInFirst | tfmkt/spiders/games.py:228-232 | when the first clock time starts at k, the time is the text from k to the end of that match, stripped |
| TextPatterns.HalftimeOf | tfmkt/spiders/games.py:267-269 | `a:b…` and `(a:b…` give the score `a:b` |
| TextPatterns.ParseSignedDecimal | tfmkt/spiders/games.py:84-86 | `int()` of a captured `[-+]?[0-9]+` group is its signed value |
| TextPatterns.StyleOffsetsOf | tfmkt/spiders/games.py:80-87 | a style `background-position: <x>px <y>px;…` is read back as the offsets x and y |
| TextPatterns.MarketGroup | tfmkt/spiders/players_from_file.py:138 | no group exactly when `Market value: €[\d.]+[km]?` matches nowhere |
| TextPatterns.MarketGroupShape | tfmkt/spiders/players_from_file.py:138 | a captured group is the euro sign, digits and dots, and possibly one `k` or `m` |
| TextPatterns.MarketValueUnscaled | tfmkt/spiders/players_from_file.py:136-157 | no match, or a group without `k` or `m`, gives no market value |
| TextPatterns.MarketValueThousands | tfmkt/spiders/players_from_file.py:149-150 | a group ending in `k` is the amount times 1000, or ValueError when the amount is not a number |
| TextPatterns.MarketValueMillions | tfmkt/spiders/players_from_file.py:152-153 | a group ending in `m` is the amount times 1000000, or ValueError when the amount is not a number |
| TextPatterns.MarketValueWhole | tfmkt/spiders/players_from_file.py:142-153 | a whole number of thousands or millions is the digits times 1000 or 1000000 |
| Generators.Collect | tfmkt/spiders/games_urls.py:77-154 | a generator over a list yields at most one item per element |
| Generators.CollectSpec | tfmkt/spiders/games_urls.py:77-154 | the generator stops early exactly when some element raises. What it yields is a prefix of the items of all elements, and all of them when nothing raises |
| Generators.CollectSound | tfmkt/spiders/games_urls.py:77-154 | every yielded item is the item of some element |
| Generators.CollectEach | tfmkt/spiders/clubs_by_url.py:401-405 | when every element gives an item, there is one item per element, in order |
| Generators.CollectInOrder | tfmkt/spiders/games.py:126-148 | when no element is skipped, the items yielded before the stop are those of the first elements, in order |
| Generators.CollectLoop | tfmkt/spiders/competitions.py:22-59 | the loop yields what the generator specification gives |
| Generators.MapAllSpec | tfmkt/spiders/games.py:72-124 | the appended list is built exactly when no element raises, and then holds one value per element; otherwise the error is that of an element |
| Generators.MapAllLoop | tfmkt/spiders/games.py:72-124 | the appending loop gives the list specification |
| Generators.FirstWhere | tfmkt/spiders/games.py:225-233 | the first index satisfying the test: none before it, and it satisfies the test unless it is the end |
| Generators.EvenIndices | tfmkt/spiders/competitions.py:91-113 | the indices a loop stepping by 2 visits: one per pair, each even and below the bound |
| Generators.StrideLoop | tfmkt/spiders/competitions.py:91-113 | the loop over every second row yields what the generator specification of those indices gives |
| Values.OptStr | tfmkt/spiders/common.py:106-110 | a missing text is null, a found one its string |
| Values.Get | tfmkt/spiders/games_by_url.py:73 | `d.get(k)` is the value under `k`, or null when the key is missing |
| Values.Index | tfmkt/spiders/games_urls.py:153 | `d[k]` is the value under `k`, or KeyError naming `k` |
| Values.Merge | tfmkt/spiders/players.py:110 | `{**base, **attributes}` has the keys of both; attributes win on collision |
| Values.Pop | tfmkt/spiders/clubs_by_url.py:454 | `pop(k, None)` removes `k` and keeps every other entry |

## Left out

- The network and Scrapy itself are not modelled. This covers CSS/XPath evaluation, `response.follow`, `Request` objects and callbacks. Selector results are inputs, and a request is its URL and `base`.
- Logging is not modelled, nor the `try/except` guards around logger calls. This includes `_errback_*` and `_body_preview` in tfmkt/spiders/clubs_by_url.py:68-89.
- Reading the parents file is not modelled: stdin, plain and gzip files, and JSON decoding of each line (`read_lines`, the file branches of `games_by_url.__init__`). The model starts from the decoded list of entrypoints; `Common.GzipFlag` covers only the choice of opener.
- `tfmkt.spiders.common_comp_club.BaseSpider` is not part of this model. It is the base of the `clubs`, `games` and `games_urls` spiders, and so of `clubs_by_url` and `games_by_url` too. What its initialisation leaves is a parameter of the constructors that run it: the base URL, the entrypoints and, for `clubs_by_url`, any season it assigns. Its `safe_strip` is taken to behave like the one in tfmkt/spiders/common.py:106-110.
- ClubsByUrl.ClubsByUrlSpider.constructor: the base spider runs after the season is parsed (tfmkt/spiders/clubs_by_url.py:45-47). Whether it overwrites the season is a parameter. A base that assigns a default season, as tfmkt/spiders/common.py:52-56 does, would replace the parsed season. A base that assigns a season which is not an integer is not modelled either; tfmkt/spiders/clubs_by_url.py:157-163 would then keep the season-free path and swallow the error of `int()`.
- GamesByUrl.GamesByUrlSpider.constructor: the base URL and entrypoints the base spider leaves are parameters. Its gzip flag and season are not fields of this spider.
- Common.BaseSpider.constructor: starts from the loaded parents list. The Exception that `scrape_parents` raises when no parents path is given, standard input is a terminal and `SCRAPY_CHECK` is unset (tfmkt/spiders/common.py:37-45, 58-62) is stated by `Common.ScrapeParents` alone, not by the constructor.
- GamesByUrl.SavedParents: the saved map is keyed by the modelled values. Python raises TypeError for an unhashable list or dictionary href (tfmkt/spiders/games_by_url.py:59, 65, 74) and treats `1`, `1.0` and `True` as one key; neither is modelled.
- GamesByUrl.ParentRestored: applies only when the base spider loads the same lines. With piped input the pre-read loop (tfmkt/spiders/games_by_url.py:61-66) has already consumed standard input, so a base that reads it again finds nothing.
- ClubsByUrl.SeasonArgument: the season is command-line text. A season passed as a Python `int` by other code is not modelled.
- Common.Render: how `str()` writes a float or a non-empty list or dictionary is an abstract function `repr`.
- `tfmkt.utils.background_position_in_px_to_minute` is not part of this model. The game-event minute is an abstract function `minuteOf` of the two sprite offsets.
- `inflection.parameterize` and `inflection.underscore` are not part of this model. The competition type key is an abstract function `tierKey` of the tier name.
- `urllib.parse.unquote` is not part of this model and is passed in as a function. `urlparse` is modelled as three steps: its cleaning (leading C0 controls and spaces stripped, tabs, carriage returns and line feeds removed), its split into scheme, netloc, path, params, query and fragment, and its unbalanced-bracket `ValueError`. Its NFKC check of non-ASCII netlocs, the check that a bracketed host is a valid IPv6 or IPvFuture address (Python 3.11.4 and later, e.g. `http://[abc]/x` raises ValueError there), and its caching are not modelled.
- Market values are exact reals (`real`), not IEEE doubles, so `float(x) * 1000` rounding is not modelled.
- `parse_market_history` in tfmkt/spiders/players.py:112-124 relies on JSON decoding and `unicode_escape` from library code. Its result is an input of the player page.
- `\d`, `str.isdigit`, `str.lower` and `int()` are modelled over ASCII. Python's Unicode digit and case tables are not part of this model.
- Exceptions are reduced to their kind: `AttributeError`, `TypeError`, `IndexError`, `KeyError` (with its key), `ValueError` (with its text), `AssertionError` and a generic `Exception`. Other messages and tracebacks are dropped.
- Dictionary key order is not modelled, and so neither is the order of keys in the emitted JSON.
- Several entrypoints sharing one dictionary object (aliasing) are not modelled. Each entrypoint is a separate value, so an in-place update of one entry touches no other entry.
- game_lineups, the analysis scripts and the live-site test scripts are not part of this model. They are exploration code that prints and asserts nothing.
