/**
 * The games spider: the game links of the fixtures page, and the game
 * record read from a game page (clubs, date and time, venue, referee,
 * scores, events, line-ups and managers). The competition page callback
 * is the one of the games_urls spider, `GamesUrls.Parse`.
 */
module Games {
  import opened Values
  import opened Strings
  import opened TextPatterns
  import opened Common
  import opened Generators
  import opened GamesUrls

  // ---------------------------------------------------------------------
  // Fixtures page: one request per game link
  // ---------------------------------------------------------------------

  /** The callback keywords of a game request: the parent of `base` and the
      game link's href. */
  function GameContext(parent: Value, href: string): (r: Record)
    ensures r.Keys == {"base"} && r["base"].Dict?
    ensures r["base"].fields == map["parent" := parent, "href" := Str(href)]
  {
    map["base" := Dict(map["parent" := parent, "href" := Str(href)])]
  }

  /** One game link: its request, KeyError when `base` has no parent, and
      ValueError when the link has no href. */
  function GameLinkRequest(href: Option<string>, base: Record): (r: Result<Option<Request>>)
  {
    var parent :- Index(base, "parent");
    if href.None? then Err(NoUrl)
    else Ok(Some(Request(href.value, GameContext(parent, href.value))))
  }

  /** The requests `extract_game_urls` yields before it stops. */
  function GameRequests(hrefs: seq<Option<string>>, base: Record): Yielded<Request> {
    Collect(hrefs, href => GameLinkRequest(href, base))
  }

  /** One request per game link, in order, each for the link's href and
      carrying the parent of `base`; a `base` without parent stops the
      generator at the first link, a link without href stops it there. */
  lemma GameRequestsSpec(hrefs: seq<Option<string>>, base: Record)
    ensures var y := GameRequests(hrefs, base);
      && (y.failure.None? <==> hrefs == [] || ("parent" in base && forall i :: 0 <= i < |hrefs| ==> hrefs[i].Some?))
      && (hrefs != [] && "parent" !in base ==> y == Yielded([], Some(KeyError("parent"))))
      && (y.failure.None? ==> |y.items| == |hrefs|)
      && (forall i :: 0 <= i < |y.items| ==>
            && i < |hrefs| && hrefs[i].Some? && y.items[i].url == hrefs[i].value
            && "parent" in base && y.items[i].context == GameContext(base["parent"], hrefs[i].value))
  {
    var step := href => GameLinkRequest(href, base);
    var y := GameRequests(hrefs, base);
    CollectSpec(hrefs, step);
    if "parent" in base && forall i :: 0 <= i < |hrefs| ==> hrefs[i].Some? {
      CollectEach(hrefs, step);
    }
    if hrefs != [] && "parent" !in base {
      assert step(hrefs[0]).Err?;
    }
    CollectInOrder(hrefs, step);
  }

  /** `extract_game_urls`. */
  method ExtractGameUrls(hrefs: seq<Option<string>>, base: Record) returns (out: Yielded<Request>)
    ensures out == GameRequests(hrefs, base)
  {
    out := CollectLoop(hrefs, href => GameLinkRequest(href, base));
  }

  // ---------------------------------------------------------------------
  // Game page: events
  // ---------------------------------------------------------------------

  /** One `div.sb-aktion` of an events box, as the spider reads it: the
      style and text of the clock sprite, the player link, the club link
      title and href, the score, the action box's own text nodes, the
      texts naming a substitution's outgoing player, the incoming player's
      link and the hrefs of the action box's own links. */
  datatype EventElement = EventElement(
    style: Option<string>,
    clockText: Option<string>,
    playerHref: Option<string>,
    clubName: Option<string>,
    clubHref: Option<string>,
    score: Option<string>,
    actionTexts: seq<string>,
    swapTexts: seq<string>,
    playerInHref: Option<string>,
    actionHrefs: seq<string>)

  /** One event of the game. */
  datatype GameEvent = GameEvent(
    kind: string,
    minute: int,
    extra: Option<int>,
    playerHref: Option<string>,
    clubName: Option<string>,
    clubHref: Option<string>,
    result: Option<string>,
    description: Option<string>,
    playerInHref: Option<string>,
    assistHref: Option<string>)

  /** The heading of the box that holds the events of a kind. */
  function Headline(kind: string): string {
    if kind == "Shootout" then "Penalty shoot-out" else kind
  }

  /** The minute of an event and the text of its extra time, read from the
      clock sprite: a missing style raises TypeError (`re.match` on None), a
      style without the two pixel offsets AttributeError, a missing text
      TypeError (`len(None)`). The minute is what the offsets map to. */
  function SpriteClock(e: EventElement, minuteOf: (int, int) -> int): (r: Result<(int, string)>)
    ensures r.Ok? <==> e.style.Some? && StyleOffsets(e.style.value).Some? && e.clockText.Some?
    ensures r.Ok? ==>
      var xy := StyleOffsets(e.style.value).value;
      r.value == (minuteOf(xy.0, xy.1), SafeStrip(e.clockText).value)
  {
    if e.style.None? then Err(TypeError)
    else
      match StyleOffsets(e.style.value)
      case None => Err(AttributeError)
      case Some(xy) =>
        var text := SafeStrip(e.clockText);
        if text.None? then Err(TypeError) else Ok((minuteOf(xy.0, xy.1), text.value))
  }

  /** The extra minute: none for a text of at most one character, else the
      number it spells (ValueError when it does not). */
  function ExtraMinute(text: string): (r: Result<Option<int>>)
    ensures |text| <= 1 ==> r == Ok(None)
    ensures |text| > 1 ==> (r.Ok? <==> ParseInt(text).Some?)
    ensures r.Ok? && |text| > 1 ==> r.value == ParseInt(text)
  {
    if |text| <= 1 then Ok(None)
    else
      match ParseInt(text)
      case None => Err(ValueError(text))
      case Some(n) => Ok(Some(n))
  }

  function StripEach(ts: seq<string>): (r: seq<string>)
    ensures |r| == |ts| && forall i :: 0 <= i < |ts| ==> r[i] == Strip(ts[i])
  {
    seq(|ts|, i requires 0 <= i < |ts| => Strip(ts[i]))
  }

  /** The goal, card or substitution text: the action box's own texts,
      stripped and joined; when that is empty, the outgoing player's texts
      joined. */
  function Description(e: EventElement): (r: Option<string>)
  {
    var own := Strip(Join(StripEach(e.actionTexts), " "));
    SafeStrip(Some(if own != [] then own else Strip(Join(e.swapTexts, " "))))
  }

  /** The assisting player: the second link of the action box, if any. */
  function Assist(hrefs: seq<string>): (r: Option<string>)
    ensures r.Some? <==> |hrefs| > 1
    ensures r.Some? ==> r.value == hrefs[1]
  {
    if |hrefs| > 1 then Some(hrefs[1]) else None
  }

  /** One event of a kind. A shoot-out kick has no clock: its minute is -1
      and it has no extra time. */
  function EventOf(kind: string, e: EventElement, minuteOf: (int, int) -> int): (r: Result<GameEvent>)
  {
    var clock :- if kind == "Shootout" then Ok((-1, "")) else SpriteClock(e, minuteOf);
    var extra :- ExtraMinute(clock.1);
    Ok(GameEvent(kind, clock.0, extra, e.playerHref, e.clubName, e.clubHref,
                 SafeStrip(e.score), Description(e), e.playerInHref, Assist(e.actionHrefs)))
  }

  /** An event has the kind it was read for; a shoot-out kick has minute -1
      and no extra time and never raises; any other event has the minute its
      sprite offsets map to and extra time exactly when the stripped clock
      text is longer than one character; the assist is the second action
      link. */
  lemma EventOfSpec(kind: string, e: EventElement, minuteOf: (int, int) -> int)
    ensures var r := EventOf(kind, e, minuteOf);
      && (kind == "Shootout" ==> r.Ok? && r.value.minute == -1 && r.value.extra.None?)
      && (kind != "Shootout" && r.Ok? ==>
            && e.style.Some? && StyleOffsets(e.style.value).Some?
            && r.value.minute == minuteOf(StyleOffsets(e.style.value).value.0, StyleOffsets(e.style.value).value.1)
            && e.clockText.Some?
            && (r.value.extra.Some? <==> |SafeStrip(e.clockText).value| > 1))
      && (kind != "Shootout" && SpriteClock(e, minuteOf).Err? ==> r.Err?)
      && (r.Ok? ==> r.value.kind == kind && (r.value.assistHref.Some? <==> |e.actionHrefs| > 1))
  {
    if kind != "Shootout" {
      var c := SpriteClock(e, minuteOf);
      if c.Ok? {
        var x := ExtraMinute(c.value.1);
        assert x.Ok? ==> (x.value.Some? <==> |c.value.1| > 1);
      }
    }
  }

  /** The event elements under the heading of a kind (none when the page
      has no such box). */
  function EventsUnder(boxes: map<string, seq<EventElement>>, kind: string): seq<EventElement> {
    if Headline(kind) in boxes then boxes[Headline(kind)] else []
  }

  /** The events of one kind, in page order; the first element that raises
      makes the whole list raise. */
  function EventsOf(boxes: map<string, seq<EventElement>>, kind: string, minuteOf: (int, int) -> int): Result<seq<GameEvent>> {
    MapAll(EventsUnder(boxes, kind), e => EventOf(kind, e, minuteOf))
  }

  /** Without exception, one event per element, each of the kind asked for;
      otherwise the exception of the first element that raises. */
  lemma EventsOfSpec(boxes: map<string, seq<EventElement>>, kind: string, minuteOf: (int, int) -> int)
    ensures var r := EventsOf(boxes, kind, minuteOf); var elems := EventsUnder(boxes, kind);
      && (r.Ok? <==> forall i :: 0 <= i < |elems| ==> EventOf(kind, elems[i], minuteOf).Ok?)
      && (r.Ok? ==> |r.value| == |elems|
                    && forall i :: 0 <= i < |elems| ==> EventOf(kind, elems[i], minuteOf) == Ok(r.value[i]))
      && (r.Err? ==> exists i :: 0 <= i < |elems| && EventOf(kind, elems[i], minuteOf) == Err(r.error)
                                && forall j :: 0 <= j < i ==> EventOf(kind, elems[j], minuteOf).Ok?)
  {
    var elems := EventsUnder(boxes, kind);
    var f := e => EventOf(kind, e, minuteOf);
    MapAllSpec(elems, f);
    if MapAll(elems, f).Err? {
      var k := FirstWhere(elems, x => f(x).Err?, 0);
      assert forall j :: 0 <= j < k ==> !f(elems[j]).Err?;
    }
  }

  /** `extract_game_events`. */
  method ExtractGameEvents(boxes: map<string, seq<EventElement>>, kind: string, minuteOf: (int, int) -> int)
    returns (r: Result<seq<GameEvent>>)
    ensures r == EventsOf(boxes, kind, minuteOf)
  {
    r := MapAllLoop(EventsUnder(boxes, kind), e => EventOf(kind, e, minuteOf));
  }

  /** The position of a kind in the events list. */
  function KindRank(kind: string): nat {
    if kind == "Goals" then 0
    else if kind == "Substitutions" then 1
    else if kind == "Cards" then 2
    else 3
  }

  /** The events of the game: goals, then substitutions, then cards, then
      the penalty shoot-out; the first kind that raises makes it raise. */
  function AllEvents(boxes: map<string, seq<EventElement>>, minuteOf: (int, int) -> int): Result<seq<GameEvent>> {
    var goals :- EventsOf(boxes, "Goals", minuteOf);
    var substitutions :- EventsOf(boxes, "Substitutions", minuteOf);
    var cards :- EventsOf(boxes, "Cards", minuteOf);
    var shootout :- EventsOf(boxes, "Shootout", minuteOf);
    Ok(goals + substitutions + cards + shootout)
  }

  lemma EventsOfKind(boxes: map<string, seq<EventElement>>, kind: string, minuteOf: (int, int) -> int)
    requires EventsOf(boxes, kind, minuteOf).Ok?
    ensures var es := EventsOf(boxes, kind, minuteOf).value;
      forall i :: 0 <= i < |es| ==> es[i].kind == kind && (kind == "Shootout" ==> es[i].minute == -1)
  {
    EventsOfSpec(boxes, kind, minuteOf);
    var es := EventsOf(boxes, kind, minuteOf).value;
    forall i | 0 <= i < |es|
      ensures es[i].kind == kind && (kind == "Shootout" ==> es[i].minute == -1)
    {
      EventOfSpec(kind, EventsUnder(boxes, kind)[i], minuteOf);
    }
  }

  /** The events come grouped by kind in the fixed order goals,
      substitutions, cards, shoot-out, and every shoot-out kick has minute
      -1. */
  lemma AllEventsOrdered(boxes: map<string, seq<EventElement>>, minuteOf: (int, int) -> int)
    requires AllEvents(boxes, minuteOf).Ok?
    ensures var es := AllEvents(boxes, minuteOf).value;
      && (forall i :: 0 <= i < |es| ==> es[i].kind in {"Goals", "Substitutions", "Cards", "Shootout"})
      && (forall i, j :: 0 <= i < j < |es| ==> KindRank(es[i].kind) <= KindRank(es[j].kind))
      && (forall i :: 0 <= i < |es| && es[i].kind == "Shootout" ==> es[i].minute == -1)
  {
    EventsOfKind(boxes, "Goals", minuteOf);
    EventsOfKind(boxes, "Substitutions", minuteOf);
    EventsOfKind(boxes, "Cards", minuteOf);
    EventsOfKind(boxes, "Shootout", minuteOf);
    SegmentsOrdered(
      EventsOf(boxes, "Goals", minuteOf).value, EventsOf(boxes, "Substitutions", minuteOf).value,
      EventsOf(boxes, "Cards", minuteOf).value, EventsOf(boxes, "Shootout", minuteOf).value);
  }

  /** All of `es` are events of `kind`. */
  predicate AllOfKind(es: seq<GameEvent>, kind: string) {
    forall i :: 0 <= i < |es| ==> es[i].kind == kind
  }

  /** Four runs of goals, substitutions, cards and shoot-out kicks, in this
      order, are ordered by kind. */
  lemma SegmentsOrdered(g: seq<GameEvent>, s: seq<GameEvent>, c: seq<GameEvent>, h: seq<GameEvent>)
    requires AllOfKind(g, "Goals") && AllOfKind(s, "Substitutions") && AllOfKind(c, "Cards")
    requires AllOfKind(h, "Shootout") && forall i :: 0 <= i < |h| ==> h[i].minute == -1
    ensures var es := g + s + c + h;
      && (forall i :: 0 <= i < |es| ==> es[i].kind in {"Goals", "Substitutions", "Cards", "Shootout"})
      && (forall i, j :: 0 <= i < j < |es| ==> KindRank(es[i].kind) <= KindRank(es[j].kind))
      && (forall i :: 0 <= i < |es| && es[i].kind == "Shootout" ==> es[i].minute == -1)
  {
    var es := g + s + c + h;
    forall i | 0 <= i < |es|
      ensures KindRank(es[i].kind) == SegmentRank(i, |g|, |s|, |c|)
      ensures es[i].kind == "Shootout" ==> i >= |g| + |s| + |c|
    {
      if i < |g| {
        assert es[i] == g[i];
      } else if i < |g| + |s| {
        assert es[i] == s[i - |g|];
      } else if i < |g| + |s| + |c| {
        assert es[i] == c[i - |g| - |s|];
      } else {
        assert es[i] == h[i - |g| - |s| - |c|];
      }
    }
  }

  /** The rank of the kind whose events occupy position `i`. */
  function SegmentRank(i: nat, g: nat, s: nat, c: nat): nat {
    if i < g then 0 else if i < g + s then 1 else if i < g + s + c then 2 else 3
  }

  // ---------------------------------------------------------------------
  // Game page: line-ups
  // ---------------------------------------------------------------------

  /** A lineup box: the starters' name links (text and href) and, per bench
      row that is not the manager's, the player link of its second cell
      (title and href) or None when that cell has no link. */
  datatype LineupSection = LineupSection(starters: seq<TeamLink>, bench: seq<Option<TeamLink>>)

  datatype LineupPlayer = LineupPlayer(name: string, href: string)

  /** A player is listed when the stripped name and the href are both
      non-empty. */
  function LineupEntry(link: TeamLink): (r: Result<Option<LineupPlayer>>)
    ensures r.Ok?
    ensures r.value.Some? <==> SafeStrip(link.title).Some? && SafeStrip(link.title).value != []
                               && link.href.Some? && link.href.value != []
    ensures r.value.Some? ==> r.value.value == LineupPlayer(Strip(link.title.value), link.href.value)
  {
    var name := SafeStrip(link.title);
    if name.Some? && name.value != [] && link.href.Some? && link.href.value != [] then
      Ok(Some(LineupPlayer(name.value, link.href.value)))
    else Ok(None)
  }

  function BenchEntry(row: Option<TeamLink>): (r: Result<Option<LineupPlayer>>)
    ensures r.Ok?
  {
    if row.None? then Ok(None) else LineupEntry(row.value)
  }

  /** Every listed player has a stripped, non-empty name and a non-empty
      href, and came from a link of the list. */
  predicate WellFormed(players: seq<LineupPlayer>) {
    forall i :: 0 <= i < |players| ==>
      players[i].name != [] && IsStripped(players[i].name) && players[i].href != []
  }

  /** `extract_starting_lineup`. */
  method ExtractStartingLineup(section: LineupSection) returns (players: seq<LineupPlayer>)
    ensures players == Collect(section.starters, LineupEntry).items
  {
    var y := CollectLoop(section.starters, LineupEntry);
    players := y.items;
  }

  /** `extract_substitutes`. */
  method ExtractSubstitutes(section: LineupSection) returns (players: seq<LineupPlayer>)
    ensures players == Collect(section.bench, BenchEntry).items
  {
    var y := CollectLoop(section.bench, BenchEntry);
    players := y.items;
  }

  /** The starters keep every link that has a name and a href, in order,
      and nothing else; so do the substitutes among the bench rows with a
      player link. */
  lemma LineupSpec(section: LineupSection)
    ensures Collect(section.starters, LineupEntry).failure.None?
    ensures Collect(section.starters, LineupEntry).items == Outputs(section.starters, LineupEntry)
    ensures WellFormed(Collect(section.starters, LineupEntry).items)
    ensures Collect(section.bench, BenchEntry).items == Outputs(section.bench, BenchEntry)
    ensures WellFormed(Collect(section.bench, BenchEntry).items)
  {
    CollectSpec(section.starters, LineupEntry);
    CollectSpec(section.bench, BenchEntry);
    var a := Collect(section.starters, LineupEntry).items;
    forall k | 0 <= k < |a| ensures a[k].name != [] && IsStripped(a[k].name) && a[k].href != [] {
      CollectSound(section.starters, LineupEntry, k);
    }
    var b := Collect(section.bench, BenchEntry).items;
    forall k | 0 <= k < |b| ensures b[k].name != [] && IsStripped(b[k].name) && b[k].href != [] {
      CollectSound(section.bench, BenchEntry, k);
    }
  }

  /** The four line-ups: home starters and substitutes from the first
      box, away ones from the second; all empty with fewer than two boxes. */
  datatype Lineups = Lineups(
    homeStarting: seq<LineupPlayer>, homeSubstitutes: seq<LineupPlayer>,
    awayStarting: seq<LineupPlayer>, awaySubstitutes: seq<LineupPlayer>)

  function LineupsOf(sections: seq<LineupSection>): (r: Lineups)
    ensures |sections| < 2 ==> r == Lineups([], [], [], [])
    ensures |sections| >= 2 ==>
      && r.homeStarting == Outputs(sections[0].starters, LineupEntry)
      && r.homeSubstitutes == Outputs(sections[0].bench, BenchEntry)
      && r.awayStarting == Outputs(sections[1].starters, LineupEntry)
      && r.awaySubstitutes == Outputs(sections[1].bench, BenchEntry)
    ensures WellFormed(r.homeStarting) && WellFormed(r.homeSubstitutes)
    ensures WellFormed(r.awayStarting) && WellFormed(r.awaySubstitutes)
  {
    if |sections| >= 2 then
      LineupSpec(sections[0]);
      LineupSpec(sections[1]);
      Lineups(Collect(sections[0].starters, LineupEntry).items, Collect(sections[0].bench, BenchEntry).items,
              Collect(sections[1].starters, LineupEntry).items, Collect(sections[1].bench, BenchEntry).items)
    else Lineups([], [], [], [])
  }

  // ---------------------------------------------------------------------
  // Game page: the game record
  // ---------------------------------------------------------------------

  /** A club box: its first link's href and its position text. */
  datatype ClubBox = ClubBox(href: Option<string>, position: Option<string>)

  /** The date-and-time box: its text nodes, and the text and href of its
      `datum` link. */
  datatype DateBox = DateBox(texts: seq<string>, dateText: Option<string>, dateHref: Option<string>)

  /** The second child node of the venue box: its stadium link text and its
      attendance text. */
  datatype Venue = Venue(stadium: Option<string>, attendance: Option<string>)

  /** A game page as the spider reads it. A club box, the date box or the
      venue's second node that is not there is None (indexing it raises
      IndexError). The referee is the venue box's referee link (title and
      href), the managers are the manager rows' links (text and href), the
      event boxes are keyed by their heading. */
  datatype GamePage = GamePage(
    home: Option<ClubBox>,
    away: Option<ClubBox>,
    dateBox: Option<DateBox>,
    venue: Option<Venue>,
    referee: Option<TeamLink>,
    endResult: Option<string>,
    halftimeTexts: seq<string>,
    managers: seq<TeamLink>,
    eventBoxes: map<string, seq<EventElement>>,
    lineups: seq<LineupSection>)

  /** A referee or manager: name and href as read. */
  datatype Person = Person(name: Option<string>, href: Option<string>)

  datatype Game = Game(
    gameId: int,
    homeHref: Option<string>, homePosition: Option<string>,
    awayHref: Option<string>, awayPosition: Option<string>,
    result: Option<string>, halftime: Option<string>,
    matchday: string, date: Option<string>, dateIso: Option<string>, kickoff: Option<string>,
    stadium: Option<string>, attendance: Option<string>, referee: Option<Person>,
    events: seq<GameEvent>, lineups: Lineups, managers: Option<(Person, Person)>)

  /** `x[0]` of a selection: IndexError when it is empty. */
  function Indexed<T>(o: Option<T>): (r: Result<T>)
    ensures r.Ok? <==> o.Some?
    ensures r.Ok? ==> r.value == o.value
    ensures r.Err? ==> r.error == IndexError
  {
    if o.Some? then Ok(o.value) else Err(IndexError)
  }

  /** `int(base['href'].split('/')[-1])`: KeyError without a href, and a
      href that is not text has no `split`. */
  function BaseGameId(base: Record): (r: Result<int>)
    ensures "href" !in base ==> r == Err(KeyError("href"))
    ensures "href" in base && !base["href"].Str? ==> r == Err(AttributeError)
    ensures "href" in base && base["href"].Str? ==> r == GameId(base["href"].s)
  {
    var href :- Index(base, "href");
    if href.Str? then GameId(href.s) else Err(AttributeError)
  }

  /** The date box's texts that are not blank once stripped. */
  function TextElements(texts: seq<string>): (r: seq<string>)
    ensures forall i :: 0 <= i < |r| ==> Strip(r[i]) != []
    ensures |r| <= |texts|
  {
    if texts == [] then []
    else (if Strip(texts[0]) != [] then [texts[0]] else []) + TextElements(texts[1..])
  }

  /** The matchday: the first text, stripped, up to its first double space. */
  function Matchday(texts: seq<string>): (r: Result<string>)
    ensures r.Ok? <==> texts != []
    ensures r.Err? ==> r.error == IndexError
  {
    if texts == [] then Err(IndexError) else Ok(Split(Strip(texts[0]), "  ")[0])
  }

  /** The matchday is the first text's stripped head: nothing after it but
      what followed a double space. */
  lemma MatchdaySpec(texts: seq<string>)
    requires texts != []
    ensures var m := Matchday(texts).value; var t := Strip(texts[0]);
      && StartsWith(t, m)
      && (Contains(t, "  ") ==> |m| + 2 <= |t| && t[|m|..|m| + 2] == "  " && !Contains(m, "  "))
      && (!Contains(t, "  ") ==> m == t)
  {
    var t := Strip(texts[0]);
    assert Matchday(texts) == Ok(Split(t, "  ")[0]);
    SplitHeadShape(t, "  ");
  }

  /** Whether a date-box text holds a clock time. */
  predicate HasTime(t: string) { TimeIn(Strip(t)).Some? }

  /** The kick-off time: the time found in the first text that has one. */
  function Kickoff(texts: seq<string>): (r: Option<string>)
  {
    var k := FirstWhere(texts, HasTime, 0);
    if k < |texts| then TimeIn(Strip(texts[k])) else None
  }

  /** The kick-off time is absent exactly when no text holds a time, and
      otherwise is the time of a text before which none holds one. */
  lemma KickoffSpec(texts: seq<string>)
    ensures Kickoff(texts).None? <==> forall j :: 0 <= j < |texts| ==> !HasTime(texts[j])
    ensures Kickoff(texts).Some? ==>
      exists k :: 0 <= k < |texts| && Kickoff(texts) == TimeIn(Strip(texts[k]))
        && forall j :: 0 <= j < k ==> !HasTime(texts[j])
  {
    var k := FirstWhere(texts, HasTime, 0);
    if k < |texts| {
      assert HasTime(texts[k]) && Kickoff(texts) == TimeIn(Strip(texts[k]));
      assert forall j :: 0 <= j < k ==> !HasTime(texts[j]);
    } else {
      assert Kickoff(texts) == None;
    }
  }

  /** The kick-off loop: stops at the first text holding a time. */
  method FindKickoff(texts: seq<string>) returns (r: Option<string>)
    ensures r == Kickoff(texts)
  {
    var i := 0;
    while i < |texts|
      invariant 0 <= i <= |texts|
      invariant FirstWhere(texts, HasTime, 0) == FirstWhere(texts, HasTime, i)
    {
      var time := TimeIn(Strip(texts[i]));
      if time.Some? {
        return time;
      }
      i := i + 1;
    }
    return None;
  }

  const AttendancePrefix := "Attendance: "

  /** The attendance text without its `Attendance: ` label; None for a
      missing or empty text. */
  function Attendance(raw: Option<string>): (r: Option<string>)
    ensures r.Some? <==> raw.Some? && Strip(raw.value) != []
  {
    var a := SafeStrip(raw);
    if a.Some? && a.value != [] then Some(ReplaceAll(a.value, AttendancePrefix, "")) else None
  }

  /** A labelled count loses its label and keeps the count. */
  lemma AttendanceOf(count: string)
    requires IsDecimal(count)
    ensures Attendance(Some(AttendancePrefix + count)) == Some(count)
  {
    var s := AttendancePrefix + count;
    assert !IsSpace(s[0]) && IsDigit(s[|s| - 1]);
    StripStripped(s);
    DigitsHaveNoLabel(count);
    ReplaceAllPrefixLabel(count);
  }

  /** Digits never hold the label. */
  lemma DigitsHaveNoLabel(count: string)
    requires AllDigits(count)
    ensures !Contains(count, AttendancePrefix)
  {
    forall i | 0 <= i <= |count| - |AttendancePrefix| ensures !OccursAt(count, AttendancePrefix, i) {
      assert IsDigit(count[i]) && AttendancePrefix[0] == 'A';
    }
  }

  lemma ReplaceAllPrefixLabel(count: string)
    requires !Contains(count, AttendancePrefix)
    ensures ReplaceAll(AttendancePrefix + count, AttendancePrefix, "") == count
  {
    ReplaceAllAbsent(count, AttendancePrefix, "");
    var s := AttendancePrefix + count;
    assert s[..|AttendancePrefix|] == AttendancePrefix;
  }

  /** The referee: present when the link is there and its stripped title is
      not empty. */
  function RefereeOf(link: Option<TeamLink>): (r: Option<Person>)
    ensures r.Some? <==> link.Some? && SafeStrip(link.value.title).Some? && SafeStrip(link.value.title).value != []
    ensures r.Some? ==> r.value == Person(SafeStrip(link.value.title), link.value.href)
  {
    if link.None? then None
    else
      var name := SafeStrip(link.value.title);
      if name.Some? && name.value != [] then Some(Person(name, link.value.href)) else None
  }

  /** `\(?\d+:\d+` matches somewhere in `t`. */
  predicate HasScore(t: string) {
    exists i :: 0 <= i < |t| && HalftimeAt(t, i)
  }

  /** The half-time score: the first score in the joined half-time texts. */
  function Halftime(texts: seq<string>): (r: Option<string>)
    ensures texts == [] ==> r.None?
    ensures texts != [] ==> r == HalftimeScore(SafeStrip(Some(Join(texts, ""))).value)
    ensures r.Some? <==> (texts != [] && HasScore(SafeStrip(Some(Join(texts, ""))).value))
    ensures r.Some? ==> IsScore(r.value)
  {
    if texts == [] then None
    else
      var h := HalftimeScore(SafeStrip(Some(Join(texts, ""))).value);
      if h.Some? then HalftimeScoreSpec(SafeStrip(Some(Join(texts, ""))).value); h else h
  }

  /** The managers: only when there are exactly two manager rows, the first
      for the home club and the second for the away club. */
  function Managers(rows: seq<TeamLink>): (r: Option<(Person, Person)>)
    ensures r.Some? <==> |rows| == 2
    ensures r.Some? ==>
      && r.value.0.href == rows[0].href && r.value.1.href == rows[1].href
      && r.value.0.name == SafeStrip(rows[0].title) && r.value.1.name == SafeStrip(rows[1].title)
  {
    if |rows| == 2 then
      Some((Person(SafeStrip(rows[0].title), rows[0].href), Person(SafeStrip(rows[1].title), rows[1].href)))
    else None
  }

  /** `parse_game` as a value: the first exception raised, in source order,
      or the game. */
  function GameOf(page: GamePage, base: Record, minuteOf: (int, int) -> int): Result<Game> {
    var id :- BaseGameId(base);
    var home :- Indexed(page.home);
    var away :- Indexed(page.away);
    var dates :- Indexed(page.dateBox);
    var texts := TextElements(dates.texts);
    var matchday :- Matchday(texts);
    var venue :- Indexed(page.venue);
    var events :- AllEvents(page.eventBoxes, minuteOf);
    Ok(Game(id, home.href, home.position, away.href, away.position,
            SafeStrip(page.endResult), Halftime(page.halftimeTexts),
            matchday, SafeStrip(dates.dateText), DateIso(dates.dateHref), Kickoff(texts),
            SafeStrip(venue.stadium), Attendance(venue.attendance), RefereeOf(page.referee),
            events, LineupsOf(page.lineups), Managers(page.managers)))
  }

  /** `parse_game`, with its loops. */
  method ParseGameFields(page: GamePage, base: Record, minuteOf: (int, int) -> int) returns (r: Result<Game>)
    ensures r == GameOf(page, base, minuteOf)
    ensures BaseGameId(base).Err? ==> r == Err(BaseGameId(base).error)
    ensures r.Ok? ==>
      && BaseGameId(base) == Ok(r.value.gameId)
      && AllEvents(page.eventBoxes, minuteOf) == Ok(r.value.events)
      && r.value.lineups == LineupsOf(page.lineups)
      && r.value.managers == Managers(page.managers)
  {
    var id :- BaseGameId(base);
    var home :- Indexed(page.home);
    var away :- Indexed(page.away);
    var dates :- Indexed(page.dateBox);
    var texts := TextElements(dates.texts);
    var matchday :- Matchday(texts);
    var kickoff := FindKickoff(texts);
    var venue :- Indexed(page.venue);
    var goals :- ExtractGameEvents(page.eventBoxes, "Goals", minuteOf);
    var substitutions :- ExtractGameEvents(page.eventBoxes, "Substitutions", minuteOf);
    var cards :- ExtractGameEvents(page.eventBoxes, "Cards", minuteOf);
    var shootout :- ExtractGameEvents(page.eventBoxes, "Shootout", minuteOf);
    var lineups := Lineups([], [], [], []);
    if |page.lineups| >= 2 {
      var hs := ExtractStartingLineup(page.lineups[0]);
      var hb := ExtractSubstitutes(page.lineups[0]);
      var aw := ExtractStartingLineup(page.lineups[1]);
      var ab := ExtractSubstitutes(page.lineups[1]);
      lineups := Lineups(hs, hb, aw, ab);
    }
    r := Ok(Game(id, home.href, home.position, away.href, away.position,
                 SafeStrip(page.endResult), Halftime(page.halftimeTexts),
                 matchday, SafeStrip(dates.dateText), DateIso(dates.dateHref), kickoff,
                 SafeStrip(venue.stadium), Attendance(venue.attendance), RefereeOf(page.referee),
                 goals + substitutions + cards + shootout, lineups, Managers(page.managers)));
  }

  // ---------------------------------------------------------------------
  // The game record as a dictionary
  // ---------------------------------------------------------------------

  function HrefValue(href: Option<string>): Value { Dict(map["href" := OptStr(href)]) }

  function EventValue(e: GameEvent): Value {
    Dict(map[
      "type" := Str(e.kind),
      "minute" := Int(e.minute),
      "extra" := if e.extra.Some? then Int(e.extra.value) else Null,
      "player" := HrefValue(e.playerHref),
      "club" := Dict(map["name" := OptStr(e.clubName), "href" := OptStr(e.clubHref)]),
      "action" := Dict(map[
        "result" := OptStr(e.result),
        "description" := OptStr(e.description),
        "player_in" := HrefValue(e.playerInHref),
        "player_assist" := HrefValue(e.assistHref)])])
  }

  function PlayerValue(p: LineupPlayer): Value {
    Dict(map["name" := Str(p.name), "href" := Str(p.href)])
  }

  function PersonValue(p: Person): Value {
    Dict(map["name" := OptStr(p.name), "href" := OptStr(p.href)])
  }

  function ClubValue(href: Option<string>): Value {
    Dict(map["type" := Str("club"), "href" := OptStr(href)])
  }

  function ListOf<T>(xs: seq<T>, f: T -> Value): (r: seq<Value>)
    ensures |r| == |xs|
  {
    seq(|xs|, i requires 0 <= i < |xs| => f(xs[i]))
  }

  /** The keys of the game's scalar fields. */
  const HeaderKeys: set<string> := {
    "type", "game_id", "home_club", "home_club_position", "away_club", "away_club_position",
    "result", "halftime_score", "matchday", "date"
  }

  /** The keys of the venue, referee, events and line-up fields. */
  const DetailKeys: set<string> := {
    "date_iso", "kickoff_time", "stadium", "attendance", "referee", "events",
    "home_starting_lineup", "home_substitutes", "away_starting_lineup", "away_substitutes"
  }

  const GameKeys: set<string> := DetailKeys + HeaderKeys

  function HeaderFields(g: Game): (r: Record)
    ensures r.Keys == HeaderKeys
    ensures r["type"] == Str("game") && r["game_id"] == Int(g.gameId)
  {
    map[
      "type" := Str("game"),
      "game_id" := Int(g.gameId),
      "home_club" := ClubValue(g.homeHref),
      "home_club_position" := OptStr(g.homePosition),
      "away_club" := ClubValue(g.awayHref),
      "away_club_position" := OptStr(g.awayPosition),
      "result" := OptStr(g.result),
      "halftime_score" := OptStr(g.halftime),
      "matchday" := Str(g.matchday),
      "date" := OptStr(g.date)]
  }

  function RefereeValue(referee: Option<Person>): Value {
    if referee.Some? then PersonValue(referee.value) else Null
  }

  function DetailFields(g: Game): (r: Record)
    ensures r.Keys == DetailKeys
  {
    map[
      "date_iso" := OptStr(g.dateIso),
      "kickoff_time" := OptStr(g.kickoff),
      "stadium" := OptStr(g.stadium),
      "attendance" := OptStr(g.attendance),
      "referee" := RefereeValue(g.referee),
      "events" := List(ListOf(g.events, EventValue)),
      "home_starting_lineup" := List(ListOf(g.lineups.homeStarting, PlayerValue)),
      "home_substitutes" := List(ListOf(g.lineups.homeSubstitutes, PlayerValue)),
      "away_starting_lineup" := List(ListOf(g.lineups.awayStarting, PlayerValue)),
      "away_substitutes" := List(ListOf(g.lineups.awaySubstitutes, PlayerValue))]
  }

  /** The game fields of the yielded dictionary, one key each. */
  function GameFields(g: Game): (r: Record)
    ensures r.Keys == GameKeys
    ensures r["type"] == Str("game") && r["game_id"] == Int(g.gameId)
  {
    Merge(DetailFields(g), HeaderFields(g))
  }

  /** The yielded dictionary: `base` overridden by the game fields, and the
      two manager entries when there are managers. */
  function GameRecord(base: Record, g: Game): (r: Record)
  {
    WithManagers(Merge(base, GameFields(g)), g.managers)
  }

  /** The manager entries set on a dictionary, when there are managers. */
  function WithManagers(item: Record, managers: Option<(Person, Person)>): (r: Record)
    ensures managers.None? ==> r == item
    ensures managers.Some? ==>
      && r.Keys == item.Keys + {"home_manager", "away_manager"}
      && r["home_manager"] == PersonValue(managers.value.0)
      && r["away_manager"] == PersonValue(managers.value.1)
    ensures forall k :: k in item && k != "home_manager" && k != "away_manager" ==> r[k] == item[k]
  {
    if managers.Some? then
      item["home_manager" := PersonValue(managers.value.0)]["away_manager" := PersonValue(managers.value.1)]
    else item
  }

  /** The record is a game with its id; the manager entries are added
      exactly when there are two managers (otherwise whatever `base` held
      under those names stays); every other key of `base` keeps its value. */
  lemma GameRecordSpec(base: Record, g: Game)
    ensures var r := GameRecord(base, g);
      && r["type"] == Str("game") && r["game_id"] == Int(g.gameId)
      && (g.managers.Some? ==>
            && r.Keys == base.Keys + GameKeys + {"home_manager", "away_manager"}
            && r["home_manager"] == PersonValue(g.managers.value.0)
            && r["away_manager"] == PersonValue(g.managers.value.1))
      && (g.managers.None? ==> r.Keys == base.Keys + GameKeys)
      && (forall k :: k in base && k !in GameKeys && k != "home_manager" && k != "away_manager" ==> r[k] == base[k])
  {
    var item := Merge(base, GameFields(g));
    assert "type" != "home_manager" && "type" != "away_manager";
    assert "game_id" != "home_manager" && "game_id" != "away_manager";
    assert item["type"] == Str("game") && item["game_id"] == Int(g.gameId);
  }

  /** `parse_game`: the yielded record, or the exception that ends the
      callback before it yields. */
  method ParseGame(page: GamePage, base: Record, minuteOf: (int, int) -> int) returns (r: Result<Record>)
    ensures GameOf(page, base, minuteOf).Err? ==> r == Err(GameOf(page, base, minuteOf).error)
    ensures GameOf(page, base, minuteOf).Ok? ==> r == Ok(GameRecord(base, GameOf(page, base, minuteOf).value))
    ensures r.Ok? ==>
      && BaseGameId(base).Ok? && r.value["game_id"] == Int(BaseGameId(base).value)
      && r.value["type"] == Str("game")
  {
    var g :- ParseGameFields(page, base, minuteOf);
    GameRecordSpec(base, g);
    r := Ok(GameRecord(base, g));
  }
}
