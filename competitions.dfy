/**
 * The competitions spider: one request per country of a confederation
 * page, and the domestic league records of a country's competitions page.
 */
module Competitions {
  import opened Values
  import opened Strings
  import opened Patterns
  import opened Common
  import opened Generators
  import opened GamesUrls

  // ---------------------------------------------------------------------
  // Confederation page: one request per country
  // ---------------------------------------------------------------------

  /** A country row of the confederation table: how many `td` cells it
      has, how many cells the inner table of its first cell has, the flag's
      `src` and `title`, the href of the country link, and the texts of the
      count columns (None when a selector finds nothing). */
  datatype CountryRow = CountryRow(
    cellCount: nat,
    innerCellCount: nat,
    flagUrl: Option<string>,
    flagTitle: Option<string>,
    countryHref: Option<string>,
    totalClubs: Option<string>,
    totalPlayers: Option<string>,
    averageAge: Option<string>,
    foreignerPercentage: Option<string>,
    totalValue: Option<string>)

  const NationalPath := "/wettbewerbe/national/wettbewerbe/"

  /** The callback context of a country request, field by field. */
  datatype CountryBase = CountryBase(
    parent: Value,
    countryId: string,
    countryName: Value,
    countryCode: string,
    totalClubs: Value,
    totalPlayers: Value,
    averageAge: Value,
    foreignerPercentage: Value,
    totalValue: Value)

  /** The `base` dictionary of a country request. */
  function BaseFields(b: CountryBase): (r: Record)
    ensures r.Keys == {"parent", "country_id", "country_name", "country_code", "total_clubs",
                       "total_players", "average_age", "foreigner_percentage", "total_value"}
    ensures r["parent"] == b.parent && r["country_id"] == Str(b.countryId)
    ensures r["country_code"] == Str(b.countryCode) && r["country_name"] == b.countryName
  {
    map["parent" := b.parent, "country_id" := Str(b.countryId), "country_name" := b.countryName,
        "country_code" := Str(b.countryCode), "total_clubs" := b.totalClubs,
        "total_players" := b.totalPlayers, "average_age" := b.averageAge,
        "foreigner_percentage" := b.foreignerPercentage, "total_value" := b.totalValue]
  }

  /** The base of the request for a country row whose flag gives `id`:
      the flag title as name and the last segment of the country link as
      code. */
  function CountryBaseOf(row: CountryRow, parent: Value, id: string): (b: CountryBase)
    requires row.countryHref.Some?
    ensures b.parent == parent && b.countryId == id
    ensures b.countryCode == LastSegment(row.countryHref.value)
    ensures b.countryName == OptStr(row.flagTitle)
  {
    CountryBase(parent, id, OptStr(row.flagTitle), LastSegment(row.countryHref.value),
                OptStr(row.totalClubs), OptStr(row.totalPlayers), OptStr(row.averageAge),
                OptStr(row.foreignerPercentage), OptStr(row.totalValue))
  }

  /** The request for a country's national competitions page. */
  function CountryRequest(baseUrl: string, b: CountryBase): (r: Request)
    ensures r.url == baseUrl + NationalPath + b.countryId
    ensures r.context.Keys == {"base"} && r.context["base"] == Dict(BaseFields(b))
  {
    Request(baseUrl + NationalPath + b.countryId, map["base" := Dict(BaseFields(b))])
  }

  /** A country row raises: it has fewer than two cells, the inner table
      of its first cell has fewer than two cells, the country link has no
      href, or the flag has no `src`. */
  predicate CountryRaises(row: CountryRow) {
    row.cellCount < 2 || row.innerCellCount < 2 || row.countryHref.None? || row.flagUrl.None?
  }

  /** What one country row gives: an IndexError when the row has fewer
      than two cells (the flag cell is indexed first) or the inner table of
      its first cell has fewer than two cells, an AttributeError when the
      country link has no href (it is split before anything else is
      checked), a TypeError when the flag has no `src`, nothing when the
      flag URL has no `<digits>.png`, and otherwise the request for the
      country's competitions page. */
  function CountryStep(row: CountryRow, parent: Value, baseUrl: string): (r: Result<Option<Request>>)
    ensures r.Err? <==> CountryRaises(row)
    ensures row.cellCount < 2 ==> r == Err(IndexError)
    ensures row.cellCount >= 2 && row.innerCellCount < 2 ==> r == Err(IndexError)
    ensures row.cellCount >= 2 && row.innerCellCount >= 2 && row.countryHref.None? ==> r == Err(AttributeError)
    ensures row.cellCount >= 2 && row.innerCellCount >= 2 && row.countryHref.Some? && row.flagUrl.None? ==>
      r == Err(TypeError)
    ensures r == Ok(None) <==> !CountryRaises(row) && PngNumber(row.flagUrl.value).None?
  {
    if row.cellCount < 2 then Err(IndexError)
    else if row.innerCellCount < 2 then Err(IndexError)
    else if row.countryHref.None? then Err(AttributeError)
    else if row.flagUrl.None? then Err(TypeError)
    else
      match PngNumber(row.flagUrl.value)
      case None => Ok(None)
      case Some(id) => Ok(Some(CountryRequest(baseUrl, CountryBaseOf(row, parent, id))))
  }

  /** `parse`: the requests of the country rows in order, up to the first
      row that raises. */
  method Parse(rows: seq<CountryRow>, parent: Value, baseUrl: string) returns (out: Yielded<Request>)
    ensures out == Collect(rows, row => CountryStep(row, parent, baseUrl))
    ensures |out.items| <= |rows|
  {
    out := CollectLoop(rows, row => CountryStep(row, parent, baseUrl));
  }

  /** Every request goes to the national competitions page of a country
      whose flag URL holds `<id>.png`, with that id, the country link's last
      segment as code and the confederation as parent in its base. */
  lemma CountryRequestShape(rows: seq<CountryRow>, parent: Value, baseUrl: string, k: nat)
    requires k < |Collect(rows, row => CountryStep(row, parent, baseUrl)).items|
    ensures var req := Collect(rows, row => CountryStep(row, parent, baseUrl)).items[k];
      exists i, id :: 0 <= i < |rows| && !CountryRaises(rows[i])
        && PngNumber(rows[i].flagUrl.value) == Some(id)
        && IsDecimal(id) && Contains(rows[i].flagUrl.value, id + ".")
        && req.url == baseUrl + NationalPath + id
        && req.context.Keys == {"base"}
        && req.context["base"] == Dict(BaseFields(CountryBaseOf(rows[i], parent, id)))
  {
    var step := row => CountryStep(row, parent, baseUrl);
    CollectSound(rows, step, k);
    var req := Collect(rows, step).items[k];
    var i :| 0 <= i < |rows| && step(rows[i]) == Ok(Some(req));
    var id := PngNumber(rows[i].flagUrl.value).value;
    assert req == CountryRequest(baseUrl, CountryBaseOf(rows[i], parent, id));
  }

  /** The generator stops early exactly when some row is short of cells,
      lacks the country link's href or lacks the flag's `src`; otherwise
      every row with a `<digits>.png` flag gives one request, in row order. */
  lemma CountryFailure(rows: seq<CountryRow>, parent: Value, baseUrl: string)
    ensures var out := Collect(rows, row => CountryStep(row, parent, baseUrl));
      && (out.failure.Some? <==>
            exists i :: 0 <= i < |rows| && CountryRaises(rows[i]))
      && out.items <= Outputs(rows, row => CountryStep(row, parent, baseUrl))
  {
    var step := row => CountryStep(row, parent, baseUrl);
    CollectSpec(rows, step);
    if Raises(rows, step) {
      var i :| 0 <= i < |rows| && step(rows[i]).Err?;
      assert CountryStep(rows[i], parent, baseUrl).Err?;
    }
    if exists i :: 0 <= i < |rows| && CountryRaises(rows[i]) {
      var i :| 0 <= i < |rows| && CountryRaises(rows[i]);
      assert step(rows[i]).Err?;
    }
  }

  /** A country link `<path>/<code>` has `code` as country code. */
  lemma CountryCodeOf(path: string, code: string)
    requires '/' !in code
    ensures LastSegment(path + "/" + code) == code
  {
    var s := path + "/" + code;
    SplitLast(s, '/');
    var last := LastSegment(s);
    assert s[|path|] == '/';
    assert s[|s| - |code|..] == code;
  }

  /** A flag URL `<prefix><digits>.png` with no earlier match gives a
      request to the national page of `<digits>`. */
  lemma CountryRequestOf(row: CountryRow, parent: Value, baseUrl: string, p: string, d: string, q: string)
    requires row.cellCount >= 2 && row.innerCellCount >= 2
    requires row.countryHref.Some? && row.flagUrl == Some(p + d + q)
    requires IsDecimal(d)
    requires |q| >= 4 && q[0] == '.' && LowerChar(q[1]) == 'p' && LowerChar(q[2]) == 'n' && LowerChar(q[3]) == 'g'
    requires forall i :: 0 <= i < |p| ==> !PngAt(p + d + q, i)
    ensures CountryStep(row, parent, baseUrl).Ok?
    ensures CountryStep(row, parent, baseUrl).value.Some?
    ensures CountryStep(row, parent, baseUrl).value.value.url == baseUrl + NationalPath + d
  {
    PngNumberOf(p, d, q);
  }

  // ---------------------------------------------------------------------
  // Country page: the domestic league records
  // ---------------------------------------------------------------------

  /** A row of the domestic table: the text of its cell, and the first link
      href of each cell of its inner table. */
  datatype BoxRow = BoxRow(tierText: Option<string>, linkCells: seq<Option<string>>)

  /** A `div.box`: its headline text, and the rows of its table body (None
      when it has no `tbody`). */
  datatype Box = Box(header: Option<string>, body: Option<seq<BoxRow>>)

  const DomesticTag := "Domestic leagues & cups"

  predicate IsDomestic(b: Box) { SafeStrip(b.header) == Some(DomesticTag) }

  /** The search loop with `break`: the index of the first domestic box, or
      the number of boxes when there is none. */
  method FindDomesticBox(boxes: seq<Box>) returns (k: nat)
    ensures k == FirstWhere(boxes, IsDomestic, 0)
    ensures k <= |boxes|
    ensures k < |boxes| ==> IsDomestic(boxes[k]) && forall j :: 0 <= j < k ==> !IsDomestic(boxes[j])
    ensures k == |boxes| ==> forall j :: 0 <= j < |boxes| ==> !IsDomestic(boxes[j])
  {
    k := 0;
    while k < |boxes|
      invariant k <= |boxes|
      invariant FirstWhere(boxes, IsDomestic, 0) == FirstWhere(boxes, IsDomestic, k)
    {
      if SafeStrip(boxes[k].header) == Some(DomesticTag) {
        break;
      }
      k := k + 1;
    }
  }

  /** `td/text()` of a tier row, or the empty text. */
  function TierName(text: Option<string>): (r: string)
    ensures text.Some? && text.value != [] ==> r == text.value
    ensures text.None? ==> r == []
  {
    if text.Some? && text.value != [] then text.value else ""
  }

  predicate IsCup(tier: string) { tier == "Domestic Cup" || tier == "Domestic Super Cup" }

  /** A competition record: `type` first, then the base, then the tier key
      and the link. */
  function CompetitionRecord(base: Record, competitionType: string, href: string): (r: Record)
    ensures r.Keys == base.Keys + {"type", "competition_type", "href"}
    ensures r["competition_type"] == Str(competitionType) && r["href"] == Str(href)
    ensures r["type"] == (if "type" in base then base["type"] else Str("competition"))
    ensures forall k :: k in base && k != "competition_type" && k != "href" ==> r[k] == base[k]
  {
    Merge(Merge(map["type" := Str("competition")], base),
          map["competition_type" := Str(competitionType), "href" := Str(href)])
  }

  /** What the pair starting at row `idx` gives: nothing for a cup tier or a
      tier row with no link row after it, an IndexError when the link row's
      inner table has fewer than two cells, nothing when the second cell has
      no link, and otherwise the record of the tier. */
  function PairStep(rows: seq<BoxRow>, base: Record, tierKey: string -> string, idx: nat): Result<Option<Record>>
  {
    if idx + 1 >= |rows| then Ok(None)
    else
      var tier := TierName(rows[idx].tierText);
      if IsCup(tier) then Ok(None)
      else
        var cells := rows[idx + 1].linkCells;
        if |cells| < 2 then Err(IndexError)
        else if cells[1].Some? && cells[1].value != [] then
          Ok(Some(CompetitionRecord(base, tierKey(tier), cells[1].value)))
        else Ok(None)
  }

  /** A pair raises exactly when its tier is not a cup, a link row
      follows, and the link row has fewer than two inner cells; a record
      comes only from such a pair whose second cell has a link. */
  lemma PairStepSpec(rows: seq<BoxRow>, base: Record, tierKey: string -> string, idx: nat)
    ensures PairStep(rows, base, tierKey, idx).Err? <==>
      idx + 1 < |rows| && !IsCup(TierName(rows[idx].tierText)) && |rows[idx + 1].linkCells| < 2
    ensures var r := PairStep(rows, base, tierKey, idx);
      r.Ok? && r.value.Some? ==>
        && idx + 1 < |rows|
        && !IsCup(TierName(rows[idx].tierText))
        && |rows[idx + 1].linkCells| >= 2
        && rows[idx + 1].linkCells[1].Some? && rows[idx + 1].linkCells[1].value != []
        && r.value.value == CompetitionRecord(base, tierKey(TierName(rows[idx].tierText)),
                                              rows[idx + 1].linkCells[1].value)
  {
  }

  /** `PairStep` as the step of the pair loop. */
  function PairSteps(rows: seq<BoxRow>, base: Record, tierKey: string -> string): nat -> Result<Option<Record>> {
    (idx: nat) => PairStep(rows, base, tierKey, idx)
  }

  /** What the pair loop yields over `rows`. */
  function PairRecords(rows: seq<BoxRow>, base: Record, tierKey: string -> string): Yielded<Record> {
    Collect(EvenIndices(|rows|), PairSteps(rows, base, tierKey))
  }

  /** The pair loop: `idx` starts at 0 and advances by 2. */
  method PairLoop(rows: seq<BoxRow>, base: Record, tierKey: string -> string) returns (out: Yielded<Record>)
    ensures out == PairRecords(rows, base, tierKey)
  {
    out := StrideLoop(|rows|, PairSteps(rows, base, tierKey));
  }

  /** What `parse_competitions` yields: nothing when no box is domestic, an
      IndexError when the first domestic box has no table body, and
      otherwise what the pair loop yields over its rows. */
  function CompetitionsOf(boxes: seq<Box>, base: Record, tierKey: string -> string): (r: Yielded<Record>)
    ensures (forall j :: 0 <= j < |boxes| ==> !IsDomestic(boxes[j])) ==> r == Yielded([], None)
  {
    var k := FirstWhere(boxes, IsDomestic, 0);
    if k == |boxes| then Yielded([], None)
    else match boxes[k].body
      case None => Yielded([], Some(IndexError))
      case Some(rows) => PairRecords(rows, base, tierKey)
  }

  /** `parse_competitions`. */
  method ParseCompetitions(boxes: seq<Box>, base: Record, tierKey: string -> string) returns (out: Yielded<Record>)
    ensures out == CompetitionsOf(boxes, base, tierKey)
  {
    var k := FindDomesticBox(boxes);
    if k == |boxes| {
      return Yielded([], None);
    }
    match boxes[k].body {
      case None =>
        return Yielded([], Some(IndexError));
      case Some(rows) =>
        out := PairLoop(rows, base, tierKey);
    }
  }

  /** Records come only from the first domestic box, and only when it has
      a table body. */
  lemma CompetitionsFromBox(boxes: seq<Box>, base: Record, tierKey: string -> string)
    ensures var k := FirstWhere(boxes, IsDomestic, 0);
      CompetitionsOf(boxes, base, tierKey).items != [] ==>
        && k < |boxes| && IsDomestic(boxes[k])
        && (forall j :: 0 <= j < k ==> !IsDomestic(boxes[j]))
        && boxes[k].body.Some?
        && CompetitionsOf(boxes, base, tierKey) == PairRecords(boxes[k].body.value, base, tierKey)
  {
  }

  /** At most one record per pair of rows, that is `ceil(n / 2)`; each
      comes from a tier row at an even index that is not a cup and is
      followed by a link row whose second inner cell has a link, and is
      the record of that tier and link. */
  lemma PairRecordShape(rows: seq<BoxRow>, base: Record, tierKey: string -> string, m: nat)
    requires m < |PairRecords(rows, base, tierKey).items|
    ensures |PairRecords(rows, base, tierKey).items| <= (|rows| + 1) / 2
    ensures exists idx ::
      && 0 <= idx && idx + 1 < |rows| && idx % 2 == 0
      && !IsCup(TierName(rows[idx].tierText))
      && |rows[idx + 1].linkCells| >= 2
      && rows[idx + 1].linkCells[1].Some? && rows[idx + 1].linkCells[1].value != []
      && PairRecords(rows, base, tierKey).items[m]
         == CompetitionRecord(base, tierKey(TierName(rows[idx].tierText)), rows[idx + 1].linkCells[1].value)
  {
    var step := PairSteps(rows, base, tierKey);
    var pairs := EvenIndices(|rows|);
    CollectSound(pairs, step, m);
    var rec := PairRecords(rows, base, tierKey).items[m];
    var i :| 0 <= i < |pairs| && step(pairs[i]) == Ok(Some(rec));
    var idx := pairs[i];
    assert PairStep(rows, base, tierKey, idx) == Ok(Some(rec));
    PairStepSpec(rows, base, tierKey, idx);
    var cell := rows[idx + 1].linkCells[1].value;
    assert idx % 2 == 0 && rec == CompetitionRecord(base, tierKey(TierName(rows[idx].tierText)), cell);
  }

  /** Some non-cup tier row is followed by a link row with fewer than two
      inner cells. */
  predicate HasShortLinkRow(rows: seq<BoxRow>) {
    exists idx :: 0 <= idx && idx + 1 < |rows| && idx % 2 == 0
      && !IsCup(TierName(rows[idx].tierText)) && |rows[idx + 1].linkCells| < 2
  }

  /** The pair loop stops early exactly when some non-cup tier row is
      followed by a link row with fewer than two inner cells; otherwise it
      yields the records of all pairs in row order. */
  lemma PairFailure(rows: seq<BoxRow>, base: Record, tierKey: string -> string)
    ensures PairRecords(rows, base, tierKey).failure.Some? <==> HasShortLinkRow(rows)
    ensures PairRecords(rows, base, tierKey).items
      <= Outputs(EvenIndices(|rows|), PairSteps(rows, base, tierKey))
  {
    CollectSpec(EvenIndices(|rows|), PairSteps(rows, base, tierKey));
    if Raises(EvenIndices(|rows|), PairSteps(rows, base, tierKey)) {
      PairRaisesOnShortRow(rows, base, tierKey);
    }
    if HasShortLinkRow(rows) {
      ShortRowRaises(rows, base, tierKey);
    }
  }

  lemma PairRaisesOnShortRow(rows: seq<BoxRow>, base: Record, tierKey: string -> string)
    requires Raises(EvenIndices(|rows|), PairSteps(rows, base, tierKey))
    ensures HasShortLinkRow(rows)
  {
    var pairs := EvenIndices(|rows|);
    var i :| 0 <= i < |pairs| && PairSteps(rows, base, tierKey)(pairs[i]).Err?;
    assert pairs[i] == 2 * i;
    PairStepSpec(rows, base, tierKey, 2 * i);
  }

  lemma ShortRowRaises(rows: seq<BoxRow>, base: Record, tierKey: string -> string)
    requires HasShortLinkRow(rows)
    ensures Raises(EvenIndices(|rows|), PairSteps(rows, base, tierKey))
  {
    var pairs := EvenIndices(|rows|);
    var idx :| 0 <= idx && idx + 1 < |rows| && idx % 2 == 0
      && !IsCup(TierName(rows[idx].tierText)) && |rows[idx + 1].linkCells| < 2;
    assert pairs[idx / 2] == idx;
    PairStepSpec(rows, base, tierKey, idx);
  }
}
