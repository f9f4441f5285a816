/**
 * The clubs spider: the team links of a competition page, and the club
 * record assembled from a club page.
 */
module Clubs {
  import opened Values
  import opened Strings
  import opened Common
  import opened Urls

  // ---------------------------------------------------------------------
  // Competition page: team links
  // ---------------------------------------------------------------------

  /** A table row, as the first `a` href of each of its cells (None when a
      cell has no link). */
  datatype TeamRow = TeamRow(cellHrefs: seq<Option<string>>)

  /** A `div.responsive-table`: its header texts and its body rows. */
  datatype Table = Table(headers: seq<string>, rows: seq<TeamRow>)

  /** A header that, stripped and lower-cased, mentions `club`. */
  predicate IsClubHeader(h: string) { h != [] && Contains(Lower(Strip(h)), "club") }

  /** `is_teams_table`: some non-empty header, stripped and lower-cased,
      contains `club`. */
  predicate IsTeamsTable(t: Table) {
    exists i :: 0 <= i < |t.headers| && IsClubHeader(t.headers[i])
  }

  /** `extract_team_href`: the link of the second cell, None for rows with
      fewer than two cells. */
  function ExtractTeamHref(row: TeamRow): (r: Option<string>)
    ensures |row.cellHrefs| < 2 ==> r.None?
    ensures |row.cellHrefs| >= 2 ==> r == row.cellHrefs[1]
  {
    if |row.cellHrefs| >= 2 then row.cellHrefs[1] else None
  }

  /** The hrefs of the rows of one table that have a non-empty team link, in
      row order. */
  function RowHrefs(rows: seq<TeamRow>): (r: seq<string>)
    ensures forall i :: 0 <= i < |r| ==> r[i] != []
    ensures |r| <= |rows|
  {
    if rows == [] then []
    else
      var h := ExtractTeamHref(rows[0]);
      (if h.Some? && h.value != [] then [h.value] else []) + RowHrefs(rows[1..])
  }

  /** The team hrefs of the page: the rows of every teams table, in table
      then row order. */
  function TeamHrefs(tables: seq<Table>): (r: seq<string>)
  {
    if tables == [] then [] else TableHrefs(tables[0]) + TeamHrefs(tables[1..])
  }

  /** The team hrefs of one table: none unless it is a teams table. */
  function TableHrefs(table: Table): seq<string> {
    if IsTeamsTable(table) then RowHrefs(table.rows) else []
  }

  /** The callback context of a club request: the href as linked (season
      kept) and the competition it was found in. */
  function ClubBase(href: string, parent: Value): (r: Record)
    ensures r.Keys == {"type", "href", "parent"}
    ensures r["type"] == Str("club") && r["href"] == Str(href) && r["parent"] == parent
  {
    map["type" := Str("club"), "href" := Str(href), "parent" := parent]
  }

  /** The requests for a list of club hrefs, in order. */
  function ClubRequests(hrefs: seq<string>, parent: Value): (r: seq<Request>)
    ensures |r| == |hrefs|
  {
    if hrefs == [] then [] else [Request(hrefs[0], ClubBase(hrefs[0], parent))] + ClubRequests(hrefs[1..], parent)
  }

  /** The request of each href follows it as linked, with the club base as
      its context. */
  lemma {:induction false} ClubRequestsEach(hrefs: seq<string>, parent: Value)
    ensures var r := ClubRequests(hrefs, parent);
      forall i :: 0 <= i < |r| ==> r[i] == Request(hrefs[i], ClubBase(hrefs[i], parent))
  {
    if hrefs != [] {
      ClubRequestsEach(hrefs[1..], parent);
      var r := ClubRequests(hrefs, parent);
      assert r == [Request(hrefs[0], ClubBase(hrefs[0], parent))] + ClubRequests(hrefs[1..], parent);
      forall i | 1 <= i < |r|
        ensures r[i] == Request(hrefs[i], ClubBase(hrefs[i], parent))
      {
        assert r[i] == ClubRequests(hrefs[1..], parent)[i - 1];
        assert hrefs[1..][i - 1] == hrefs[i];
      }
    }
  }

  lemma {:induction false} ClubRequestsAppend(a: seq<string>, b: seq<string>, parent: Value)
    ensures ClubRequests(a + b, parent) == ClubRequests(a, parent) + ClubRequests(b, parent)
    decreases |a|
  {
    if a == [] {
      assert a + b == b;
    } else {
      assert (a + b)[1..] == a[1..] + b;
      ClubRequestsAppend(a[1..], b, parent);
    }
  }

  /** `parse`: one request per team link, followed as linked, in table then
      row order. */
  method Parse(tables: seq<Table>, parent: Value) returns (requests: seq<Request>)
    ensures requests == ClubRequests(TeamHrefs(tables), parent)
  {
    requests := [];
    var t := 0;
    while t < |tables|
      invariant 0 <= t <= |tables|
      invariant requests == ClubRequests(TeamHrefs(tables[..t]), parent)
    {
      TableRequestsSnoc(tables, t, parent);
      if IsTeamsTable(tables[t]) {
        var more := RowRequests(tables[t].rows, parent);
        requests := requests + more;
      }
      t := t + 1;
    }
    assert tables[..t] == tables;
  }

  /** One more table adds the requests of its team hrefs, if any. */
  lemma TableRequestsSnoc(tables: seq<Table>, t: nat, parent: Value)
    requires t < |tables|
    ensures ClubRequests(TeamHrefs(tables[..t + 1]), parent) == ClubRequests(TeamHrefs(tables[..t]), parent)
      + (if IsTeamsTable(tables[t]) then ClubRequests(RowHrefs(tables[t].rows), parent) else [])
  {
    TeamHrefsSnoc(tables, t);
    ClubRequestsAppend(TeamHrefs(tables[..t]), TableHrefs(tables[t]), parent);
    if !IsTeamsTable(tables[t]) {
      assert ClubRequests(TeamHrefs(tables[..t]), parent) + [] == ClubRequests(TeamHrefs(tables[..t]), parent);
    }
  }

  /** The requests for the rows of one teams table, in row order. */
  method RowRequests(rows: seq<TeamRow>, parent: Value) returns (requests: seq<Request>)
    ensures requests == ClubRequests(RowHrefs(rows), parent)
  {
    requests := [];
    var j := 0;
    while j < |rows|
      invariant 0 <= j <= |rows|
      invariant requests == ClubRequests(RowHrefs(rows[..j]), parent)
    {
      var href := ExtractTeamHref(rows[j]);
      RowRequestsSnoc(rows, j, parent);
      if href.Some? && href.value != [] {
        requests := requests + [Request(href.value, ClubBase(href.value, parent))];
      }
      j := j + 1;
    }
    assert rows[..j] == rows;
  }

  lemma RowRequestsSnoc(rows: seq<TeamRow>, j: nat, parent: Value)
    requires j < |rows|
    ensures var h := ExtractTeamHref(rows[j]);
      ClubRequests(RowHrefs(rows[..j + 1]), parent) == ClubRequests(RowHrefs(rows[..j]), parent)
        + (if h.Some? && h.value != [] then [Request(h.value, ClubBase(h.value, parent))] else [])
  {
    var h := ExtractTeamHref(rows[j]);
    RowHrefsSnoc(rows, j);
    var added := if h.Some? && h.value != [] then [h.value] else [];
    ClubRequestsAppend(RowHrefs(rows[..j]), added, parent);
  }

  lemma {:induction false} TeamHrefsAppend(a: seq<Table>, b: seq<Table>)
    ensures TeamHrefs(a + b) == TeamHrefs(a) + TeamHrefs(b)
    decreases |a|
  {
    if a == [] {
      assert a + b == b;
    } else {
      assert (a + b)[1..] == a[1..] + b;
      TeamHrefsAppend(a[1..], b);
    }
  }

  lemma {:induction false} RowHrefsAppend(a: seq<TeamRow>, b: seq<TeamRow>)
    ensures RowHrefs(a + b) == RowHrefs(a) + RowHrefs(b)
    decreases |a|
  {
    if a == [] {
      assert a + b == b;
    } else {
      assert (a + b)[1..] == a[1..] + b;
      RowHrefsAppend(a[1..], b);
    }
  }

  lemma TeamHrefsSnoc(tables: seq<Table>, t: nat)
    requires t < |tables|
    ensures TeamHrefs(tables[..t + 1]) == TeamHrefs(tables[..t]) + TableHrefs(tables[t])
  {
    assert tables[..t + 1] == tables[..t] + [tables[t]];
    TeamHrefsAppend(tables[..t], [tables[t]]);
    TeamHrefsOne(tables[t]);
  }

  lemma TeamHrefsOne(table: Table)
    ensures TeamHrefs([table]) == TableHrefs(table)
  {
    assert [table][1..] == [];
    assert TableHrefs(table) + [] == TableHrefs(table);
  }

  lemma RowHrefsSnoc(rows: seq<TeamRow>, j: nat)
    requires j < |rows|
    ensures var h := ExtractTeamHref(rows[j]);
      RowHrefs(rows[..j + 1]) == RowHrefs(rows[..j]) + (if h.Some? && h.value != [] then [h.value] else [])
  {
    assert rows[..j + 1] == rows[..j] + [rows[j]];
    RowHrefsAppend(rows[..j], [rows[j]]);
    assert RowHrefs([rows[j]]) == (var h := ExtractTeamHref(rows[j]); if h.Some? && h.value != [] then [h.value] else []) + RowHrefs([]);
  }

  /** Every non-empty team link of a teams table is requested, and nothing
      else is. */
  lemma {:induction false} TeamHrefsComplete(tables: seq<Table>, h: string)
    ensures h in TeamHrefs(tables) <==>
      exists t, j :: 0 <= t < |tables| && IsTeamsTable(tables[t]) && 0 <= j < |tables[t].rows|
        && h != [] && ExtractTeamHref(tables[t].rows[j]) == Some(h)
    decreases |tables|
  {
    if tables != [] {
      TeamHrefsComplete(tables[1..], h);
      RowHrefsComplete(tables[0].rows, h);
      if h in TeamHrefs(tables) {
        if IsTeamsTable(tables[0]) && h in RowHrefs(tables[0].rows) {
          var j :| 0 <= j < |tables[0].rows| && h != [] && ExtractTeamHref(tables[0].rows[j]) == Some(h);
          assert 0 <= 0 < |tables| && IsTeamsTable(tables[0]) && 0 <= j < |tables[0].rows|;
        } else {
          var t, j :| 0 <= t < |tables[1..]| && IsTeamsTable(tables[1..][t]) && 0 <= j < |tables[1..][t].rows|
            && h != [] && ExtractTeamHref(tables[1..][t].rows[j]) == Some(h);
          assert tables[t + 1] == tables[1..][t];
        }
      }
      if exists t, j :: 0 <= t < |tables| && IsTeamsTable(tables[t]) && 0 <= j < |tables[t].rows|
          && h != [] && ExtractTeamHref(tables[t].rows[j]) == Some(h) {
        var t, j :| 0 <= t < |tables| && IsTeamsTable(tables[t]) && 0 <= j < |tables[t].rows|
          && h != [] && ExtractTeamHref(tables[t].rows[j]) == Some(h);
        if t > 0 {
          assert tables[1..][t - 1] == tables[t];
        }
      }
    }
  }

  lemma {:induction false} RowHrefsComplete(rows: seq<TeamRow>, h: string)
    ensures h in RowHrefs(rows) <==>
      exists j :: 0 <= j < |rows| && h != [] && ExtractTeamHref(rows[j]) == Some(h)
    decreases |rows|
  {
    if rows != [] {
      RowHrefsComplete(rows[1..], h);
      if exists j :: 0 <= j < |rows| && h != [] && ExtractTeamHref(rows[j]) == Some(h) {
        var j :| 0 <= j < |rows| && h != [] && ExtractTeamHref(rows[j]) == Some(h);
        if j > 0 {
          assert rows[1..][j - 1] == rows[j];
        }
      }
      if h in RowHrefs(rows[1..]) {
        var j :| 0 <= j < |rows[1..]| && h != [] && ExtractTeamHref(rows[1..][j]) == Some(h);
        assert rows[j + 1] == rows[1..][j];
      }
    }
  }

  // ---------------------------------------------------------------------
  // Club page: the club record
  // ---------------------------------------------------------------------

  /** What a club page shows, as the selectors return it. `foreigners` and
      `stadium` are None when the page has no such row, and otherwise hold
      the row's two texts. */
  datatype ClubPage = ClubPage(
    totalMarketValue: Option<string>,
    squadSize: Option<string>,
    averageAge: Option<string>,
    foreigners: Option<(Option<string>, Option<string>)>,
    nationalTeamPlayers: Option<string>,
    stadium: Option<(Option<string>, Option<string>)>,
    netTransferRecord: Option<string>,
    coachName: Option<string>,
    legalName: Option<string>,
    headline: Option<string>)

  /** The attributes a club page yields, before the whitespace pass. */
  datatype ClubAttributes = ClubAttributes(
    totalMarketValue: Value, squadSize: Value, averageAge: Value,
    foreignersNumber: Value, foreignersPercentage: Value, nationalTeamPlayers: Value,
    stadiumName: Value, stadiumSeats: Value, netTransferRecord: Value,
    coachName: Value, code: Value, name: Value)

  const AttributeKeys: set<string> := {
    "total_market_value", "squad_size", "average_age", "foreigners_number",
    "foreigners_percentage", "national_team_players", "stadium_name", "stadium_seats",
    "net_transfer_record", "coach_name", "code", "name"
  }

  /** The attributes as the dictionary the spider builds, one key each. */
  function Fields(a: ClubAttributes): (r: Record)
    ensures r.Keys == AttributeKeys
    ensures r["total_market_value"] == a.totalMarketValue && r["squad_size"] == a.squadSize
    ensures r["average_age"] == a.averageAge && r["foreigners_number"] == a.foreignersNumber
    ensures r["foreigners_percentage"] == a.foreignersPercentage
    ensures r["national_team_players"] == a.nationalTeamPlayers
    ensures r["stadium_name"] == a.stadiumName && r["stadium_seats"] == a.stadiumSeats
    ensures r["net_transfer_record"] == a.netTransferRecord && r["coach_name"] == a.coachName
    ensures r["code"] == a.code && r["name"] == a.name
  {
    map[
      "total_market_value" := a.totalMarketValue,
      "squad_size" := a.squadSize,
      "average_age" := a.averageAge,
      "foreigners_number" := a.foreignersNumber,
      "foreigners_percentage" := a.foreignersPercentage,
      "national_team_players" := a.nationalTeamPlayers,
      "stadium_name" := a.stadiumName,
      "stadium_seats" := a.stadiumSeats,
      "net_transfer_record" := a.netTransferRecord,
      "coach_name" := a.coachName,
      "code" := a.code,
      "name" := a.name
    ]
  }

  /** The optional texts of a two-text row (Foreigners, Stadium): both None
      when the page has no such row, each safely stripped otherwise. */
  function RowPair(row: Option<(Option<string>, Option<string>)>): (r: (Value, Value))
    ensures row.None? ==> r == (Null, Null)
    ensures row.Some? ==> r == (OptStr(SafeStrip(row.value.0)), OptStr(SafeStrip(row.value.1)))
  {
    if row.Some? then (OptStr(SafeStrip(row.value.0)), OptStr(SafeStrip(row.value.1))) else (Null, Null)
  }

  /** The club attributes of a page, for a given `code`: the market value
      as found, the other texts safely stripped, the two-text rows None
      when missing, the coach None when missing or empty, the name from
      the legal name or else the headline. */
  function PageAttributes(page: ClubPage, code: string): (a: ClubAttributes)
    ensures a.totalMarketValue == OptStr(page.totalMarketValue)
    ensures a.squadSize == OptStr(SafeStrip(page.squadSize))
    ensures page.foreigners.None? ==> a.foreignersNumber == Null && a.foreignersPercentage == Null
    ensures page.foreigners.Some? ==>
      && a.foreignersNumber == OptStr(SafeStrip(page.foreigners.value.0))
      && a.foreignersPercentage == OptStr(SafeStrip(page.foreigners.value.1))
    ensures page.stadium.None? ==> a.stadiumName == Null && a.stadiumSeats == Null
    ensures page.stadium.Some? ==>
      && a.stadiumName == OptStr(SafeStrip(page.stadium.value.0))
      && a.stadiumSeats == OptStr(SafeStrip(page.stadium.value.1))
    ensures a.coachName == Null <==> page.coachName.None? || page.coachName.value == []
    ensures a.coachName != Null ==> a.coachName == Str(Strip(page.coachName.value))
    ensures a.code == Str(code)
    ensures a.name == OptStr(SafeStrip(OrElse(page.legalName, page.headline)))
  {
    var coach := if page.coachName.Some? && page.coachName.value != [] then Some(Strip(page.coachName.value)) else None;
    var (foreignersNumber, foreignersPercentage) := RowPair(page.foreigners);
    var (stadiumName, stadiumSeats) := RowPair(page.stadium);
    ClubAttributes(
      OptStr(page.totalMarketValue), OptStr(SafeStrip(page.squadSize)), OptStr(SafeStrip(page.averageAge)),
      foreignersNumber, foreignersPercentage, OptStr(SafeStrip(page.nationalTeamPlayers)),
      stadiumName, stadiumSeats, OptStr(SafeStrip(page.netTransferRecord)),
      OptStr(coach), Str(code), OptStr(SafeStrip(OrElse(page.legalName, page.headline))))
  }

  function StripValue(v: Value): Value {
    if v.Str? then Str(Strip(v.s)) else v
  }

  /** Every string value stripped, every other value kept. */
  function StripAll(attrs: Record): (r: Record)
    ensures r.Keys == attrs.Keys
  {
    map k | k in attrs :: StripValue(attrs[k])
  }

  predicate AllStripped(r: Record) {
    forall k :: k in r && r[k].Str? ==> IsStripped(r[k].s)
  }

  /** After the pass every string is stripped, and a second pass changes
      nothing. */
  lemma StripAllStrips(attrs: Record)
    ensures AllStripped(StripAll(attrs))
    ensures StripAll(StripAll(attrs)) == StripAll(attrs)
    ensures forall k :: k in attrs && !attrs[k].Str? ==> StripAll(attrs)[k] == attrs[k]
  {
    forall k | k in attrs && attrs[k].Str? {
      StripIdempotent(attrs[k].s);
    }
  }

  /** The whitespace pass over the attributes, key by key, in place. */
  method StripStrings(attrs: Record) returns (r: Record)
    ensures r == StripAll(attrs)
  {
    r := attrs;
    var todo := attrs.Keys;
    while todo != {}
      invariant todo <= attrs.Keys && r == PartlyStripped(attrs, todo)
      decreases |todo|
    {
      var k :| k in todo;
      PartlyStrippedStep(attrs, todo, k);
      if r[k].Str? {
        r := r[k := Str(Strip(r[k].s))];
      }
      todo := todo - {k};
    }
    assert PartlyStripped(attrs, {}) == StripAll(attrs);
  }

  /** The attributes with the strings of the keys outside `todo` stripped. */
  function PartlyStripped(attrs: Record, todo: set<string>): Record {
    map k | k in attrs :: if k in todo then attrs[k] else StripValue(attrs[k])
  }

  /** Stripping one more key changes that key's value alone. */
  lemma PartlyStrippedStep(attrs: Record, todo: set<string>, k: string)
    requires k in todo && todo <= attrs.Keys
    ensures var r := PartlyStripped(attrs, todo);
      && k in r && r[k] == attrs[k]
      && PartlyStripped(attrs, todo - {k}) == r[k := StripValue(r[k])]
  {
    var r := PartlyStripped(attrs, todo);
    assert PartlyStripped(attrs, todo - {k}).Keys == r[k := StripValue(r[k])].Keys;
  }

  /** `parse_details` of the clubs spider: the club record is the base with
      the stripped page attributes laid over it; the code is the decoded
      first path segment of the base href. */
  method ParseDetails(page: ClubPage, base: Record, unquote: string -> string) returns (r: Result<Record>)
    ensures HrefOf(base).Err? ==> r == Err(HrefOf(base).error)
    ensures HrefOf(base).Ok? ==> (r.Ok? <==> PathCode(HrefOf(base).value, unquote).Ok?)
    ensures HrefOf(base).Ok? && r.Err? ==> r.error == PathCode(HrefOf(base).value, unquote).error
    ensures r.Ok? ==> var code := PathCode(HrefOf(base).value, unquote).value;
      && r.value == Merge(base, StripAll(Fields(PageAttributes(page, code))))
      && r.value.Keys == base.Keys + AttributeKeys
      && r.value["code"] == Str(Strip(code))
  {
    var href := HrefOf(base);
    if href.Err? {
      return Err(href.error);
    }
    var code := PathCode(href.value, unquote);
    if code.Err? {
      return Err(code.error);
    }
    var attributes := Fields(PageAttributes(page, code.value));
    attributes := StripStrings(attributes);
    r := Ok(Merge(base, attributes));
  }

  /** The emitted club record: base keys survive unless the page sets them,
      and every attribute string is stripped. */
  lemma ClubRecordStripped(base: Record, attrs: Record)
    ensures var rec := Merge(base, StripAll(attrs));
      && rec.Keys == base.Keys + attrs.Keys
      && (forall k :: k in attrs && rec[k].Str? ==> IsStripped(rec[k].s))
      && (forall k :: k in base && k !in attrs ==> rec[k] == base[k])
  {
    StripAllStrips(attrs);
  }
}
