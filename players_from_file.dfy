/**
 * The players_from_file spider: one player profile page per input line,
 * parsed into a record that carries the player's status (active, retired
 * or deceased), reading the birth date, age and market value defensively:
 * a missing text gives None instead of an exception.
 */
module PlayersFromFile {
  import opened Values
  import opened Strings
  import opened Urls
  import opened Common
  import opened TextPatterns
  import opened Players

  /** A text that was found and is not empty (`if text:`). */
  predicate NonEmpty(o: Option<string>) { o.Some? && o.value != [] }

  // ---------------------------------------------------------------------
  // Dates and age
  // ---------------------------------------------------------------------

  /** `_extract_date_of_birth` on the text found: the stripped text up to
      its first ` (`, or None when no (or an empty) text was found. */
  function DatePart(text: Option<string>): (r: Option<string>)
    ensures r.None? <==> !NonEmpty(text)
  {
    if !NonEmpty(text) then None
    else
      var t := Strip(text.value);
      if Contains(t, " (") then Some(Split(t, " (")[0]) else Some(t)
  }

  /** The date part is the date the players spider reads from the same
      text: the stripped text before its first ` (`, which it holds none
      of. */
  lemma DatePartSpec(text: Option<string>)
    requires NonEmpty(text)
    ensures DatePart(text) == Some(BeforeParen(Strip(text.value)))
    ensures DatePart(text).value <= Strip(text.value)
    ensures !Contains(DatePart(text).value, " (")
  {
    BeforeParenSpec(Strip(text.value));
  }

  /** `_extract_age`: the age part of the stripped text when it holds both
      `(` and `)`, else None. */
  function AgeOf(text: Option<string>): (r: Option<string>)
    ensures r.Some? <==> NonEmpty(text) && '(' in Strip(text.value) && ')' in Strip(text.value)
    ensures r.Some? ==> r.value == AgeText(Strip(text.value))
  {
    if !NonEmpty(text) then None
    else
      var t := Strip(text.value);
      ContainsChar(t, '(');
      ContainsChar(t, ')');
      if Contains(t, "(") && Contains(t, ")") then Some(AgeText(t)) else None
  }

  /** The site's `<date> (<age>)` text gives back its date and its age. */
  lemma FileDateAndAge(date: string, age: string)
    requires date != [] && !IsSpace(date[0])
    requires !Contains(date, " (")
    requires '(' !in age && ')' !in age
    ensures DatePart(Some(date + " (" + age + ")")) == Some(date)
    ensures AgeOf(Some(date + " (" + age + ")")) == Some(age)
  {
    var t := date + " (" + age + ")";
    assert t[0] == date[0] && t[|t| - 1] == ')';
    StripStripped(t);
    DateAndAgeOf(date, age);
    DatePartSpec(Some(t));
    assert t[|date| + 1] == '(';
  }

  /** `_extract_date_of_death`: the date part of the "Date of death" text
      when one was found, else that of the "Died on" text. A first text
      that strips to nothing still wins, as an empty date. */
  function DateOfDeath(death: Option<string>, diedOn: Option<string>): (r: Option<string>)
    ensures NonEmpty(death) ==> r.Some? && r == DatePart(death)
    ensures !NonEmpty(death) ==> r == DatePart(diedOn)
  {
    if NonEmpty(death) then DatePart(death) else DatePart(diedOn)
  }

  // ---------------------------------------------------------------------
  // Status
  // ---------------------------------------------------------------------

  datatype Status = Active | Retired | Deceased

  function StatusText(s: Status): (r: string)
    ensures r in {"active", "retired", "deceased"}
  {
    match s
    case Active => "active"
    case Retired => "retired"
    case Deceased => "deceased"
  }

  /** The Current club cell of a page: the alt text of its icon, and
      whether a link in it has the `---` title, the `---` text, or the
      placeholder club slug. */
  datatype ClubNode = ClubNode(iconAlt: Option<string>, titlePlaceholder: bool, textPlaceholder: bool,
                               slugPlaceholder: bool)

  /** The placeholder the site shows for a deceased player without a date:
      the cell exists and carries one of the four marks. */
  predicate Placeholder(node: Option<ClubNode>) {
    node.Some? &&
      (node.value.iconAlt == Some("---") || node.value.titlePlaceholder || node.value.textPlaceholder
       || node.value.slugPlaceholder)
  }

  /** A retired player: a link to the retired pseudo-club, or a cell whose
      text mentions "retired" in any case. */
  predicate RetiredEvidence(retiredHref: Option<string>, clubText: string) {
    NonEmpty(retiredHref) || (clubText != [] && Contains(Lower(clubText), "retired"))
  }

  /** What the spider reads from a profile page besides the shared profile
      texts. `clubText` is the normalised text of the Current club cell,
      the empty string when there is none. */
  datatype FilePage = FilePage(
    profile: Profile,
    agentTitle: Option<string>, agentText: Option<string>, agentSpan: Option<string>,
    deathText: Option<string>, diedOnText: Option<string>,
    clubNode: Option<ClubNode>, retiredHref: Option<string>, clubText: string, clubHref: Option<string>,
    metaDescription: Option<string>, socialMedia: Option<seq<Option<string>>>,
    onLoanFrom: Option<string>, contractOption: Option<string>, contractThereExpires: Option<string>)

  /** The status of a player, by priority: deceased when a date of death
      was found or the club cell shows the placeholder; otherwise retired
      on retired evidence; otherwise active. */
  function StatusOf(page: FilePage): (s: Status)
    ensures s == Deceased <==> NonEmpty(DateOfDeath(page.deathText, page.diedOnText)) || Placeholder(page.clubNode)
    ensures s == Retired <==>
      && !NonEmpty(DateOfDeath(page.deathText, page.diedOnText)) && !Placeholder(page.clubNode)
      && RetiredEvidence(page.retiredHref, page.clubText)
  {
    if NonEmpty(DateOfDeath(page.deathText, page.diedOnText)) || Placeholder(page.clubNode) then Deceased
    else if RetiredEvidence(page.retiredHref, page.clubText) then Retired
    else Active
  }

  /** The status section of `parse`, as it updates `status` step by step. */
  method ClassifyStatus(page: FilePage) returns (status: Status, dateOfDeath: Option<string>)
    ensures dateOfDeath == DateOfDeath(page.deathText, page.diedOnText)
    ensures status == StatusOf(page)
    ensures status == Deceased && !NonEmpty(dateOfDeath) ==> Placeholder(page.clubNode)
  {
    status := Active;
    dateOfDeath := DateOfDeath(page.deathText, page.diedOnText);
    if NonEmpty(dateOfDeath) {
      status := Deceased;
    }
    if status == Active {
      var placeholder := false;
      if page.clubNode.Some? {
        var node := page.clubNode.value;
        placeholder := node.iconAlt == Some("---") || node.titlePlaceholder || node.textPlaceholder
          || node.slugPlaceholder;
      }
      if placeholder {
        status := Deceased;
      }
    }
    if status == Active {
      if NonEmpty(page.retiredHref) || (page.clubText != [] && Contains(Lower(page.clubText), "retired")) {
        status := Retired;
      }
    }
  }

  /** The current club: None for a retired or deceased player, else the
      href of the cell's first titled non-retired link. */
  function CurrentClub(status: Status, clubHref: Option<string>): (v: Value)
    ensures v == Null <==> status != Active
    ensures status == Active ==> v.Dict? && v.fields.Keys == {"href"} && v.fields["href"] == OptStr(clubHref)
  {
    if status != Active then Null else Dict(map["href" := OptStr(clubHref)])
  }

  // ---------------------------------------------------------------------
  // Other texts
  // ---------------------------------------------------------------------

  /** `x.strip() if x else None`: the contract and loan texts. */
  function StripIfFound(o: Option<string>): (r: Option<string>)
    ensures r.None? <==> !NonEmpty(o)
    ensures r.Some? ==> r.value == Strip(o.value) && IsStripped(r.value)
  {
    if NonEmpty(o) then Some(Strip(o.value)) else None
  }

  /** The market value read from the (safely stripped) page description:
      none without a description, else what the description's market
      value pattern gives. */
  function FileMarketValue(meta: Option<string>): (r: Result<Option<real>>)
    ensures !NonEmpty(meta) ==> r == Ok(None)
    ensures NonEmpty(meta) ==> r == MarketValueOf(Strip(meta.value))
  {
    var m := SafeStrip(meta);
    if NonEmpty(m) then MarketValueOf(m.value) else Ok(None)
  }

  function OptReal(o: Option<real>): (v: Value)
    ensures o.None? <==> v == Null
    ensures o.Some? ==> v == Real(o.value)
  {
    if o.Some? then Real(o.value) else Null
  }

  // ---------------------------------------------------------------------
  // The record
  // ---------------------------------------------------------------------

  const HeadKeys: set<string> := {
    "type", "href", "name", "player_agent", "on_loan_from", "contract_option", "contract_there_expires"
  }

  /** The attributes read from the parent and the page texts, as
      computed. */
  datatype Head = Head(href: Value, name: Value, agent: Value, onLoanFrom: Value, contractOption: Value,
                       contractThereExpires: Value)

  function ReadHead(page: FilePage, parent: Record): (h: Head)
  {
    Head(Get(parent, "href"),
      OptStr(SafeStrip(Some(Strip(Join(page.profile.nameTexts, ""))))),
      Dict(map["href" := OptStr(page.profile.agentHref),
               "name" := OptStr(OrElse(OrElse(page.agentTitle, page.agentText), page.agentSpan))]),
      OptStr(StripIfFound(page.onLoanFrom)),
      OptStr(StripIfFound(page.contractOption)),
      OptStr(StripIfFound(page.contractThereExpires)))
  }

  function HeadFields(h: Head): (r: Record)
    ensures r.Keys == HeadKeys
    ensures r["type"] == Str("player") && r["href"] == h.href
  {
    map[
      "type" := Str("player"),
      "href" := h.href,
      "name" := h.name,
      "player_agent" := h.agent,
      "on_loan_from" := h.onLoanFrom,
      "contract_option" := h.contractOption,
      "contract_there_expires" := h.contractThereExpires
    ]
  }

  const FileDerivedKeys: set<string> := {
    "date_of_birth", "age", "status", "current_club", "current_market_value", "code"
  }

  /** The attributes the spider derives, as computed. */
  datatype FileDerived = FileDerived(dateOfBirth: Value, age: Value, status: Value, currentClub: Value,
                                     marketValue: Value, code: Value)

  function DeriveFile(page: FilePage, status: Status, market: Option<real>, code: string): (d: FileDerived)
  {
    FileDerived(OptStr(DatePart(page.profile.birthDate)), OptStr(AgeOf(page.profile.birthDate)),
      Str(StatusText(status)), CurrentClub(status, page.clubHref), OptReal(market), Str(code))
  }

  function FileDerivedFields(d: FileDerived): (r: Record)
    ensures r.Keys == FileDerivedKeys
    ensures r["date_of_birth"] == d.dateOfBirth && r["age"] == d.age && r["status"] == d.status
    ensures r["current_club"] == d.currentClub && r["current_market_value"] == d.marketValue
    ensures r["code"] == d.code
  {
    map[
      "date_of_birth" := d.dateOfBirth,
      "age" := d.age,
      "status" := d.status,
      "current_club" := d.currentClub,
      "current_market_value" := d.marketValue,
      "code" := d.code
    ]
  }

  /** The two keys set only sometimes: the date of death, when one was
      found, and the social media links, when the page has the cell. */
  function Extras(dateOfDeath: Option<string>, social: Option<seq<Option<string>>>): (r: Record)
    ensures r.Keys <= {"date_of_death", "social_media"}
    ensures "date_of_death" in r <==> NonEmpty(dateOfDeath)
    ensures "date_of_death" in r ==> r["date_of_death"] == Str(dateOfDeath.value)
    ensures "social_media" in r <==> social.Some?
    ensures "social_media" in r ==> r["social_media"] == SocialMedia(social)
  {
    var death: Record := if NonEmpty(dateOfDeath) then map["date_of_death" := Str(dateOfDeath.value)] else map[];
    var media: Record := if social.Some? then map["social_media" := SocialMedia(social)] else map[];
    death + media
  }

  const FileKeys: set<string> := PersonKeys + CareerKeys + HeadKeys + FileDerivedKeys

  /** The attributes dictionary `parse` yields. */
  function FileAttributes(page: FilePage, parent: Record, d: FileDerived, dateOfDeath: Option<string>): (r: Record)
  {
    Merge(Merge(Merge(ProfileFields(page.profile), HeadFields(ReadHead(page, parent))),
      Extras(dateOfDeath, page.socialMedia)), FileDerivedFields(d))
  }

  /** `parse`: the market value is read before the code, so a malformed
      amount raises ValueError first; then the parent's href is required
      (KeyError) and its first path segment decoded. */
  method Parse(page: FilePage, parent: Record, unquote: string -> string) returns (r: Result<Record>)
    ensures FileMarketValue(page.metaDescription).Err? ==> r == Err(FileMarketValue(page.metaDescription).error)
    ensures FileMarketValue(page.metaDescription).Ok? && HrefOf(parent).Err? ==> r == Err(HrefOf(parent).error)
    ensures FileMarketValue(page.metaDescription).Ok? && HrefOf(parent).Ok? ==>
      (PathCode(HrefOf(parent).value, unquote).Err? ==> r == Err(PathCode(HrefOf(parent).value, unquote).error))
    ensures r.Ok? <==>
      FileMarketValue(page.metaDescription).Ok? && HrefOf(parent).Ok?
      && PathCode(HrefOf(parent).value, unquote).Ok?
    ensures r.Ok? ==>
      r.value == FileAttributes(page, parent,
           DeriveFile(page, StatusOf(page), FileMarketValue(page.metaDescription).value,
             PathCode(HrefOf(parent).value, unquote).value),
           DateOfDeath(page.deathText, page.diedOnText))
  {
    var status, dateOfDeath := ClassifyStatus(page);
    var market := FileMarketValue(page.metaDescription);
    if market.Err? {
      return Err(market.error);
    }
    var href := HrefOf(parent);
    if href.Err? {
      return Err(href.error);
    }
    var code := PathCode(href.value, unquote);
    if code.Err? {
      return Err(code.error);
    }
    var d := DeriveFile(page, status, market.value, code.value);
    r := Ok(FileAttributes(page, parent, d, dateOfDeath));
  }

  /** A key of four layered dictionaries comes from the top layer that
      has it. */
  lemma Layered(a: Record, b: Record, c: Record, d: Record, k: string)
    ensures var m := Merge(Merge(Merge(a, b), c), d);
      && (k in m <==> k in a || k in b || k in c || k in d)
      && (k in d ==> m[k] == d[k])
      && (k !in d && k in c ==> m[k] == c[k])
      && (k !in d && k !in c && k in b ==> m[k] == b[k])
  {
  }

  /** The yielded record has the shared profile keys, the keys this
      spider always sets, and the two optional keys when they apply. */
  lemma FileRecordKeys(page: FilePage, parent: Record, d: FileDerived, dod: Option<string>)
    ensures FileAttributes(page, parent, d, dod).Keys == FileKeys + Extras(dod, page.socialMedia).Keys
  {
  }

  /** The identity keys come from the head layer alone. */
  lemma HeadKeySets()
    ensures "type" !in FileDerivedKeys && "href" !in FileDerivedKeys && "parent" !in FileDerivedKeys
    ensures "parent" !in HeadKeys && "parent" !in PersonKeys && "parent" !in CareerKeys
    ensures "type" !in {"date_of_death", "social_media"} && "href" !in {"date_of_death", "social_media"}
    ensures "parent" !in {"date_of_death", "social_media"}
  {
  }

  /** The optional keys appear in no other layer. */
  lemma ExtraKeySets()
    ensures "date_of_death" !in PersonKeys + CareerKeys && "date_of_death" !in HeadKeys + FileDerivedKeys
    ensures "social_media" !in PersonKeys + CareerKeys && "social_media" !in HeadKeys + FileDerivedKeys
  {
  }

  /** The record's identity: type `player`, the parent's href, and no
      `parent` key, since the parent is not merged in. */
  lemma FileRecordHead(page: FilePage, parent: Record, d: FileDerived, dod: Option<string>)
    ensures var rec := FileAttributes(page, parent, d, dod);
      && "parent" !in rec
      && rec["type"] == Str("player") && rec["href"] == Get(parent, "href")
  {
    HeadKeySets();
    var p := ProfileFields(page.profile);
    var h := HeadFields(ReadHead(page, parent));
    var f := FileDerivedFields(d);
    var x := Extras(dod, page.socialMedia);
    Layered(p, h, x, f, "parent");
    Layered(p, h, x, f, "type");
    Layered(p, h, x, f, "href");
  }


  /** The derived attributes reach the record as derived. */
  lemma FileRecordDerived(page: FilePage, parent: Record, d: FileDerived, dod: Option<string>)
    ensures var rec := FileAttributes(page, parent, d, dod);
      && rec["date_of_birth"] == d.dateOfBirth && rec["age"] == d.age
      && rec["status"] == d.status && rec["current_club"] == d.currentClub
      && rec["current_market_value"] == d.marketValue && rec["code"] == d.code
  {
    var p := ProfileFields(page.profile);
    var h := HeadFields(ReadHead(page, parent));
    var f := FileDerivedFields(d);
    var x := Extras(dod, page.socialMedia);
    Layered(p, h, x, f, "date_of_birth");
    Layered(p, h, x, f, "age");
    Layered(p, h, x, f, "status");
    Layered(p, h, x, f, "current_club");
    Layered(p, h, x, f, "current_market_value");
    Layered(p, h, x, f, "code");
  }


  /** The date of death is in the record exactly when one was found, and
      the social media exactly when the page has the cell. */
  lemma FileRecordExtras(page: FilePage, parent: Record, d: FileDerived, dod: Option<string>)
    ensures var rec := FileAttributes(page, parent, d, dod);
      && ("date_of_death" in rec <==> NonEmpty(dod))
      && ("date_of_death" in rec ==> rec["date_of_death"] == Str(dod.value))
      && ("social_media" in rec <==> page.socialMedia.Some?)
      && ("social_media" in rec ==> rec["social_media"] == SocialMedia(page.socialMedia))
  {
    ExtraKeySets();
    var p := ProfileFields(page.profile);
    var h := HeadFields(ReadHead(page, parent));
    var f := FileDerivedFields(d);
    var x := Extras(dod, page.socialMedia);
    Layered(p, h, x, f, "date_of_death");
    Layered(p, h, x, f, "social_media");
  }


  /** What `parse` yields for a page: the status key, no current club
      exactly for a retired or deceased player, a date of death only for a
      deceased player, and the code and market value as read. */
  lemma FileRecordStatus(page: FilePage, parent: Record, market: Option<real>, code: string)
    ensures var rec := FileAttributes(page, parent, DeriveFile(page, StatusOf(page), market, code),
                                      DateOfDeath(page.deathText, page.diedOnText));
      && rec["status"] == Str(StatusText(StatusOf(page)))
      && (rec["current_club"] == Null <==> StatusOf(page) != Active)
      && ("date_of_death" in rec ==> StatusOf(page) == Deceased)
      && rec["code"] == Str(code)
      && rec["current_market_value"] == OptReal(market)
      && rec["date_of_birth"] == OptStr(DatePart(page.profile.birthDate))
  {
    var dod := DateOfDeath(page.deathText, page.diedOnText);
    var d := DeriveFile(page, StatusOf(page), market, code);
    FileRecordDerived(page, parent, d, dod);
    FileRecordExtras(page, parent, d, dod);
  }

  /** Given the same birth-date text, this spider and the players spider
      read the same date of birth and, when the text has both parentheses,
      the same age. */
  lemma BirthAgrees(birth: string)
    requires birth != []
    ensures DatePart(Some(birth)) == Some(BeforeParen(Strip(birth)))
    ensures '(' in Strip(birth) && ')' in Strip(birth) ==> AgeOf(Some(birth)) == Some(AgeText(Strip(birth)))
  {
    DatePartSpec(Some(birth));
  }
}
