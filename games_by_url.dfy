/**
 * The games_by_url spider: games requested directly from a list of game
 * hrefs. The parent spider's initialisation drops every entrypoint's
 * `parent`, so this spider reads the same input lines beforehand, keeps
 * each href's parent, and puts it back afterwards; a game page is parsed
 * as the games spider parses it.
 */
module GamesByUrl {
  import opened Values
  import opened Common
  import opened GamesUrls
  import opened Games

  // ---------------------------------------------------------------------
  // The saved parents
  // ---------------------------------------------------------------------

  /** An input line whose parent is kept: both its href and its parent are
      truthy. */
  predicate Keeps(entry: Record) {
    Truthy(Get(entry, "href")) && Truthy(Get(entry, "parent"))
  }

  /** The parent saved for each href after reading `lines` in order: each
      kept line overwrites what an earlier line with the same href saved. */
  function SavedParents(lines: seq<Record>): (saved: map<Value, Value>)
  {
    if lines == [] then map[]
    else
      var saved := SavedParents(lines[..|lines| - 1]);
      var e := lines[|lines| - 1];
      if Keeps(e) then saved[e["href"] := e["parent"]] else saved
  }

  /** Line `i` is kept and no later kept line has the same href. */
  predicate LastWith(lines: seq<Record>, i: int)
    requires 0 <= i < |lines|
  {
    Keeps(lines[i])
    && forall j :: i < j < |lines| && Keeps(lines[j]) ==> lines[j]["href"] != lines[i]["href"]
  }

  /** An href is saved exactly when some kept line has it. */
  lemma {:induction false} SavedHrefs(lines: seq<Record>)
    ensures forall h :: h in SavedParents(lines) <==>
      exists i :: 0 <= i < |lines| && Keeps(lines[i]) && lines[i]["href"] == h
  {
    if lines != [] {
      var n := |lines| - 1;
      var init := lines[..n];
      var e := lines[n];
      SavedHrefs(init);
      var saved := SavedParents(lines);
      assert saved == if Keeps(e) then SavedParents(init)[e["href"] := e["parent"]] else SavedParents(init);
      forall h
        ensures h in saved <==> exists i :: 0 <= i < |lines| && Keeps(lines[i]) && lines[i]["href"] == h
      {
        if h in saved && !(Keeps(e) && e["href"] == h) {
          var i :| 0 <= i < n && Keeps(init[i]) && init[i]["href"] == h;
          assert init[i] == lines[i];
        }
        if exists i :: 0 <= i < |lines| && Keeps(lines[i]) && lines[i]["href"] == h {
          var i :| 0 <= i < |lines| && Keeps(lines[i]) && lines[i]["href"] == h;
          if i < n {
            assert init[i] == lines[i];
          }
        }
      }
    }
  }

  /** The saved parent of an href is the one of the last kept line that
      has it. */
  lemma {:induction false} SavedLast(lines: seq<Record>)
    ensures forall i :: 0 <= i < |lines| && LastWith(lines, i) ==>
      lines[i]["href"] in SavedParents(lines) && SavedParents(lines)[lines[i]["href"]] == lines[i]["parent"]
  {
    if lines != [] {
      var n := |lines| - 1;
      var init := lines[..n];
      SavedLast(init);
      var saved := SavedParents(lines);
      forall i | 0 <= i < |lines| && LastWith(lines, i)
        ensures lines[i]["href"] in saved && saved[lines[i]["href"]] == lines[i]["parent"]
      {
        if i < n {
          assert init[i] == lines[i];
          assert forall j :: i < j < n ==> init[j] == lines[j];
          assert LastWith(init, i);
        }
      }
    }
  }

  /** The reading loop of `__init__`. */
  method SaveParents(lines: seq<Record>) returns (saved: map<Value, Value>)
    ensures saved == SavedParents(lines)
  {
    saved := map[];
    var i := 0;
    while i < |lines|
      invariant 0 <= i <= |lines|
      invariant saved == SavedParents(lines[..i])
    {
      assert lines[..i + 1][..i] == lines[..i];
      var entry := lines[i];
      if Truthy(Get(entry, "href")) && Truthy(Get(entry, "parent")) {
        saved := saved[entry["href"] := entry["parent"]];
      }
      i := i + 1;
    }
    assert lines[..i] == lines;
  }

  /** Whether `__init__` reads input lines itself: a parents file is named,
      or standard input is not a terminal. */
  predicate ReadsInput(parents: Option<string>, piped: bool) {
    (parents.Some? && parents.value != []) || piped
  }

  /** The map `__init__` builds from the lines it reads. */
  function SavedFrom(parents: Option<string>, piped: bool, lines: seq<Record>): map<Value, Value> {
    if ReadsInput(parents, piped) then SavedParents(lines) else map[]
  }

  // ---------------------------------------------------------------------
  // The restored entrypoints
  // ---------------------------------------------------------------------

  /** One entrypoint after the restore loop: the saved parent of its href,
      when there is one, is put back; nothing else changes. */
  function Restore(entry: Record, saved: map<Value, Value>): (r: Record)
    ensures Get(entry, "href") in saved ==>
      r.Keys == entry.Keys + {"parent"} && r["parent"] == saved[Get(entry, "href")]
    ensures Get(entry, "href") !in saved ==> r == entry
    ensures forall k :: k in entry && k != "parent" ==> k in r && r[k] == entry[k]
  {
    var href := Get(entry, "href");
    if href in saved then entry["parent" := saved[href]] else entry
  }

  /** When the base spider loads the same lines and drops their parents
      (a base that reads the same parents file again), the restore undoes
      that removal: an entrypoint that is the last kept line with its href
      comes back exactly as it was read. With piped standard input the base
      cannot load the same lines, since they have already been consumed. */
  lemma ParentRestored(lines: seq<Record>, i: int)
    requires 0 <= i < |lines| && LastWith(lines, i)
    ensures Restore(StripParent(lines[i]), SavedParents(lines)) == lines[i]
  {
    SavedLast(lines);
    var e := lines[i];
    var stripped := StripParent(e);
    assert Get(stripped, "href") == e["href"];
    var r := Restore(stripped, SavedParents(lines));
    assert r.Keys == e.Keys;
  }

  /** An entrypoint whose href no kept line has gets no parent back. */
  lemma NoParentAdded(lines: seq<Record>, entry: Record)
    requires forall i :: 0 <= i < |lines| && Keeps(lines[i]) ==> lines[i]["href"] != Get(entry, "href")
    ensures Restore(StripParent(entry), SavedParents(lines)) == StripParent(entry)
    ensures Get(Restore(StripParent(entry), SavedParents(lines)), "parent") == Null
  {
    SavedHrefs(lines);
    assert Get(StripParent(entry), "href") == Get(entry, "href");
  }

  // ---------------------------------------------------------------------
  // The spider
  // ---------------------------------------------------------------------

  class GamesByUrlSpider {
    var baseUrl: string
    var entrypoints: seq<Record>

    /** `__init__`: the lines it reads itself from the parents file or from
        standard input are `lines`; the base spider's initialisation then
        leaves the base URL `baseUrlAfterBase` and the entrypoints
        `entrypointsAfterBase`; the saved parents are put back into those
        entrypoints. */
    constructor (parents: Option<string>, piped: bool, lines: seq<Record>,
                 baseUrlAfterBase: string, entrypointsAfterBase: seq<Record>)
      ensures baseUrl == baseUrlAfterBase
      ensures |entrypoints| == |entrypointsAfterBase|
      ensures forall i :: 0 <= i < |entrypointsAfterBase| ==>
        entrypoints[i] == Restore(entrypointsAfterBase[i], SavedFrom(parents, piped, lines))
    {
      var saved: map<Value, Value> := map[];
      if ReadsInput(parents, piped) {
        saved := SaveParents(lines);
      }
      baseUrl := baseUrlAfterBase;
      var items := entrypointsAfterBase;
      var i := 0;
      while i < |items|
        invariant 0 <= i <= |items| == |entrypointsAfterBase|
        invariant forall j :: 0 <= j < i ==> items[j] == Restore(entrypointsAfterBase[j], saved)
        invariant forall j :: i <= j < |items| ==> items[j] == entrypointsAfterBase[j]
      {
        var href := Get(items[i], "href");
        if href in saved {
          items := items[i := items[i]["parent" := saved[href]]];
        }
        i := i + 1;
      }
      entrypoints := items;
    }

    /** `parse` of a game page: the game parsed with a base made of the
        request's parent (an empty dictionary when it has none) and href. */
    method Parse(page: GamePage, parent: Record, minuteOf: (int, int) -> int) returns (r: Result<Record>)
      ensures var base := ByUrlBase(parent);
        && (GameOf(page, base, minuteOf).Err? ==> r == Err(GameOf(page, base, minuteOf).error))
        && (GameOf(page, base, minuteOf).Ok? ==> r == Ok(GameRecord(base, GameOf(page, base, minuteOf).value)))
      ensures "href" in parent && parent["href"].Str? && r.Ok? ==>
        && GameId(parent["href"].s).Ok?
        && r.value["game_id"] == Int(GameId(parent["href"].s).value)
      ensures ("href" !in parent || !parent["href"].Str?) ==> r == Err(AttributeError)
    {
      var base := ByUrlBase(parent);
      r := ParseGame(page, base, minuteOf);
    }
  }

  /** The base handed to `parse_game`: the request's parent (an empty
      dictionary when missing) and its href (None when missing), and nothing
      else. */
  function ByUrlBase(parent: Record): (base: Record)
    ensures base.Keys == {"parent", "href"}
    ensures "parent" in parent ==> base["parent"] == parent["parent"]
    ensures "parent" !in parent ==> base["parent"] == Dict(map[])
    ensures base["href"] == Get(parent, "href")
  {
    map["parent" := if "parent" in parent then parent["parent"] else Dict(map[]), "href" := Get(parent, "href")]
  }
}
