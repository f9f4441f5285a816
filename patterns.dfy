/**
 * Hand-written scanners for the regular expressions the spiders apply to
 * hrefs and page texts. `\d` and `[0-9]` are ASCII digits here; an
 * unanchored `re.search` reports its leftmost match, which `FirstAt` finds.
 */
module Patterns {
  import opened Values
  import opened Strings

  /** The end of the run of digits that starts at `i` (greedy `\d*`). */
  function DigitRunEnd(s: string, i: nat): (e: nat)
    requires i <= |s|
    ensures i <= e <= |s|
    ensures forall k :: i <= k < e ==> IsDigit(s[k])
    ensures e == |s| || !IsDigit(s[e])
    decreases |s| - i
  {
    if i < |s| && IsDigit(s[i]) then DigitRunEnd(s, i + 1) else i
  }

  /** A maximal run of digits starting at `i` ends where the digits in
      front of a non-digit end. */
  lemma {:induction false} DigitRunEndOf(s: string, i: nat, e: nat)
    requires i <= e <= |s|
    requires forall k :: i <= k < e ==> IsDigit(s[k])
    requires e == |s| || !IsDigit(s[e])
    ensures DigitRunEnd(s, i) == e
    decreases e - i
  {
    if i < e {
      DigitRunEndOf(s, i + 1, e);
    }
  }

  /** The digit run at `o` is the decimal `d` written there, when no digit
      follows it. */
  lemma DigitRunOf(s: string, o: nat, d: string)
    requires IsDecimal(d) && o + |d| <= |s| && s[o..o + |d|] == d
    requires o + |d| == |s| || !IsDigit(s[o + |d|])
    ensures DigitRunEnd(s, o) == o + |d|
  {
    assert forall k :: o <= k < o + |d| ==> s[k] == d[k - o];
    DigitRunEndOf(s, o, o + |d|);
  }

  /** The first index `k`, `i <= k < |s|`, at which `at(s, k)` holds, or -1:
      where an unanchored `re.search` that starts scanning at `i` matches. */
  function FirstAt(s: string, at: (string, int) -> bool, i: nat): (r: int)
    requires i <= |s|
    ensures r == -1 || i <= r < |s|
    decreases |s| - i
  {
    if i == |s| then -1 else if at(s, i) then i else FirstAt(s, at, i + 1)
  }

  /** `FirstAt` finds a match exactly when there is one, and no match lies
      before the one it finds. */
  lemma {:induction false} FirstAtSpec(s: string, at: (string, int) -> bool, i: nat)
    requires i <= |s|
    ensures FirstAt(s, at, i) >= 0 ==> at(s, FirstAt(s, at, i))
    ensures forall k :: i <= k < |s| && (FirstAt(s, at, i) == -1 || k < FirstAt(s, at, i)) ==> !at(s, k)
    decreases |s| - i
  {
    if i < |s| && !at(s, i) {
      FirstAtSpec(s, at, i + 1);
    }
  }

  /** What `FirstAt` finds is a match. */
  lemma {:induction false} FirstAtHolds(s: string, at: (string, int) -> bool, i: nat)
    requires i <= |s|
    ensures FirstAt(s, at, i) >= 0 ==> at(s, FirstAt(s, at, i))
    decreases |s| - i
  {
    if i < |s| && !at(s, i) {
      FirstAtHolds(s, at, i + 1);
    }
  }

  /** The leftmost match is the first index where the pattern matches. */
  lemma FirstAtOf(s: string, at: (string, int) -> bool, k: nat)
    requires k < |s| && at(s, k)
    requires forall j :: 0 <= j < k ==> !at(s, j)
    ensures FirstAt(s, at, 0) == k
  {
    FirstAtSpec(s, at, 0);
  }

  // ---------------------------------------------------------------------
  // `lit(\d+)`: `/verein/(\d+)` and `/spieler/(\d+)`

  /** The pattern `lit\d+` matches at `i`. */
  predicate LitDigitsAt(s: string, lit: string, i: int) {
    OccursAt(s, lit, i) && i + |lit| < |s| && IsDigit(s[i + |lit|])
  }

  /** The digits captured by `lit(\d+)` when it matches at `i`. */
  function DigitsAfter(s: string, lit: string, i: int): (d: string)
    requires LitDigitsAt(s, lit, i)
    ensures IsDecimal(d)
  {
    s[i + |lit|..DigitRunEnd(s, i + |lit|)]
  }

  predicate VereinAt(s: string, i: int) { LitDigitsAt(s, "/verein/", i) }

  predicate SpielerAt(s: string, i: int) { LitDigitsAt(s, "/spieler/", i) }

  /** `re.search(r"/verein/(\d+)", s)`: the club id, or None. */
  function ClubId(s: string): (r: Option<string>)
    ensures r.Some? ==> IsDecimal(r.value)
  {
    FirstAtHolds(s, VereinAt, 0);
    var k := FirstAt(s, VereinAt, 0);
    if k < 0 then None
    else Some(DigitsAfter(s, "/verein/", k))
  }

  /** `ClubId` is None exactly when the pattern matches nowhere, and what it
      captures follows the literal in the text. */
  lemma ClubIdFound(s: string)
    ensures ClubId(s).None? <==> forall i :: 0 <= i < |s| ==> !VereinAt(s, i)
    ensures ClubId(s).Some? ==> Contains(s, "/verein/" + ClubId(s).value)
  {
    FirstAtSpec(s, VereinAt, 0);
    var k := FirstAt(s, VereinAt, 0);
    if k >= 0 {
      var d := DigitsAfter(s, "/verein/", k);
      assert OccursAt(s, "/verein/" + d, k) by {
        assert s[k..k + 8 + |d|] == s[k..k + 8] + d;
      }
    }
  }

  /** `re.search(r"/spieler/(\d+)", s)`: the player id, or None. */
  function PlayerId(s: string): (r: Option<string>)
    ensures r.Some? ==> IsDecimal(r.value)
  {
    FirstAtHolds(s, SpielerAt, 0);
    var k := FirstAt(s, SpielerAt, 0);
    if k < 0 then None
    else Some(DigitsAfter(s, "/spieler/", k))
  }

  /** `PlayerId` is None exactly when the pattern matches nowhere, and what it
      captures follows the literal in the text. */
  lemma PlayerIdFound(s: string)
    ensures PlayerId(s).None? <==> forall i :: 0 <= i < |s| ==> !SpielerAt(s, i)
    ensures PlayerId(s).Some? ==> Contains(s, "/spieler/" + PlayerId(s).value)
  {
    FirstAtSpec(s, SpielerAt, 0);
    var k := FirstAt(s, SpielerAt, 0);
    if k >= 0 {
      var d := DigitsAfter(s, "/spieler/", k);
      assert OccursAt(s, "/spieler/" + d, k) by {
        assert s[k..k + 9 + |d|] == s[k..k + 9] + d;
      }
    }
  }

  /** In `p + lit + d + q`, with no match inside `p` and `q` not continuing
      the digits, `lit(\d+)` captures exactly `d`. */
  lemma LitDigitsOf(p: string, lit: string, d: string, q: string)
    requires IsDecimal(d)
    requires q == [] || !IsDigit(q[0])
    ensures var s := p + lit + d + q;
      LitDigitsAt(s, lit, |p|) && DigitsAfter(s, lit, |p|) == d
  {
    var s := p + lit + d + q;
    var i := |p| + |lit|;
    assert s[|p|..] == lit + d + q;
    assert s[|p|..i] == (lit + d + q)[..|lit|];
    assert forall k :: i <= k < i + |d| ==> s[k] == d[k - i];
    DigitRunEndOf(s, i, i + |d|);
    assert s[i..i + |d|] == d;
  }

  /** The club id of an href holding `/verein/<d>` after a part without
      one is `d`. */
  lemma ClubIdOf(p: string, d: string, q: string)
    requires IsDecimal(d)
    requires q == [] || !IsDigit(q[0])
    requires forall i :: 0 <= i < |p| ==> !VereinAt(p + "/verein/" + d + q, i)
    ensures ClubId(p + "/verein/" + d + q) == Some(d)
  {
    var s := p + "/verein/" + d + q;
    LitDigitsOf(p, "/verein/", d, q);
    FirstAtOf(s, VereinAt, |p|);
  }

  /** The player id of an href holding `/spieler/<d>` after a part without
      one is `d`. */
  lemma PlayerIdOf(p: string, d: string, q: string)
    requires IsDecimal(d)
    requires q == [] || !IsDigit(q[0])
    requires forall i :: 0 <= i < |p| ==> !SpielerAt(p + "/spieler/" + d + q, i)
    ensures PlayerId(p + "/spieler/" + d + q) == Some(d)
  {
    var s := p + "/spieler/" + d + q;
    LitDigitsOf(p, "/spieler/", d, q);
    FirstAtOf(s, SpielerAt, |p|);
  }

  // ---------------------------------------------------------------------
  // `/datum/(\d{4}-\d{2}-\d{2})`

  /** `DDDD-DD-DD`. */
  predicate IsIsoDate(d: string) {
    && |d| == 10
    && IsDigit(d[0]) && IsDigit(d[1]) && IsDigit(d[2]) && IsDigit(d[3])
    && d[4] == '-' && IsDigit(d[5]) && IsDigit(d[6])
    && d[7] == '-' && IsDigit(d[8]) && IsDigit(d[9])
  }

  predicate DatumAt(s: string, i: int) {
    OccursAt(s, "/datum/", i) && i + 17 <= |s| && IsIsoDate(s[i + 7..i + 17])
  }

  /** `re.search(r'/datum/(\d{4}-\d{2}-\d{2})', s).group(1)`, or None. */
  function DatumIso(s: string): (r: Option<string>)
    ensures r.None? <==> forall i :: 0 <= i < |s| ==> !DatumAt(s, i)
    ensures r.Some? ==> IsIsoDate(r.value) && Contains(s, "/datum/" + r.value)
  {
    FirstAtSpec(s, DatumAt, 0);
    var k := FirstAt(s, DatumAt, 0);
    if k < 0 then None
    else
      var d := s[k + 7..k + 17];
      assert OccursAt(s, "/datum/" + d, k) by {
        assert s[k..k + 17] == s[k..k + 7] + d;
      }
      Some(d)
  }

  /** After a part without a date link, `/datum/<d>` gives `d`. */
  lemma DatumIsoOf(p: string, d: string, q: string)
    requires IsIsoDate(d)
    requires forall i :: 0 <= i < |p| ==> !DatumAt(p + "/datum/" + d + q, i)
    ensures DatumIso(p + "/datum/" + d + q) == Some(d)
  {
    var s := p + "/datum/" + d + q;
    assert s[|p|..|p| + 7] == "/datum/";
    assert s[|p| + 7..|p| + 17] == d;
    FirstAtOf(s, DatumAt, |p|);
  }

  // ---------------------------------------------------------------------
  // `([0-9]+)\.png`, case-insensitive

  /** `.png` in any letter case at `e`. */
  predicate PngSuffixAt(s: string, e: int) {
    0 <= e && e + 4 <= |s| && s[e] == '.'
    && LowerChar(s[e + 1]) == 'p' && LowerChar(s[e + 2]) == 'n' && LowerChar(s[e + 3]) == 'g'
  }

  /** `[0-9]+\.png` matches at `i`: the greedy digit run can only be
      followed by the dot when it is maximal. */
  predicate PngAt(s: string, i: int) {
    0 <= i < |s| && IsDigit(s[i]) && PngSuffixAt(s, DigitRunEnd(s, i))
  }

  /** `re.search(r'([0-9]+)\.png', s, re.IGNORECASE).group(1)`, or None. */
  function PngNumber(s: string): (r: Option<string>)
    ensures r.None? <==> forall i :: 0 <= i < |s| ==> !PngAt(s, i)
    ensures r.Some? ==> IsDecimal(r.value) && Contains(s, r.value + ".")
  {
    FirstAtSpec(s, PngAt, 0);
    var k := FirstAt(s, PngAt, 0);
    if k < 0 then None
    else
      var e := DigitRunEnd(s, k);
      var d := s[k..e];
      assert OccursAt(s, d + ".", k) by {
        assert s[k..e + 1] == d + [s[e]];
      }
      Some(d)
  }

  /** A flag URL `p + d + ".png"`-like tail, with no match inside `p` and
      `p` not ending in a digit, yields `d`. */
  lemma PngNumberOf(p: string, d: string, q: string)
    requires IsDecimal(d)
    requires |q| >= 4 && q[0] == '.' && LowerChar(q[1]) == 'p' && LowerChar(q[2]) == 'n' && LowerChar(q[3]) == 'g'
    requires forall i :: 0 <= i < |p| ==> !PngAt(p + d + q, i)
    ensures PngNumber(p + d + q) == Some(d)
  {
    var s := p + d + q;
    var e := |p| + |d|;
    assert forall k :: |p| <= k < e ==> s[k] == d[k - |p|];
    DigitRunEndOf(s, |p|, e);
    assert s[e..e + 4] == q[..4];
    FirstAtOf(s, PngAt, |p|);
    assert s[|p|..e] == d;
  }

  // ---------------------------------------------------------------------
  // `^/([^/]+)/startseite/verein/\d+(?:/.*)?$`

  predicate NoNewline(t: string) { forall i :: 0 <= i < |t| ==> t[i] != '\n' }

  /** What `(?:/.*)?$` accepts: nothing, or `/` and a line without a
      newline, either one optionally followed by a single final newline
      (where `$` also matches). */
  predicate SlugTailOk(t: string) {
    var u := if t != [] && t[|t| - 1] == '\n' then t[..|t| - 1] else t;
    u == [] || (u[0] == '/' && NoNewline(u))
  }

  const StartseiteVerein := "/startseite/verein/"

  /** `re.match` of the club start-page shape: the first path segment, or
      None. `[^/]+` can only end at the first `/`, and `\d+` only at the
      end of the digit run, so the match is decided without backtracking. */
  function Slug(s: string): (r: Option<string>)
  {
    if s == [] || s[0] != '/' then None
    else
      var k := Find(s[1..], "/");
      if k <= 0 then None
      else
        var rest := s[k + 1..];
        if !StartsWith(rest, StartseiteVerein) then None
        else
          var e := DigitRunEnd(rest, 19);
          if e == 19 || !SlugTailOk(rest[e..]) then None
          else Some(s[1..k + 1])
  }

  /** The shape that `Slug` accepts. */
  predicate SlugShape(s: string, g: string, d: string, t: string) {
    && g != [] && '/' !in g
    && IsDecimal(d)
    && (t == [] || !IsDigit(t[0]))
    && SlugTailOk(t)
    && s == "/" + g + StartseiteVerein + d + t
  }

  /** `Find` of a single character: the first index holding it, or -1
      when it does not occur. */
  lemma {:induction false} FindChar(s: string, c: char)
    ensures Find(s, [c]) == -1 ==> c !in s
    ensures Find(s, [c]) >= 0 ==> s[Find(s, [c])] == c && c !in s[..Find(s, [c])]
  {
    if s != [] && s[..1] != [c] {
      assert s[0] != c by { assert s[..1] == [s[0]]; }
      FindChar(s[1..], c);
      assert s == [s[0]] + s[1..];
      if Find(s[1..], [c]) >= 0 {
        assert s[..Find(s, [c])] == [s[0]] + s[1..][..Find(s[1..], [c])];
      }
    }
  }

  /** In `g + r`, with no `c` in `g` and `r` starting with `c`, the first
      `c` is at `|g|`. */
  lemma {:induction false} FindCharAt(g: string, r: string, c: char)
    requires c !in g && r != [] && r[0] == c
    ensures Find(g + r, [c]) == |g|
  {
    if g == [] {
      assert g + r == r;
      assert r[..1] == [c];
    } else {
      assert (g + r)[..1] == [g[0]];
      assert (g + r)[1..] == g[1..] + r;
      FindCharAt(g[1..], r, c);
    }
  }

  /** The part of the start-page shape after the slug. */
  lemma SlugRest(rest: string, d: string, t: string)
    requires IsDecimal(d) && (t == [] || !IsDigit(t[0]))
    requires rest == StartseiteVerein + d + t
    ensures StartsWith(rest, StartseiteVerein)
    ensures DigitRunEnd(rest, 19) == 19 + |d| && rest[19 + |d|..] == t
  {
    assert rest[..19] == StartseiteVerein;
    assert forall j :: 19 <= j < 19 + |d| ==> rest[j] == d[j - 19];
    DigitRunEndOf(rest, 19, 19 + |d|);
    assert rest[19 + |d|..] == t;
  }

  /** Every href of the start-page shape yields its first segment. */
  lemma SlugOf(s: string, g: string, d: string, t: string)
    requires SlugShape(s, g, d, t)
    ensures Slug(s) == Some(g)
  {
    SlugShapeChecks(s, g, d, t);
    SlugAccepts(s, |g|, s[|g| + 1..], 19 + |d|);
  }

  /** The checks `Slug` makes, on the start-page shape. */
  lemma SlugShapeChecks(s: string, g: string, d: string, t: string)
    requires SlugShape(s, g, d, t)
    ensures s != [] && s[0] == '/' && Find(s[1..], "/") == |g| && |g| > 0 && s[1..|g| + 1] == g
    ensures StartsWith(s[|g| + 1..], StartseiteVerein)
    ensures DigitRunEnd(s[|g| + 1..], 19) == 19 + |d| && SlugTailOk(s[|g| + 1..][19 + |d|..])
  {
    var rest := StartseiteVerein + d + t;
    Regroup("/", g, StartseiteVerein, d, t);
    SplitAfterSlash(s, g, rest);
    FindCharAt(g, rest, '/');
    SlugRest(s[|g| + 1..], d, t);
  }

  /** The two ways of grouping a five-part concatenation agree. */
  lemma Regroup(a: string, g: string, b: string, d: string, t: string)
    ensures a + g + b + d + t == a + g + (b + d + t)
  {
  }

  /** The pieces of `/` + `g` + `rest`. */
  lemma SplitAfterSlash(s: string, g: string, rest: string)
    requires s == "/" + g + rest
    ensures s != [] && s[0] == '/' && s[1..] == g + rest && s[|g| + 1..] == rest && s[1..|g| + 1] == g
  {
  }

  /** `Slug` accepts when each of its checks passes. */
  lemma SlugAccepts(s: string, k: int, rest: string, e: nat)
    requires s != [] && s[0] == '/' && k == Find(s[1..], "/") && k > 0 && rest == s[k + 1..]
    requires StartsWith(rest, StartseiteVerein) && e == DigitRunEnd(rest, 19) && e > 19 && SlugTailOk(rest[e..])
    ensures Slug(s) == Some(s[1..k + 1])
  {
  }

  /** Whatever `Slug` accepts has the start-page shape, with the segment
      it returns. */
  lemma SlugShapeOf(s: string)
    requires Slug(s).Some?
    ensures exists d, t :: SlugShape(s, Slug(s).value, d, t)
  {
    var k := Find(s[1..], "/");
    var rest := s[k + 1..];
    var e := DigitRunEnd(rest, 19);
    SlugAccepted(s, k, rest, e);
    SlugParts(s, k, Slug(s).value, rest, e);
  }

  /** The checks `Slug` makes, when it accepts. */
  lemma SlugAccepted(s: string, k: int, rest: string, e: nat)
    requires Slug(s).Some?
    requires s != [] && k == Find(s[1..], "/")
    requires k > 0 ==> rest == s[k + 1..] && |rest| >= 19 && e == DigitRunEnd(rest, 19)
    ensures s[0] == '/' && k > 0 && StartsWith(rest, StartseiteVerein)
    ensures e > 19 && SlugTailOk(rest[e..]) && Slug(s).value == s[1..k + 1]
  {
  }

  lemma SlugParts(s: string, k: int, g: string, rest: string, e: nat)
    requires s != [] && s[0] == '/'
    requires k == Find(s[1..], "/") && k > 0
    requires g == s[1..k + 1] && rest == s[k + 1..]
    requires StartsWith(rest, StartseiteVerein)
    requires e == DigitRunEnd(rest, 19) && e > 19 && SlugTailOk(rest[e..])
    ensures SlugShape(s, g, rest[19..e], rest[e..])
  {
    SlugHead(s, k);
    SlugDigits(rest, e);
    SplitTwice(s, "/", g, rest, StartseiteVerein, rest[19..e], rest[e..]);
  }

  /** Splitting the tail of a split string splits the whole. */
  lemma SplitTwice(s: string, a: string, g: string, rest: string, b: string, d: string, t: string)
    requires s == a + g + rest && rest == b + d + t
    ensures s == a + g + b + d + t
  {
  }

  lemma SlugHead(s: string, k: int)
    requires s != [] && s[0] == '/'
    requires k == Find(s[1..], "/") && k > 0
    ensures '/' !in s[1..k + 1] && s == "/" + s[1..k + 1] + s[k + 1..]
  {
    var s1 := s[1..];
    FindChar(s1, '/');
    assert s[1..k + 1] == s1[..k];
    assert s == [s[0]] + s1[..k] + s1[k..];
  }

  lemma SlugDigits(rest: string, e: nat)
    requires StartsWith(rest, StartseiteVerein)
    requires e == DigitRunEnd(rest, 19)
    ensures IsDecimal(rest[19..e]) || e == 19
    ensures rest == StartseiteVerein + rest[19..e] + rest[e..]
    ensures rest[e..] == [] || !IsDigit(rest[e..][0])
  {
    var d := rest[19..e];
    forall i | 0 <= i < |d| ensures IsDigit(d[i]) {
      assert d[i] == rest[19 + i];
    }
    assert rest == rest[..19] + d + rest[e..];
  }

  // ---------------------------------------------------------------------
  // `re.sub(r'/saison_id/\d+', '', s)`

  /** The pattern `/saison_id/\d+` matches at `i`. */
  predicate SaisonAt(s: string, i: int) { LitDigitsAt(s, "/saison_id/", i) }

  /** A match at `i >= 1` of `s` is a match at `i - 1` of `s[1..]`. */
  lemma LitDigitsAtShift(s: string, lit: string, i: int)
    requires s != [] && i >= 1
    ensures LitDigitsAt(s, lit, i) == LitDigitsAt(s[1..], lit, i - 1)
  {
    OccursAtShift(s, lit, i);
  }

  /** `re.sub(r'/saison_id/\d+', '', s)`: every match, found left to right
      and resuming after the previous one, is deleted; the greedy `\d+`
      takes the whole digit run. */
  function RemoveSaison(s: string): (r: string)
    ensures |r| <= |s|
    decreases |s|
  {
    if s == [] then []
    else if SaisonAt(s, 0) then RemoveSaison(s[DigitRunEnd(s, 11)..])
    else [s[0]] + RemoveSaison(s[1..])
  }

  /** A prefix in which no match starts is kept as it is. */
  lemma {:induction false} RemoveSaisonPrefix(a: string, b: string)
    requires forall i :: 0 <= i < |a| ==> !SaisonAt(a + b, i)
    ensures RemoveSaison(a + b) == a + RemoveSaison(b)
    decreases |a|
  {
    if a != [] {
      var s := a + b;
      NoSaisonTail(a, b);
      assert !SaisonAt(s, 0);
      assert s[1..] == a[1..] + b;
      calc {
        RemoveSaison(s);
        [s[0]] + RemoveSaison(s[1..]);
        [a[0]] + RemoveSaison(a[1..] + b);
        { RemoveSaisonPrefix(a[1..], b); }
        [a[0]] + (a[1..] + RemoveSaison(b));
        { assert a == [a[0]] + a[1..]; }
        a + RemoveSaison(b);
      }
    } else {
      assert a + b == b;
    }
  }

  lemma NoSaisonTail(a: string, b: string)
    requires a != []
    requires forall i :: 0 <= i < |a| ==> !SaisonAt(a + b, i)
    ensures forall i :: 0 <= i < |a[1..]| ==> !SaisonAt(a[1..] + b, i)
  {
    var s := a + b;
    assert s[1..] == a[1..] + b;
    forall i | 0 <= i < |a[1..]|
      ensures !SaisonAt(a[1..] + b, i)
    {
      assert !SaisonAt(s, i + 1);
      LitDigitsAtShift(s, "/saison_id/", i + 1);
    }
  }

  /** A string without any match is left unchanged. */
  lemma RemoveSaisonNoMatch(s: string)
    requires forall i :: 0 <= i < |s| ==> !SaisonAt(s, i)
    ensures RemoveSaison(s) == s
  {
    var e: string := [];
    assert s + e == s;
    RemoveSaisonPrefix(s, e);
  }

  /** No `/saison_id/<digits>` match starts anywhere in `s`. */
  predicate NoSaison(s: string) {
    forall i :: 0 <= i < |s| ==> !SaisonAt(s, i)
  }

  /** A character of the literal `/saison_id`. */
  predicate SaisonChar(c: char) {
    c == '/' || c == 's' || c == 'a' || c == 'i' || c == 'o' || c == 'n' || c == '_' || c == 'd'
  }

  /** Every match that does not start the text follows a character that
      cannot end a piece of `/saison_id`: deleting a match then never joins
      the text around it into a new one. */
  predicate SaisonGuarded(s: string) {
    forall i :: 1 <= i < |s| && SaisonAt(s, i) ==> !SaisonChar(s[i - 1])
  }

  /** A match in a suffix is a match in the whole text. */
  lemma SaisonAtDrop(s: string, k: nat, j: nat)
    requires k <= |s|
    ensures SaisonAt(s[k..], j) == SaisonAt(s, k + j)
  {
    var t := s[k..];
    if j + 11 <= |t| {
      assert t[j..j + 11] == s[k + j..k + j + 11];
    }
    if j + 11 < |t| {
      assert t[j + 11] == s[k + j + 11];
    }
  }

  /** A guarded text stays guarded when its head is dropped. */
  lemma SaisonGuardedDrop(s: string, k: nat)
    requires k <= |s| && SaisonGuarded(s)
    ensures SaisonGuarded(s[k..])
  {
    var t := s[k..];
    forall i | 1 <= i < |t| && SaisonAt(t, i)
      ensures !SaisonChar(t[i - 1])
    {
      SaisonAtDrop(s, k, i);
      assert t[i - 1] == s[k + i - 1];
    }
  }

  /** One pass of the removal leaves no match in a guarded text. */
  lemma {:induction false} RemoveSaisonClean(s: string)
    requires SaisonGuarded(s)
    ensures NoSaison(RemoveSaison(s))
    decreases |s|
  {
    if s == [] {
    } else if SaisonAt(s, 0) {
      var e := DigitRunEnd(s, 11);
      SaisonGuardedDrop(s, e);
      RemoveSaisonClean(s[e..]);
    } else {
      var w := s[1..];
      SaisonGuardedDrop(s, 1);
      RemoveSaisonClean(w);
      var u := RemoveSaison(w);
      var r := [s[0]] + u;
      assert RemoveSaison(s) == r;
      forall i | 0 <= i < |r|
        ensures !SaisonAt(r, i)
      {
        if i >= 1 {
          assert r[1..] == u;
          SaisonAtDrop(r, 1, i - 1);
        } else {
          NoJoinedSaison(s);
        }
      }
    }
  }

  /** The first character of a guarded text that does not start with a
      match cannot start one once the rest has had its matches removed. */
  lemma NoJoinedSaison(s: string)
    requires s != [] && SaisonGuarded(s) && !SaisonAt(s, 0)
    ensures !SaisonAt([s[0]] + RemoveSaison(s[1..]), 0)
  {
    var w := s[1..];
    var j := FirstAt(w, SaisonAt, 0);
    FirstAtSpec(w, SaisonAt, 0);
    if j >= 0 && j < 11 {
      NoJoinedSaisonNear(s, j);
    } else {
      NoJoinedSaisonFar(s);
    }
  }

  /** The first match of the rest starts within the first eleven
      characters: the character in front of it is not one of the literal's. */
  lemma NoJoinedSaisonNear(s: string, j: nat)
    requires s != [] && SaisonGuarded(s)
    requires j < 11 && j < |s| - 1 && SaisonAt(s[1..], j)
    requires forall k :: 0 <= k < j ==> !SaisonAt(s[1..], k)
    ensures !SaisonAt([s[0]] + RemoveSaison(s[1..]), 0)
  {
    var w := s[1..];
    var u := RemoveSaison(w);
    var r := [s[0]] + u;
    assert !SaisonChar(s[j]) by {
      SaisonAtDrop(s, 1, j);
    }
    assert r[j] == s[j] by {
      assert w == w[..j] + w[j..];
      RemoveSaisonPrefix(w[..j], w[j..]);
    }
    if SaisonAt(r, 0) {
      assert r[..11] == "/saison_id/";
      LiteralSaisonChars(j);
    }
  }

  /** A match starts with `/s`. */
  lemma SaisonAtStarts(r: string, i: int)
    ensures SaisonAt(r, i) ==> r[i] == '/' && r[i + 1] == 's'
  {
    if SaisonAt(r, i) {
      assert r[i..i + 11][0] == r[i];
      assert r[i..i + 11][1] == r[i + 1];
    }
  }

  /** The only slashes of `/saison_id/` are its first and last characters. */
  lemma LiteralSlash(k: int)
    requires 0 <= k < 11
    ensures "/saison_id/"[k] == '/' ==> k == 0 || k == 10
  {
  }

  /** Every character of `/saison_id/` is a character of the literal. */
  lemma LiteralSaisonChars(k: nat)
    requires k < 11
    ensures SaisonChar("/saison_id/"[k])
  {
  }

  /** No match of the rest starts within its first eleven characters: they
      are kept, so the head reads as it did in `s`. */
  lemma NoJoinedSaisonFar(s: string)
    requires s != [] && !SaisonAt(s, 0)
    requires forall k :: 0 <= k < 11 && k < |s| - 1 ==> !SaisonAt(s[1..], k)
    ensures !SaisonAt([s[0]] + RemoveSaison(s[1..]), 0)
  {
    var w := s[1..];
    var u := RemoveSaison(w);
    var r := [s[0]] + u;
    var m := if |w| < 11 then |w| else 11;
    assert w == w[..m] + w[m..];
    RemoveSaisonPrefix(w[..m], w[m..]);
    assert u == w[..m] + RemoveSaison(w[m..]);
  }

  /** After one pass over a guarded text, appending `/saison_id/<d>` to it
      (less its trailing slashes) gives a text with exactly one match: the
      appended segment. */
  lemma SeasonAppendedOnce(s: string, d: string)
    requires SaisonGuarded(s) && IsDecimal(d)
    ensures var head := RStripChar(RemoveSaison(s), '/'); var r := head + "/saison_id/" + d;
      && SaisonAt(r, |head|)
      && forall i :: 0 <= i < |r| && i != |head| ==> !SaisonAt(r, i)
  {
    RemoveSaisonClean(s);
    AppendedOnce(RemoveSaison(s), d);
  }

  /** The same for any text without a match. */
  lemma AppendedOnce(cleaned: string, d: string)
    requires NoSaison(cleaned) && IsDecimal(d)
    ensures var head := RStripChar(cleaned, '/'); var r := head + "/saison_id/" + d;
      && SaisonAt(r, |head|)
      && forall i :: 0 <= i < |r| && i != |head| ==> !SaisonAt(r, i)
  {
    var head := RStripChar(cleaned, '/');
    var seg := "/saison_id/" + d;
    var r := head + "/saison_id/" + d;
    assert SaisonAt(r, |head|) by {
      assert r == head + "/saison_id/" + d + [];
      LitDigitsOf(head, "/saison_id/", d, []);
    }
    assert r == head + seg;
    forall i | 0 <= i < |r| && i != |head|
      ensures !SaisonAt(r, i)
    {
      if i < |head| {
        HeadSaisonFree(cleaned, head, seg, i);
      } else {
        SegmentSaisonFree(head, d, i - |head|);
      }
    }
  }

  /** No match starts inside the appended segment but at its start. */
  lemma SegmentSaisonFree(head: string, d: string, k: int)
    requires IsDecimal(d) && 1 <= k < 11 + |d|
    ensures !SaisonAt(head + "/saison_id/" + d, |head| + k)
  {
    var seg := "/saison_id/" + d;
    var r := head + "/saison_id/" + d;
    var i := |head| + k;
    assert r[i] == seg[k];
    SaisonAtStarts(r, i);
    if k < 11 {
      LiteralSlash(k);
      assert seg[k] == "/saison_id/"[k];
      if k == 10 {
        assert r[i + 1] == seg[11] == d[0];
      }
    } else {
      assert seg[k] == d[k - 11];
    }
  }

  /** No match starts inside the stripped clean head once the segment is
      appended. */
  lemma HeadSaisonFree(cleaned: string, head: string, seg: string, i: int)
    requires NoSaison(cleaned) && head == RStripChar(cleaned, '/')
    requires |seg| >= 12 && seg[..11] == "/saison_id/" && IsDigit(seg[11])
    requires 0 <= i < |head|
    ensures !SaisonAt(head + seg, i)
  {
    var r := head + seg;
    forall k | 0 <= k < |head|
      ensures r[k] == cleaned[k]
    {
    }
    assert r[|head|] == '/' && r[|head| + 1] == 's';
    if i + 11 < |head| {
      assert r[i..i + 11] == cleaned[i..i + 11];
      assert r[i + 11] == cleaned[i + 11];
      assert SaisonAt(r, i) ==> SaisonAt(cleaned, i);
    } else if i + 11 > |head| {
      LiteralSlash(|head| - i);
    }
  }

  /** A `/saison_id/<digits>` segment is deleted up to the end of its
      digits. */
  lemma RemoveSaisonSegment(d: string, q: string)
    requires IsDecimal(d)
    requires q == [] || !IsDigit(q[0])
    ensures RemoveSaison("/saison_id/" + d + q) == RemoveSaison(q)
  {
    var s := "/saison_id/" + d + q;
    assert s == [] + "/saison_id/" + d + q;
    LitDigitsOf([], "/saison_id/", d, q);
    assert s[11 + |d|..] == q;
  }

  /** One pass does not always remove every segment: deleting the inner
      `/saison_id/1` of `/saison_id/saison_id/1/2` joins the text around it
      into a new `/saison_id/2`, which only a second pass removes. */
  lemma RemoveSaisonNotIdempotent()
    ensures RemoveSaison("/saison_id/saison_id/1/2") == "/saison_id/2"
    ensures RemoveSaison("/saison_id/2") == ""
  {
    RemoveSaisonFirstPass();
    RemoveSaisonSecondPass();
  }

  lemma RemoveSaisonFirstPass()
    ensures RemoveSaison("/saison_id/saison_id/1/2") == "/saison_id/2"
  {
    var a, b := "/saison_id", "/saison_id/" + "1" + "/2";
    FirstPassPieces();
    NoSaisonInHead(a, b);
    RemoveSaisonPrefix(a, b);
    RemoveSaisonSegment("1", "/2");
    assert RemoveSaison("/2") == "/2" by {
      forall i | 0 <= i < 2
        ensures !SaisonAt("/2", i)
      {
      }
      RemoveSaisonNoMatch("/2");
    }
  }

  /** How the example splits around its inner match. */
  lemma FirstPassPieces()
    ensures "/saison_id/saison_id/1/2" == "/saison_id" + ("/saison_id/" + "1" + "/2")
    ensures "/saison_id/2" == "/saison_id" + "/2"
  {
  }

  /** No match starts inside `/saison_id` when `/saison_id/1/2` follows. */
  lemma NoSaisonInHead(a: string, b: string)
    requires a == "/saison_id" && b == "/saison_id/" + "1" + "/2"
    ensures forall i :: 0 <= i < |a| ==> !SaisonAt(a + b, i)
  {
    forall i | 0 <= i < |a|
      ensures !SaisonAt(a + b, i)
    {
      if i == 0 {
        assert (a + b)[11] == 's';
      } else {
        assert (a + b)[i] != '/';
      }
    }
  }

  lemma RemoveSaisonSecondPass()
    ensures RemoveSaison("/saison_id/2") == ""
  {
    assert "/saison_id/2" == "/saison_id/" + "2" + "";
    RemoveSaisonSegment("2", "");
  }

}
