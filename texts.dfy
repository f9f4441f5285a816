/**
 * Scanners for the regular expressions the spiders apply to page texts
 * rather than to hrefs: clock times, half-time scores, the sprite offsets
 * of event minutes and the market value in a page description.
 */
module TextPatterns {
  import opened Values
  import opened Strings
  import opened Patterns

  // ---------------------------------------------------------------------
  // `\d{1,2}:\d{2}\s*(?:AM|PM|am|pm)?`

  /** The end of `\d{1,2}:\d{2}` matched at `i`, or -1; the greedy `\d{1,2}`
      tries two digits before one. */
  function ClockEnd(s: string, i: int): (e: int)
    ensures e == -1 || (0 <= i && i + 4 <= e <= i + 5 && e <= |s|)
  {
    if 0 <= i && i + 5 <= |s| && IsDigit(s[i]) && IsDigit(s[i + 1]) && s[i + 2] == ':'
       && IsDigit(s[i + 3]) && IsDigit(s[i + 4]) then i + 5
    else if 0 <= i && i + 4 <= |s| && IsDigit(s[i]) && s[i + 1] == ':'
       && IsDigit(s[i + 2]) && IsDigit(s[i + 3]) then i + 4
    else -1
  }

  /** The end of the run of whitespace starting at `i` (greedy `\s*`). */
  function SpaceRunEnd(s: string, i: nat): (e: nat)
    requires i <= |s|
    ensures i <= e <= |s|
    ensures forall k :: i <= k < e ==> IsSpace(s[k])
    ensures e == |s| || !IsSpace(s[e])
    decreases |s| - i
  {
    if i < |s| && IsSpace(s[i]) then SpaceRunEnd(s, i + 1) else i
  }

  predicate IsMeridiem(m: string) { m == "AM" || m == "PM" || m == "am" || m == "pm" }

  predicate TimeAt(s: string, i: int) { ClockEnd(s, i) >= 0 }

  /** The end of the whole time match at `i`: the optional meridiem is taken
      after all the whitespace when it is there. */
  function TimeEnd(s: string, i: int): (e: nat)
    requires TimeAt(s, i)
    ensures ClockEnd(s, i) <= e <= |s|
  {
    var w := SpaceRunEnd(s, ClockEnd(s, i));
    if w + 2 <= |s| && IsMeridiem(s[w..w + 2]) then w + 2 else w
  }

  /** `re.search(r'(\d{1,2}:\d{2}\s*(?:AM|PM|am|pm)?)', s).group(1).strip()`,
      or None when no time occurs. */
  function TimeIn(s: string): (r: Option<string>)
    ensures r.None? <==> forall i :: 0 <= i < |s| ==> !TimeAt(s, i)
  {
    FirstAtSpec(s, TimeAt, 0);
    var k := FirstAt(s, TimeAt, 0);
    if k < 0 then None else Some(Strip(s[k..TimeEnd(s, k)]))
  }

  /** The time found is the text of the leftmost match: its clock digits,
      and its meridiem when one follows the whitespace. */
  lemma TimeInFirst(s: string, k: nat)
    requires TimeAt(s, k)
    requires forall j :: 0 <= j < k ==> !TimeAt(s, j)
    ensures TimeIn(s) == Some(s[k..TimeTextEnd(s, k)])
  {
    assert k < |s|;
    FirstAtOf(s, TimeAt, k);
    TimeStrip(s, k);
  }

  /** Where the stripped time text ends: after the meridiem when there is
      one, else right after the clock digits. */
  function TimeTextEnd(s: string, i: int): (e: nat)
    requires TimeAt(s, i)
    ensures ClockEnd(s, i) <= e <= TimeEnd(s, i)
  {
    var c := ClockEnd(s, i);
    var w := SpaceRunEnd(s, c);
    if w + 2 <= |s| && IsMeridiem(s[w..w + 2]) then w + 2 else c
  }

  /** `strip()` of the group removes exactly the whitespace that no
      meridiem followed. */
  lemma TimeStrip(s: string, k: int)
    requires TimeAt(s, k)
    ensures Strip(s[k..TimeEnd(s, k)]) == s[k..TimeTextEnd(s, k)]
  {
    var c := ClockEnd(s, k);
    var w := SpaceRunEnd(s, c);
    var g := s[k..TimeEnd(s, k)];
    assert g[0] == s[k];
    if w + 2 <= |s| && IsMeridiem(s[w..w + 2]) {
      assert g[|g| - 1] == s[w..w + 2][1];
      assert s[w..w + 2][1] == 'M' || s[w..w + 2][1] == 'm';
      assert IsDigit(g[0]);
      StripStripped(g);
    } else {
      assert g == s[k..c] + s[c..w];
      assert s[k..c][c - k - 1] == s[c - 1];
      assert forall q :: 0 <= q < w - c ==> s[c..w][q] == s[c + q];
      StripOfPaddedRight(s[k..c], s[c..w]);
    }
  }

  /** A clock time at the start of a slice that keeps its digits. */
  lemma ClockInSlice(s: string, k: int, e: int)
    requires TimeAt(s, k) && ClockEnd(s, k) <= e <= |s|
    ensures TimeAt(s[k..e], 0)
  {
    var t := s[k..e];
    assert forall q :: 0 <= q < ClockEnd(s, k) - k ==> t[q] == s[k + q];
  }

  /** What `TimeIn` finds is a stripped time text taken from `s`, itself
      starting with a clock time. */
  lemma TimeInSpec(s: string)
    requires TimeIn(s).Some?
    ensures var t := TimeIn(s).value;
      IsStripped(t) && Contains(s, t) && TimeAt(t, 0)
  {
    var k := FirstAt(s, TimeAt, 0);
    FirstAtHolds(s, TimeAt, 0);
    TimeStrip(s, k);
    TimeText(s, k);
  }

  /** The time text at a match is stripped, occurs there, and starts with
      a clock time. */
  lemma TimeText(s: string, k: int)
    requires TimeAt(s, k)
    ensures var t := s[k..TimeTextEnd(s, k)];
      IsStripped(t) && OccursAt(s, t, k) && TimeAt(t, 0)
  {
    var e := TimeTextEnd(s, k);
    var t := s[k..e];
    assert IsStripped(t) by {
      TimeStrip(s, k);
    }
    assert |t| == e - k;
    ClockInSlice(s, k, e);
  }

  /** `strip()` of a text with a non-space first character and only
      whitespace after its last non-space character. */
  lemma StripOfPaddedRight(m: string, q: string)
    requires m != [] && !IsSpace(m[0]) && !IsSpace(m[|m| - 1]) && AllSpaces(q)
    ensures Strip(m + q) == m
  {
    var e: string := [];
    assert e + m + q == m + q;
    StripOfPadded(e, m, q);
  }

  // ---------------------------------------------------------------------
  // `\(?(\d+:\d+)\)?`

  /** `\d+:\d+` matches at `i`: the greedy `\d+` has to end at the colon. */
  predicate ScoreAt(s: string, i: int) {
    0 <= i < |s| && IsDigit(s[i])
    && var e := DigitRunEnd(s, i);
    e + 1 < |s| && s[e] == ':' && IsDigit(s[e + 1])
  }

  /** `\(?\d+:\d+` matches at `i`: with an opening parenthesis the score
      follows it; without one the score starts at `i`. */
  predicate HalftimeAt(s: string, i: int) {
    ScoreAt(s, i) || (0 <= i < |s| && s[i] == '(' && ScoreAt(s, i + 1))
  }

  /** `re.search(r'\(?(\d+:\d+)\)?', s).group(1)`, or None. */
  function HalftimeScore(s: string): (r: Option<string>)
    ensures r.None? <==> forall i :: 0 <= i < |s| ==> !HalftimeAt(s, i)
  {
    FirstAtSpec(s, HalftimeAt, 0);
    var k := FirstAt(s, HalftimeAt, 0);
    if k < 0 then None else Some(ScoreGroup(s, k))
  }

  /** Group 1 of a half-time match at `k`: the score after the optional
      parenthesis. */
  function ScoreGroup(s: string, k: int): string
    requires HalftimeAt(s, k)
  {
    var g := if ScoreAt(s, k) then k else k + 1;
    s[g..DigitRunEnd(s, DigitRunEnd(s, g) + 1)]
  }

  /** The score found is the group of the leftmost match. */
  lemma HalftimeFirst(s: string, k: nat)
    requires HalftimeAt(s, k)
    requires forall j :: 0 <= j < k ==> !HalftimeAt(s, j)
    ensures HalftimeScore(s) == Some(ScoreGroup(s, k))
  {
    FirstAtOf(s, HalftimeAt, k);
  }

  /** Two digit runs around a colon, and nothing else. */
  predicate IsScore(h: string) {
    ScoreAt(h, 0) && DigitRunEnd(h, DigitRunEnd(h, 0) + 1) == |h|
  }

  /** A half-time score is two digit runs around a colon taken from the
      text. */
  lemma HalftimeScoreSpec(s: string)
    requires HalftimeScore(s).Some?
    ensures IsScore(HalftimeScore(s).value) && Contains(s, HalftimeScore(s).value)
  {
    var k := FirstAt(s, HalftimeAt, 0);
    FirstAtHolds(s, HalftimeAt, 0);
    var g := if ScoreAt(s, k) then k else k + 1;
    var h := HalftimeScore(s).value;
    assert h == ScoreGroup(s, k) == s[g..DigitRunEnd(s, DigitRunEnd(s, g) + 1)];
    ScoreSlice(s, g, h);
  }

  lemma ScoreSlice(s: string, g: int, h: string)
    requires ScoreAt(s, g) && h == s[g..DigitRunEnd(s, DigitRunEnd(s, g) + 1)]
    ensures IsScore(h) && Contains(s, h)
  {
    var e := DigitRunEnd(s, g);
    var f := DigitRunEnd(s, e + 1);
    assert forall q :: 0 <= q < |h| ==> h[q] == s[g + q];
    DigitRunEndOf(h, 0, e - g);
    DigitRunEndOf(h, e - g + 1, |h|);
    assert OccursAt(s, h, g);
  }

  /** `(0:1)` and `0:1` give the same score: the parenthesis is outside the
      group. */
  lemma HalftimeOf(pre: string, a: string, b: string, q: string)
    requires pre == "" || pre == "("
    requires IsDecimal(a) && IsDecimal(b) && (q == [] || !IsDigit(q[0]))
    ensures HalftimeScore(pre + a + ":" + b + q) == Some(a + ":" + b)
  {
    var h := a + ":" + b;
    var s := pre + a + ":" + b + q;
    assert s == pre + h + q;
    var o := |pre|;
    ScoreTextPieces(pre, h, q);
    ScoreParts(s, o, a, b, h);
    if pre == "(" {
      assert s[0] == '(' && !ScoreAt(s, 0);
    }
    HalftimeAtStart(s, o, h);
  }

  /** A half-time score at the very start of the text, after at most an
      opening parenthesis, is the one found. */
  lemma HalftimeAtStart(s: string, o: nat, h: string)
    requires ScoreAt(s, o)
    requires o == 0 || (o == 1 && s[0] == '(' && !ScoreAt(s, 0))
    requires o + |h| <= |s| && DigitRunEnd(s, DigitRunEnd(s, o) + 1) == o + |h| && s[o..o + |h|] == h
    ensures HalftimeScore(s) == Some(h)
  {
    FirstAtOf(s, HalftimeAt, 0);
  }

  /** Where the pieces of `pre + h + q` sit. */
  lemma ScoreTextPieces(pre: string, h: string, q: string)
    ensures var s := pre + h + q; var o := |pre|;
      && o + |h| <= |s| && s[o..o + |h|] == h
      && (o + |h| < |s| ==> q != [] && s[o + |h|] == q[0])
      && (pre != [] ==> s[0] == pre[0])
  {
    var s := pre + h + q;
    assert s[|pre|..|pre| + |h|] == h;
  }

  lemma ScoreParts(s: string, o: nat, a: string, b: string, h: string)
    requires IsDecimal(a) && IsDecimal(b) && h == a + ":" + b
    requires o + |h| <= |s| && s[o..o + |h|] == h
    requires o + |h| == |s| || !IsDigit(s[o + |h|])
    ensures ScoreAt(s, o) && DigitRunEnd(s, DigitRunEnd(s, o) + 1) == o + |h|
  {
    assert |h| == |a| + 1 + |b|;
    var m := o + |a| + 1;
    assert s[o..o + |a|] == h[..|a|] == a;
    assert s[o + |a|] == h[|a|] == ':';
    DigitRunOf(s, o, a);
    assert s[m..m + |b|] == h[|a| + 1..] == b;
    DigitRunOf(s, m, b);
    assert s[o] == a[0];
    assert s[m] == b[0];
  }

  // ---------------------------------------------------------------------
  // `background-position: ([-+]?[0-9]+)px ([-+]?[0-9]+)px;`

  const StylePrefix := "background-position: "

  /** The end of `[-+]?[0-9]+` matched at `i`, or -1. */
  function SignedEnd(s: string, i: nat): (e: int)
    requires i <= |s|
    ensures e == -1 || i < e <= |s|
  {
    var j := if i < |s| && (s[i] == '-' || s[i] == '+') then i + 1 else i;
    if j < |s| && IsDigit(s[j]) then DigitRunEnd(s, j) else -1
  }

  /** An optional sign followed by digits. */
  predicate IsSignedDecimal(g: string) {
    g != [] && (if g[0] == '-' || g[0] == '+' then IsDecimal(g[1..]) else IsDecimal(g))
  }

  /** The integer a signed digit group spells. */
  function SignedValue(g: string): int
    requires IsSignedDecimal(g)
  {
    if g[0] == '-' then 0 - DigitsValue(g[1..])
    else if g[0] == '+' then DigitsValue(g[1..])
    else DigitsValue(g)
  }

  /** `int()` of a captured group is the value it spells. */
  lemma ParseSignedDecimal(g: string)
    requires IsSignedDecimal(g)
    ensures ParseInt(g).Some? && ParseInt(g).value == SignedValue(g)
  {
    if g[0] == '-' || g[0] == '+' {
      ParseIntSignedDecimal(g);
    } else {
      ParseIntDecimal(g);
    }
  }

  lemma SignedGroup(s: string, i: nat)
    requires i <= |s| && SignedEnd(s, i) >= 0
    ensures IsSignedDecimal(s[i..SignedEnd(s, i)])
  {
    var e := SignedEnd(s, i);
    var g := s[i..e];
    var j := if s[i] == '-' || s[i] == '+' then i + 1 else i;
    assert forall k :: j <= k < e ==> IsDigit(s[k]);
    if j == i + 1 {
      assert g[1..] == s[j..e];
    } else {
      assert g == s[j..e];
      assert g[0] != '-' && g[0] != '+';
    }
  }

  /** `re.match` of the clock sprite's style: the two pixel offsets, or None
      when the style does not start with that shape. Text after the final
      `px;` is ignored, as `re.match` only anchors the start. */
  function StyleOffsets(s: string): (r: Option<(int, int)>)
  {
    if !StartsWith(s, StylePrefix) then None
    else
      var e1 := SignedEnd(s, 21);
      if e1 < 0 || !OccursAt(s, "px ", e1) then None
      else
        var e2 := SignedEnd(s, e1 + 3);
        if e2 < 0 || !OccursAt(s, "px;", e2) then None
        else
          SignedGroup(s, 21);
          SignedGroup(s, e1 + 3);
          Some((SignedValue(s[21..e1]), SignedValue(s[e1 + 3..e2])))
  }

  /** A style written from two offsets is read back as those offsets. */
  lemma StyleOffsetsOf(x: string, y: string, q: string)
    requires IsSignedDecimal(x) && IsSignedDecimal(y)
    ensures StyleOffsets(StylePrefix + x + "px " + y + "px;" + q)
         == Some((SignedValue(x), SignedValue(y)))
  {
    var s := StylePrefix + x + "px " + y + "px;" + q;
    var e1 := 21 + |x|;
    var e2 := e1 + 3 + |y|;
    StylePieces(x, y, q);
    SignedEndOf(s, 21, x);
    SignedEndOf(s, e1 + 3, y);
    StyleOffsetsAt(s, x, y, e1, e2);
  }

  /** Where the pieces of a written style sit. */
  lemma StylePieces(x: string, y: string, q: string)
    ensures var s := StylePrefix + x + "px " + y + "px;" + q;
      var e1 := 21 + |x|; var e2 := e1 + 3 + |y|;
      && e2 + 3 <= |s| && StartsWith(s, StylePrefix)
      && s[21..e1] == x && s[e1..e1 + 3] == "px " && s[e1] == 'p'
      && s[e1 + 3..e2] == y && s[e2..e2 + 3] == "px;" && s[e2] == 'p'
  {
    var s := StylePrefix + x + "px " + y + "px;" + q;
    assert s[..21] == StylePrefix;
    assert s[21..21 + |x|] == x;
    assert s[21 + |x|..24 + |x|] == "px ";
    assert s[24 + |x|..24 + |x| + |y|] == y;
    assert s[24 + |x| + |y|..27 + |x| + |y|] == "px;";
  }

  /** The match once both groups and the `px` separators are found. */
  lemma StyleOffsetsAt(s: string, x: string, y: string, e1: nat, e2: nat)
    requires StartsWith(s, StylePrefix) && 21 <= e1 && e1 + 3 <= e2 && e2 + 3 <= |s|
    requires SignedEnd(s, 21) == e1 && s[21..e1] == x && IsSignedDecimal(x)
    requires s[e1..e1 + 3] == "px "
    requires SignedEnd(s, e1 + 3) == e2 && s[e1 + 3..e2] == y && IsSignedDecimal(y)
    requires s[e2..e2 + 3] == "px;"
    ensures StyleOffsets(s) == Some((SignedValue(x), SignedValue(y)))
  {
    assert OccursAt(s, "px ", e1) && OccursAt(s, "px;", e2);
  }

  lemma SignedEndOf(s: string, i: nat, g: string)
    requires IsSignedDecimal(g)
    requires i + |g| < |s| && s[i..i + |g|] == g && s[i + |g|] == 'p'
    ensures SignedEnd(s, i) == i + |g| && s[i..SignedEnd(s, i)] == g
  {
    var j := if g[0] == '-' || g[0] == '+' then i + 1 else i;
    assert s[i] == g[0];
    assert forall k :: j <= k < i + |g| ==> s[k] == g[k - i];
    DigitRunEndOf(s, j, i + |g|);
  }

  // ---------------------------------------------------------------------
  // `Market value: (\€[\d\.]+[km]?)`

  const MarketPrefix := "Market value: €"

  predicate AmountChar(c: char) { IsDigit(c) || c == '.' }

  /** The end of the run of digits and dots starting at `i`. */
  function AmountRunEnd(s: string, i: nat): (e: nat)
    requires i <= |s|
    ensures i <= e <= |s|
    ensures forall k :: i <= k < e ==> AmountChar(s[k])
    ensures e == |s| || !AmountChar(s[e])
    decreases |s| - i
  {
    if i < |s| && AmountChar(s[i]) then AmountRunEnd(s, i + 1) else i
  }

  predicate MarketAt(s: string, i: int) {
    OccursAt(s, MarketPrefix, i) && i + 15 < |s| && AmountChar(s[i + 15])
  }

  /** The captured group: the euro sign, the amount and the optional
      `k`/`m` suffix. */
  function MarketGroup(s: string): (r: Option<string>)
    ensures r.None? <==> forall i :: 0 <= i < |s| ==> !MarketAt(s, i)
  {
    FirstAtSpec(s, MarketAt, 0);
    var k := FirstAt(s, MarketAt, 0);
    if k < 0 then None
    else
      var e := AmountRunEnd(s, k + 15);
      var f := if e < |s| && (s[e] == 'k' || s[e] == 'm') then e + 1 else e;
      Some(s[k + 14..f])
  }

  /** `10^n`. */
  function Pow10(n: nat): (r: nat)
    ensures r >= 1
  {
    if n == 0 then 1 else 10 * Pow10(n - 1)
  }

  /** Python's `float()` on a run of digits and dots, as an exact decimal:
      at most one dot and at least one digit, otherwise ValueError (None). */
  function DecimalReal(a: string): (r: Option<real>)
    ensures r.Some? ==> r.value >= 0.0
  {
    var k := Find(a, ".");
    var ip := if k < 0 then a else a[..k];
    var fp := if k < 0 then "" else a[k + 1..];
    if !AllDigits(ip) || !AllDigits(fp) || (ip == [] && fp == []) then None
    else Some(DigitsValue(ip) as real + DigitsValue(fp) as real / Pow10(|fp|) as real)
  }

  /** A run of digits is read as the integer it spells. */
  lemma DecimalRealOfDigits(a: string)
    requires IsDecimal(a)
    ensures DecimalReal(a) == Some(DigitsValue(a) as real)
  {
    FindChar(a, '.');
  }

  /** The market value of a (stripped) page description: the mantissa
      scaled by 1000 for a `k` suffix and by 1000000 for an `m` suffix;
      None without a match or without a suffix; ValueError when the
      mantissa is not a number (`1.2.3`). The float product is modelled
      as an exact real. */
  function MarketValueOf(meta: string): (r: Result<Option<real>>)
  {
    match MarketGroup(meta)
    case None => Ok(None)
    case Some(g) =>
      var text := Strip(ReplaceAll(g, "€", ""));
      if Contains(text, "k") then
        match DecimalReal(ReplaceAll(text, "k", ""))
        case None => Err(ValueError(text))
        case Some(v) => Ok(Some(v * 1000.0))
      else if Contains(text, "m") then
        match DecimalReal(ReplaceAll(text, "m", ""))
        case None => Err(ValueError(text))
        case Some(v) => Ok(Some(v * 1000000.0))
      else Ok(None)
  }

  /** The shape of a captured group: the euro sign, then a non-empty run
      of digits and dots, then possibly one `k` or `m`. */
  predicate MarketShape(g: string) {
    && |g| >= 2 && g[0] == '€'
    && (forall i :: 1 <= i < |g| - 1 ==> AmountChar(g[i]))
    && (AmountChar(g[|g| - 1]) || g[|g| - 1] == 'k' || g[|g| - 1] == 'm')
  }

  /** Every captured group has that shape. */
  lemma MarketGroupShape(s: string)
    ensures MarketGroup(s).Some? ==> MarketShape(MarketGroup(s).value)
  {
    FirstAtSpec(s, MarketAt, 0);
    var k := FirstAt(s, MarketAt, 0);
    if k >= 0 {
      assert MarketAt(s, k);
      assert s[k + 14] == s[k..k + 15][14] == MarketPrefix[14] == '€';
    }
  }

  /** Taking a trailing suffix letter out of an amount leaves the amount. */
  lemma DropSuffix(a: string, c: char)
    requires forall i :: 0 <= i < |a| ==> AmountChar(a[i])
    requires c == 'k' || c == 'm'
    ensures ReplaceAll(a + [c], [c], "") == a
  {
    forall i | 0 <= i < |a|
      ensures !OccursAt(a + [c], [c], i)
    {
      assert (a + [c])[i] == a[i];
    }
    ReplaceAllPrefix(a, [c], [c], "");
    assert ReplaceAll([c], [c], "") == "" + ReplaceAll([], [c], "");
    assert a + "" == a;
  }

  /** Taking the euro sign out of a group and stripping leaves the rest of
      the group. */
  lemma MarketEuroDropped(g: string)
    requires MarketShape(g)
    ensures Strip(ReplaceAll(g, "€", "")) == g[1..]
  {
    var text := g[1..];
    assert !Contains(text, "€") by {
      assert forall i :: 0 <= i < |text| ==> text[i] == g[i + 1];
      ContainsChar(text, '€');
    }
    assert ReplaceAll(g, "€", "") == text by {
      assert g[..1] == "€";
      ReplaceAllAbsent(text, "€", "");
      assert ReplaceAll(g, "€", "") == "" + ReplaceAll(text, "€", "");
    }
    StripStripped(text);
  }

  /** A `k` or an `m` is found in the rest of a group exactly when it is
      the suffix. */
  lemma MarketSuffixFound(g: string)
    requires MarketShape(g)
    ensures Contains(g[1..], "k") <==> g[|g| - 1] == 'k'
    ensures Contains(g[1..], "m") <==> g[|g| - 1] == 'm'
  {
    var text := g[1..];
    assert forall i :: 0 <= i < |text| ==> text[i] == g[i + 1];
    ContainsChar(text, 'k');
    ContainsChar(text, 'm');
  }

  /** Taking the suffix out of the rest of a group leaves the amount. */
  lemma MarketSuffixDropped(g: string)
    requires MarketShape(g) && (g[|g| - 1] == 'k' || g[|g| - 1] == 'm')
    ensures ReplaceAll(g[1..], [g[|g| - 1]], "") == g[1..|g| - 1]
  {
    assert g[1..] == g[1..|g| - 1] + [g[|g| - 1]];
    DropSuffix(g[1..|g| - 1], g[|g| - 1]);
  }

  /** No match, or a group without suffix, gives no market value. */
  lemma MarketValueUnscaled(meta: string)
    requires MarketGroup(meta).Some? ==>
      var g := MarketGroup(meta).value; |g| >= 1 && g[|g| - 1] != 'k' && g[|g| - 1] != 'm'
    ensures MarketValueOf(meta) == Ok(None)
  {
    if MarketGroup(meta).Some? {
      var g := MarketGroup(meta).value;
      assert MarketShape(g) by {
        MarketGroupShape(meta);
      }
      var text := Strip(ReplaceAll(g, "€", ""));
      assert text == g[1..] by {
        MarketEuroDropped(g);
      }
      assert !Contains(text, "k") && !Contains(text, "m") by {
        MarketSuffixFound(g);
      }
    }
  }

  /** A group ending in `k` is the amount times 1000, or ValueError when
      the amount is not a number. */
  lemma MarketValueThousands(meta: string, g: string)
    requires MarketGroup(meta) == Some(g)
    ensures |g| >= 2
    ensures g[|g| - 1] == 'k' && DecimalReal(g[1..|g| - 1]).Some? ==>
      var r := MarketValueOf(meta);
      r.Ok? && r.value.Some? && r.value.value == DecimalReal(g[1..|g| - 1]).value * 1000.0
    ensures g[|g| - 1] == 'k' && DecimalReal(g[1..|g| - 1]).None? ==>
      MarketValueOf(meta) == Err(ValueError(g[1..]))
  {
    assert MarketShape(g) by {
      MarketGroupShape(meta);
    }
    if g[|g| - 1] == 'k' {
      var text := Strip(ReplaceAll(g, "€", ""));
      assert text == g[1..] by {
        MarketEuroDropped(g);
      }
      assert Contains(text, "k") by {
        MarketSuffixFound(g);
      }
      assert ReplaceAll(text, "k", "") == g[1..|g| - 1] by {
        MarketSuffixDropped(g);
        assert [g[|g| - 1]] == "k";
      }
    }
  }

  /** A group ending in `m` is the amount times 1000000, or ValueError when
      the amount is not a number. */
  lemma MarketValueMillions(meta: string, g: string)
    requires MarketGroup(meta) == Some(g)
    ensures |g| >= 2
    ensures g[|g| - 1] == 'm' && DecimalReal(g[1..|g| - 1]).Some? ==>
      var r := MarketValueOf(meta);
      r.Ok? && r.value.Some? && r.value.value == DecimalReal(g[1..|g| - 1]).value * 1000000.0
    ensures g[|g| - 1] == 'm' && DecimalReal(g[1..|g| - 1]).None? ==>
      MarketValueOf(meta) == Err(ValueError(g[1..]))
  {
    assert MarketShape(g) by {
      MarketGroupShape(meta);
    }
    if g[|g| - 1] == 'm' {
      var text := Strip(ReplaceAll(g, "€", ""));
      assert text == g[1..] by {
        MarketEuroDropped(g);
      }
      assert Contains(text, "m") by {
        MarketSuffixFound(g);
      }
        assert !Contains(text, "k") by {
          MarketSuffixFound(g);
        }
      assert ReplaceAll(text, "m", "") == g[1..|g| - 1] by {
        MarketSuffixDropped(g);
        assert [g[|g| - 1]] == "m";
      }
    }
  }

  /** A whole number of thousands or millions: the digits times 1000 or
      1000000. */
  lemma MarketValueWhole(meta: string, g: string)
    requires MarketGroup(meta) == Some(g) && |g| >= 2
    requires IsDecimal(g[1..|g| - 1]) && (g[|g| - 1] == 'k' || g[|g| - 1] == 'm')
    ensures var r := MarketValueOf(meta);
      && r.Ok? && r.value.Some?
      && r.value.value == DigitsValue(g[1..|g| - 1]) as real * (if g[|g| - 1] == 'k' then 1000.0 else 1000000.0)
  {
    DecimalRealOfDigits(g[1..|g| - 1]);
    MarketValueThousands(meta, g);
    MarketValueMillions(meta, g);
  }
}
